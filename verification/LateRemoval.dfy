/** A run of four queries for one question on which a late removal takes a fresh answer out of the cache. */
module LateRemoval {
  import opened SingleFlight
  import opened Wrappers

  /** The query is for question 1, whose answers are kept for all transports together. */
  predicate Asks(setup: Setup, w: Worker) {
    w in setup.queries && setup.queries[w] == Query(1, 0, false) && !setup.independent
  }

  const SHARED := Key(1, None)

  predicate At(s: State, w: Worker, p: Place) {
    w in s.places && s.places[w] == p
  }

  /** The places of the queries, these two aside, and the cache are as they were. */
  predicate OnlyMoves(s: State, t: State, v: Worker, w: Worker) {
    && t.now == s.now && s.asked <= t.asked
    && forall u :: u in s.places && u != v && u != w ==> At(t, u, s.places[u])
  }

  lemma AfterTwo(setup: Setup, s: State, a: Action, b: Action)
    ensures After(setup, s, [a, b]) == Step(setup, Step(setup, s, a), b)
  {
    AfterPush(setup, s, [], a);
    AfterPush(setup, s, [a], b);
    assert [] + [a] == [a] && [a] + [b] == [a, b];
  }

  /** One query registers the question and another one waits for it. */
  lemma Lead(setup: Setup, s: State, v: Worker, w: Worker, ch: Channel)
    requires Asks(setup, v) && Asks(setup, w) && v != w && At(s, v, Arriving) && At(s, w, Arriving)
    requires 1 !in s.lock && ch !in s.maker && ch + 1 !in s.maker
    ensures var t := After(setup, s, [Arrive(v, ch), Arrive(w, ch + 1)]);
      && At(t, v, Loading(Exchanging(Some(ch)))) && At(t, w, Waiting(ch)) && OnlyMoves(s, t, v, w) && t.cache == s.cache
      && t.maker.Keys == s.maker.Keys + {ch} && ch in t.closes && t.closes[ch] == 0
  {
    AfterTwo(setup, s, Arrive(v, ch), Arrive(w, ch + 1));
  }

  /** The leader's answer comes and is kept. */
  lemma Keep(setup: Setup, s: State, v: Worker, ch: Channel, expires: int)
    requires Asks(setup, v) && At(s, v, Missed(Some(ch)))
    ensures var t := After(setup, s, [Ask(v), Return(v, true, Some(expires))]);
      && At(t, v, Unregistering(ch)) && OnlyMoves(s, t, v, v) && t.cache == s.cache[SHARED := Some(expires)]
      && t.maker == s.maker && t.closes == s.closes
  {
    AfterTwo(setup, s, Ask(v), Return(v, true, Some(expires)));
  }

  /** The leader takes the question off and closes its channel. */
  lemma Free(setup: Setup, s: State, v: Worker, ch: Channel)
    requires Asks(setup, v) && At(s, v, Unregistering(ch)) && ch in s.closes && s.closes[ch] == 0
    ensures var t := After(setup, s, [Unregister(v), Release(v)]);
      && At(t, v, Done) && OnlyMoves(s, t, v, v) && t.cache == s.cache && 1 !in t.lock
      && t.maker == s.maker && ch in t.closes && t.closes[ch] == 1
  {
    AfterTwo(setup, s, Unregister(v), Release(v));
  }

  /** A query finds the answer expired. */
  lemma SeeExpired(setup: Setup, s: State, w: Worker, reader: Reader, expires: int)
    requires Asks(setup, w) && At(s, w, Loading(reader)) && SHARED in s.cache && s.cache[SHARED] == Some(expires)
    requires expires < s.now
    ensures var t := After(setup, s, [Load(w), Judge(w)]);
      && At(t, w, Dropping(reader)) && OnlyMoves(s, t, w, w) && t.cache == s.cache
      && t.lock == s.lock && t.maker == s.maker && t.closes == s.closes
  {
    AfterTwo(setup, s, Load(w), Judge(w));
  }

  /** A query looks and finds nothing. */
  lemma Miss(setup: Setup, s: State, w: Worker, lead: Option<Channel>)
    requires Asks(setup, w) && At(s, w, Loading(Exchanging(lead))) && SHARED !in s.cache
    ensures var t := After(setup, s, [Load(w)]);
      && At(t, w, Missed(lead)) && OnlyMoves(s, t, w, w) && t.cache == s.cache
      && t.lock == s.lock && t.maker == s.maker && t.closes == s.closes
  {
    AfterPush(setup, s, [], Load(w));
    assert [] + [Load(w)] == [Load(w)];
  }

  /** A query removes the entry, whatever it is now. */
  lemma Remove(setup: Setup, s: State, w: Worker, lead: Option<Channel>)
    requires Asks(setup, w) && At(s, w, Dropping(Exchanging(lead)))
    ensures var t := After(setup, s, [Drop(w)]);
      && At(t, w, Missed(lead)) && OnlyMoves(s, t, w, w) && t.cache == s.cache - {SHARED}
      && t.lock == s.lock && t.maker == s.maker && t.closes == s.closes
  {
    AfterPush(setup, s, [], Drop(w));
    assert [] + [Drop(w)] == [Drop(w)];
  }

  /** A waiter is woken, and time passes. */
  lemma Awake(setup: Setup, s: State, w: Worker, ch: Channel, time: nat)
    requires At(s, w, Waiting(ch)) && ch in s.closes && s.closes[ch] == 1
    ensures var t := After(setup, s, [Wake(w), Pass(time)]);
      && At(t, w, Loading(Exchanging(None))) && t.now == s.now + time && t.cache == s.cache
      && (forall u :: u in s.places && u != w ==> At(t, u, s.places[u]))
      && t.lock == s.lock && t.maker == s.maker && t.closes == s.closes
  {
    AfterTwo(setup, s, Wake(w), Pass(time));
  }

  /** A query leads with another waiting, finds nothing, and keeps an answer. */
  function LeadAndKeep(v: Worker, w: Worker, ch: Channel, expires: int): seq<Action> {
    [Arrive(v, ch), Arrive(w, ch + 1)] + [Load(v)] + [Ask(v), Return(v, true, Some(expires))]
  }

  lemma LeadAndKeepRuns(setup: Setup, s: State, v: Worker, w: Worker, ch: Channel, expires: int)
    requires Asks(setup, v) && Asks(setup, w) && v != w && At(s, v, Arriving) && At(s, w, Arriving)
    requires 1 !in s.lock && ch !in s.maker && ch + 1 !in s.maker && SHARED !in s.cache
    ensures var t := After(setup, s, LeadAndKeep(v, w, ch, expires));
      && At(t, v, Unregistering(ch)) && At(t, w, Waiting(ch)) && OnlyMoves(s, t, v, w)
      && t.cache == s.cache[SHARED := Some(expires)]
      && t.maker.Keys == s.maker.Keys + {ch} && ch in t.closes && t.closes[ch] == 0
  {
    var a, b := [Arrive(v, ch), Arrive(w, ch + 1)], [Ask(v), Return(v, true, Some(expires))];
    Lead(setup, s, v, w, ch);
    var s1 := After(setup, s, a);
    Miss(setup, s1, v, Some(ch));
    var s2 := After(setup, s1, [Load(v)]);
    Keep(setup, s2, v, ch, expires);
    AfterConcat(setup, s, a, [Load(v)]);
    AfterConcat(setup, s, a + [Load(v)], b);
  }

  /** The leader is done, its waiter is woken some time later. */
  function FreeAndWake(v: Worker, w: Worker, time: nat): seq<Action> {
    [Unregister(v), Release(v)] + [Wake(w), Pass(time)]
  }

  lemma FreeAndWakeRuns(setup: Setup, s: State, v: Worker, w: Worker, ch: Channel, time: nat)
    requires Asks(setup, v) && v != w && At(s, v, Unregistering(ch)) && At(s, w, Waiting(ch))
    requires ch in s.closes && s.closes[ch] == 0
    ensures var t := After(setup, s, FreeAndWake(v, w, time));
      && At(t, v, Done) && At(t, w, Loading(Exchanging(None))) && t.now == s.now + time && t.cache == s.cache
      && (forall u :: u in s.places && u != v && u != w ==> At(t, u, s.places[u]))
      && 1 !in t.lock && t.maker == s.maker
  {
    Free(setup, s, v, ch);
    var s1 := After(setup, s, [Unregister(v), Release(v)]);
    Awake(setup, s1, w, ch, time);
    AfterConcat(setup, s, [Unregister(v), Release(v)], [Wake(w), Pass(time)]);
  }

  /** A query leads with another waiting, removes the expired answer it finds, and keeps a new one. */
  function LeadAndReplace(v: Worker, w: Worker, ch: Channel, expires: int): seq<Action> {
    [Arrive(v, ch), Arrive(w, ch + 1)] + [Load(v), Judge(v)] + [Drop(v)] + [Ask(v), Return(v, true, Some(expires))]
  }

  lemma LeadAndReplaceRuns(setup: Setup, s: State, v: Worker, w: Worker, ch: Channel, stale: int, expires: int)
    requires Asks(setup, v) && Asks(setup, w) && v != w && At(s, v, Arriving) && At(s, w, Arriving)
    requires 1 !in s.lock && ch !in s.maker && ch + 1 !in s.maker
    requires SHARED in s.cache && s.cache[SHARED] == Some(stale) && stale < s.now
    ensures var t := After(setup, s, LeadAndReplace(v, w, ch, expires));
      && At(t, v, Unregistering(ch)) && At(t, w, Waiting(ch)) && OnlyMoves(s, t, v, w)
      && SHARED in t.cache && t.cache[SHARED] == Some(expires) && ch in t.closes && t.closes[ch] == 0
  {
    var a, b, d := [Arrive(v, ch), Arrive(w, ch + 1)], [Load(v), Judge(v)], [Ask(v), Return(v, true, Some(expires))];
    Lead(setup, s, v, w, ch);
    var s1 := After(setup, s, a);
    SeeExpired(setup, s1, v, Exchanging(Some(ch)), stale);
    var s2 := After(setup, s1, b);
    Remove(setup, s2, v, Some(ch));
    var s3 := After(setup, s2, [Drop(v)]);
    Keep(setup, s3, v, ch, expires);
    AfterConcat(setup, s, a, b);
    AfterConcat(setup, s, a + b, [Drop(v)]);
    AfterConcat(setup, s, a + b + [Drop(v)], d);
  }

  /** Four queries for one question. */
  function Four(): Setup {
    var q := Query(1, 0, false);
    Setup(map[0 := q, 1 := q, 2 := q, 3 := q], false)
  }

  /** Query 0 keeps an answer that expires at 1; query 2, which waited for it, finds it expired at 2. */
  function FindExpired(): seq<Action> {
    LeadAndKeep(0, 2, 10, 1) + FreeAndWake(0, 2, 2) + [Load(2), Judge(2)]
  }

  /** Then query 1 removes it and keeps one live until 100, with query 3 waiting. */
  function Before(): seq<Action> {
    FindExpired() + LeadAndReplace(1, 3, 12, 100)
  }

  /** Query 1 is done and query 3 woken; query 2 removes the entry; query 3 finds nothing and calls the transport. */
  function Between(): seq<Action> {
    FreeAndWake(1, 3, 0) + [Drop(2)] + [Load(3)] + [Ask(3)]
  }

  lemma FindExpiredRuns(setup: Setup, s: State)
    requires Asks(setup, 0) && Asks(setup, 2) && 1 !in s.lock && s.maker == map[] && SHARED !in s.cache && s.now == 0
    requires At(s, 0, Arriving) && At(s, 1, Arriving) && At(s, 2, Arriving) && At(s, 3, Arriving)
    ensures var t := After(setup, s, FindExpired());
      && At(t, 1, Arriving) && At(t, 2, Dropping(Exchanging(None))) && At(t, 3, Arriving)
      && t.now == 2 && SHARED in t.cache && t.cache[SHARED] == Some(1) && 1 !in t.lock && t.maker.Keys == {10}
  {
    var a, b, c := LeadAndKeep(0, 2, 10, 1), FreeAndWake(0, 2, 2), [Load(2), Judge(2)];
    LeadAndKeepRuns(setup, s, 0, 2, 10, 1);
    var s1 := After(setup, s, a);
    assert At(s1, 1, s.places[1]) && At(s1, 3, s.places[3]);
    FreeAndWakeRuns(setup, s1, 0, 2, 10, 2);
    var s2 := After(setup, s1, b);
    assert At(s2, 1, s1.places[1]) && At(s2, 3, s1.places[3]);
    SeeExpired(setup, s2, 2, Exchanging(None), 1);
    var s3 := After(setup, s2, c);
    assert At(s3, 1, s2.places[1]) && At(s3, 3, s2.places[3]);
    AfterConcat(setup, s, a, b);
    AfterConcat(setup, s, a + b, c);
  }

  lemma BeforeRuns()
    ensures var s := After(Four(), Start(Four()), Before());
      && At(s, 1, Unregistering(12)) && At(s, 2, Dropping(Exchanging(None))) && At(s, 3, Waiting(12))
      && s.now == 2 && SHARED in s.cache && s.cache[SHARED] == Some(100) && 12 in s.closes && s.closes[12] == 0
  {
    var setup, s := Four(), Start(Four());
    FindExpiredRuns(setup, s);
    var s1 := After(setup, s, FindExpired());
    ReplaceRuns(setup, s1);
    AfterConcat(setup, s, FindExpired(), LeadAndReplace(1, 3, 12, 100));
  }

  lemma ReplaceRuns(setup: Setup, s: State)
    requires Asks(setup, 1) && Asks(setup, 3)
    requires At(s, 1, Arriving) && At(s, 2, Dropping(Exchanging(None))) && At(s, 3, Arriving)
    requires s.now == 2 && SHARED in s.cache && s.cache[SHARED] == Some(1) && 1 !in s.lock && s.maker.Keys == {10}
    ensures var t := After(setup, s, LeadAndReplace(1, 3, 12, 100));
      && At(t, 1, Unregistering(12)) && At(t, 2, Dropping(Exchanging(None))) && At(t, 3, Waiting(12))
      && t.now == 2 && SHARED in t.cache && t.cache[SHARED] == Some(100) && 12 in t.closes && t.closes[12] == 0
  {
    LeadAndReplaceRuns(setup, s, 1, 3, 12, 1, 100);
    assert At(After(setup, s, LeadAndReplace(1, 3, 12, 100)), 2, s.places[2]);
  }

  lemma BetweenRuns(s: State)
    requires At(s, 1, Unregistering(12)) && At(s, 2, Dropping(Exchanging(None))) && At(s, 3, Waiting(12))
    requires 12 in s.closes && s.closes[12] == 0
    ensures var t := After(Four(), s, Between()); t.now == s.now && SHARED !in t.cache && 3 in t.asked
  {
    var setup, a := Four(), FreeAndWake(1, 3, 0);
    FreeAndWakeRuns(setup, s, 1, 3, 12, 0);
    var s1 := After(setup, s, a);
    Remove(setup, s1, 2, None);
    var s2 := After(setup, s1, [Drop(2)]);
    Miss(setup, s2, 3, None);
    var s3 := After(setup, s2, [Load(3)]);
    AfterPush(setup, s3, [], Ask(3));
    assert [] + [Ask(3)] == [Ask(3)];
    AfterConcat(setup, s, a, [Drop(2)]);
    AfterConcat(setup, s, a + [Drop(2)], [Load(3)]);
    AfterConcat(setup, s, a + [Drop(2)] + [Load(3)], [Ask(3)]);
  }

  /** A run on which a released waiter calls the transport although an answer live until 100 was kept, at 2, with
      nothing evicted and no shorter-lived answer: a query that had found the previous answer expired before removes
      the new one after. */
  lemma LateRemoval()
    ensures var s := After(Four(), Start(Four()), Before());
      var t := After(Four(), s, Between());
      && SHARED in s.cache && s.cache[SHARED] == Some(100) && Undisturbed(Four(), SHARED, 100, Between())
      && InBetween(Four(), s, SHARED, 2) && At(s, 3, Waiting(12))
      && t.now == 2 && SHARED !in t.cache && 3 in t.asked
  {
    BeforeRuns();
    BetweenRuns(After(Four(), Start(Four()), Before()));
    forall k | 0 <= k < |Between()| ensures Spares(Four(), SHARED, 100, Between()[k]) {
      assert Between() == [Unregister(1), Release(1), Wake(3), Pass(0), Drop(2), Load(3), Ask(3)];
    }
  }
}
