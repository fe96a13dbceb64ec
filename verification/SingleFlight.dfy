/** One question, one exchange: queries that find their question under way wait for the one that started it. */
module SingleFlight {
  import opened Wrappers

  type Question = nat
  type Channel = nat
  type Worker = nat
  type Transport = nat

  /** A query comes as a message to exchange, or as a name to look up, which reads the cache by itself first. */
  datatype Query = Query(question: Question, transport: Transport, lookup: bool)

  /** Where an answer is kept: by question, and by transport too when caches are independent. */
  datatype Key = Key(question: Question, transport: Option<Transport>)

  /** Who reads the cache: a lookup, before anything else, or an exchange, which may have registered its question
      under a channel of its own. */
  datatype Reader = Peeking | Exchanging(lead: Option<Channel>)

  /** Where a query stands. Between `Looked` and `Dropping` it has read the clock and found the entry it saw expired;
      nothing is held from the look to the removal. */
  datatype Place =
    | Calling
    | Arriving
    | Waiting(ch: Channel)
    | Loading(reader: Reader)
    | Looked(reader: Reader, expires: Option<int>)
    | Dropping(reader: Reader)
    | Missed(lead: Option<Channel>)
    | Asking(lead: Option<Channel>)
    | Unregistering(own: Channel)
    | Releasing(own: Channel)
    | Done

  /** The lock table, the channels with their makers and how often each was closed, the queries, and the cache
      with the times answers expire, if they do. */
  datatype State = State(
    lock: map<Question, Channel>,
    maker: map<Channel, Worker>,
    closes: map<Channel, nat>,
    places: map<Worker, Place>,
    cache: map<Key, Option<int>>,
    now: int,
    asked: set<Worker>)

  datatype Action =
    | Peek(w: Worker)
    | Arrive(w: Worker, made: Channel)
    | Wake(w: Worker)
    | GiveUp(w: Worker)
    | Load(w: Worker)
    | Judge(w: Worker)
    | Drop(w: Worker)
    | Ask(w: Worker)
    | Refuse(w: Worker)
    | Return(w: Worker, store: bool, expires: Option<int>)
    | Unregister(w: Worker)
    | Release(w: Worker)
    | Pass(time: nat)
    | Evict(key: Key)

  datatype Setup = Setup(queries: map<Worker, Query>, independent: bool) {
    function KeyFor(w: Worker): Key
      requires w in queries
    {
      Key(queries[w].question, if independent then Some(queries[w].transport) else None)
    }
  }

  /** The time has not passed when the answer expires. */
  predicate Live(expires: Option<int>, now: int) {
    expires.None? || now <= expires.value
  }

  /** A query leaves: one that registered its question first takes it off again. */
  function Leaving(lead: Option<Channel>): Place {
    match lead
    case None => Done
    case Some(ch) => Unregistering(ch)
  }

  /** A reader that found a live answer is done with the question. */
  function Found(reader: Reader): Place {
    match reader
    case Peeking => Done
    case Exchanging(lead) => Leaving(lead)
  }

  /** One that found none: a lookup goes on to an exchange, an exchange to the transport. */
  function NotFound(reader: Reader): Place {
    match reader
    case Peeking => Arriving
    case Exchanging(lead) => Missed(lead)
  }

  function Start(setup: Setup): State {
    State(map[], map[], map[], map w | w in setup.queries :: if setup.queries[w].lookup then Calling else Arriving,
          map[], 0, {})
  }

  /** One step of one query, of the clock, or an entry dropped from the cache. A step that does not apply changes
      nothing. */
  function Step(setup: Setup, s: State, a: Action): State {
    match a
    case Pass(time) => s.(now := s.now + time)
    case Evict(key) => s.(cache := s.cache - {key})
    case Peek(w) =>
      if w in s.places && s.places[w].Calling? then s.(places := s.places[w := Loading(Peeking)]) else s
    case Arrive(w, made) =>
      if w !in setup.queries || w !in s.places || !s.places[w].Arriving? || made in s.maker then s
      else
        var q := setup.queries[w].question;
        if q in s.lock then s.(places := s.places[w := Waiting(s.lock[q])])
        else
          s.(lock := s.lock[q := made], maker := s.maker[made := w], closes := s.closes[made := 0],
             places := s.places[w := Loading(Exchanging(Some(made)))])
    case Wake(w) =>
      if w in s.places && s.places[w].Waiting? && s.places[w].ch in s.closes && s.closes[s.places[w].ch] > 0 then
        s.(places := s.places[w := Loading(Exchanging(None))])
      else s
    case GiveUp(w) =>
      if w in s.places && s.places[w].Waiting? then s.(places := s.places[w := Done]) else s
    case Load(w) =>
      if w !in setup.queries || w !in s.places || !s.places[w].Loading? then s
      else
        var key, reader := setup.KeyFor(w), s.places[w].reader;
        if key !in s.cache then s.(places := s.places[w := NotFound(reader)])
        else s.(places := s.places[w := Looked(reader, s.cache[key])])
    case Judge(w) =>
      if w in s.places && s.places[w].Looked? then
        var reader := s.places[w].reader;
        s.(places := s.places[w := if Live(s.places[w].expires, s.now) then Found(reader) else Dropping(reader)])
      else s
    case Drop(w) =>
      if w in setup.queries && w in s.places && s.places[w].Dropping? then
        s.(cache := s.cache - {setup.KeyFor(w)}, places := s.places[w := NotFound(s.places[w].reader)])
      else s
    case Ask(w) =>
      if w in s.places && s.places[w].Missed? then
        s.(places := s.places[w := Asking(s.places[w].lead)], asked := s.asked + {w})
      else s
    case Refuse(w) =>
      if w in s.places && s.places[w].Missed? then s.(places := s.places[w := Leaving(s.places[w].lead)]) else s
    case Return(w, store, expires) =>
      if w !in setup.queries || w !in s.places || !s.places[w].Asking? then s
      else
        s.(cache := if store then s.cache[setup.KeyFor(w) := expires] else s.cache,
           places := s.places[w := Leaving(s.places[w].lead)])
    case Unregister(w) =>
      if w in setup.queries && w in s.places && s.places[w].Unregistering? then
        s.(lock := s.lock - {setup.queries[w].question}, places := s.places[w := Releasing(s.places[w].own)])
      else s
    case Release(w) =>
      if w in s.places && s.places[w].Releasing? && s.places[w].own in s.closes then
        s.(closes := s.closes[s.places[w].own := s.closes[s.places[w].own] + 1], places := s.places[w := Done])
      else s
  }

  function After(setup: Setup, s: State, run: seq<Action>): State {
    if |run| == 0 then s else Step(setup, After(setup, s, run[..|run| - 1]), run[|run| - 1])
  }

  // ---- What every step keeps ----

  function LeadOf(reader: Reader): Option<Channel> {
    if reader.Exchanging? then reader.lead else None
  }

  /** The channel a query has still to close. */
  function Holds(p: Place): Option<Channel> {
    match p
    case Loading(reader) => LeadOf(reader)
    case Looked(reader, _) => LeadOf(reader)
    case Dropping(reader) => LeadOf(reader)
    case Missed(lead) => lead
    case Asking(lead) => lead
    case Unregistering(own) => Some(own)
    case Releasing(own) => Some(own)
    case _ => None
  }

  /** The channel under which a query's question is still registered. */
  function Registers(p: Place): Option<Channel> {
    if p.Releasing? then None else Holds(p)
  }

  /** A query's own channel is open, and in the table under its question until it is taken off. */
  predicate Holding(setup: Setup, s: State, w: Worker)
    requires w in s.places && w in setup.queries
  {
    var p := s.places[w];
    && (Holds(p).Some? ==>
      var ch := Holds(p).value; ch in s.maker && s.maker[ch] == w && ch in s.closes && s.closes[ch] == 0)
    && (Registers(p).Some? ==>
      setup.queries[w].question in s.lock && s.lock[setup.queries[w].question] == Registers(p).value)
    && (p.Waiting? ==> p.ch in s.maker)
  }

  /** A registered question has a query that leads it. */
  predicate Led(setup: Setup, s: State, q: Question)
    requires q in s.lock
  {
    var ch := s.lock[q];
    && ch in s.maker && s.maker[ch] in s.places && s.maker[ch] in setup.queries
    && setup.queries[s.maker[ch]].question == q && Registers(s.places[s.maker[ch]]) == Some(ch)
  }

  /** A channel has been closed once, and its maker is done, unless its maker still holds it. */
  predicate Counted(s: State, ch: Channel)
    requires ch in s.maker
  {
    && s.maker[ch] in s.places && ch in s.closes
    && if Holds(s.places[s.maker[ch]]) == Some(ch) then s.closes[ch] == 0
       else s.closes[ch] == 1 && s.places[s.maker[ch]].Done?
  }

  predicate Safe(setup: Setup, s: State) {
    && s.places.Keys == setup.queries.Keys
    && (forall w :: w in s.places ==> Holding(setup, s, w))
    && (forall q :: q in s.lock ==> Led(setup, s, q))
    && (forall ch :: ch in s.maker ==> Counted(s, ch))
  }

  lemma StepSafe(setup: Setup, s: State, a: Action)
    requires Safe(setup, s)
    ensures Safe(setup, Step(setup, s, a))
  {
    match a
    case Arrive(w, made) => ArriveSafe(setup, s, w, made);
    case Unregister(w) => UnregisterSafe(setup, s, w);
    case Release(w) => ReleaseSafe(setup, s, w);
    case Pass(_) => MoveSafe(setup, s, Step(setup, s, a), 0);
    case Evict(_) => MoveSafe(setup, s, Step(setup, s, a), 0);
    case _ =>
      MoverMoves(setup, s, a);
      MoveSafe(setup, s, Step(setup, s, a), a.w);
  }

  /** Nothing about channels changes, and only the mover's place, which keeps its channel. */
  predicate Moved(s: State, t: State, mover: Worker) {
    && t.lock == s.lock && t.maker == s.maker && t.closes == s.closes && t.places.Keys == s.places.Keys
    && (forall w :: w in s.places && w != mover ==> t.places[w] == s.places[w])
    && (mover in s.places ==>
          t.places[mover] == s.places[mover]
          || (SameChannel(s.places[mover], t.places[mover]) && !s.places[mover].Done?
            && (t.places[mover].Waiting? ==> t.places[mover].ch in s.maker)))
  }

  predicate SameChannel(p: Place, p': Place) {
    Holds(p') == Holds(p) && Registers(p') == Registers(p)
  }

  /** A step of a query that neither registers, unregisters nor closes. */
  predicate Plain(a: Action) {
    !a.Arrive? && !a.Unregister? && !a.Release? && !a.Pass? && !a.Evict?
  }

  lemma MoverMoves(setup: Setup, s: State, a: Action)
    requires Plain(a)
    ensures Moved(s, Step(setup, s, a), a.w)
  {
    match a
    case Load(w) => LoadMoves(setup, s, w);
    case Judge(w) => JudgeMoves(setup, s, w);
    case Drop(w) => DropMoves(setup, s, w);
    case Return(w, store, expires) => ReturnMoves(setup, s, w, store, expires);
    case Refuse(w) => RefuseMoves(setup, s, w);
    case _ => OthersMove(setup, s, a);
  }

  /** One query goes to another place with the channel it had. */
  lemma MovedTo(s: State, t: State, w: Worker, p: Place)
    requires w in s.places && t.places == s.places[w := p]
    requires t.lock == s.lock && t.maker == s.maker && t.closes == s.closes
    requires SameChannel(s.places[w], p) && !s.places[w].Done? && !p.Waiting?
    ensures Moved(s, t, w)
  {
    assert t.places.Keys == s.places.Keys;
  }

  lemma LoadMoves(setup: Setup, s: State, w: Worker)
    ensures Moved(s, Step(setup, s, Load(w)), w)
  {
    var t := Step(setup, s, Load(w));
    if t != s {
      ReaderHolds(s.places[w].reader);
      MovedTo(s, t, w, t.places[w]);
    }
  }

  lemma JudgeMoves(setup: Setup, s: State, w: Worker)
    ensures Moved(s, Step(setup, s, Judge(w)), w)
  {
    var t := Step(setup, s, Judge(w));
    if t != s {
      ReaderHolds(s.places[w].reader);
      MovedTo(s, t, w, t.places[w]);
    }
  }

  lemma DropMoves(setup: Setup, s: State, w: Worker)
    ensures Moved(s, Step(setup, s, Drop(w)), w)
  {
    var t := Step(setup, s, Drop(w));
    if t != s {
      ReaderHolds(s.places[w].reader);
      MovedTo(s, t, w, t.places[w]);
    }
  }

  lemma ReturnMoves(setup: Setup, s: State, w: Worker, store: bool, expires: Option<int>)
    ensures Moved(s, Step(setup, s, Return(w, store, expires)), w)
  {
    var t := Step(setup, s, Return(w, store, expires));
    if t != s {
      LeavingHolds(s.places[w].lead);
      MovedTo(s, t, w, t.places[w]);
    }
  }

  lemma RefuseMoves(setup: Setup, s: State, w: Worker)
    ensures Moved(s, Step(setup, s, Refuse(w)), w)
  {
    var t := Step(setup, s, Refuse(w));
    if t != s {
      LeavingHolds(s.places[w].lead);
      MovedTo(s, t, w, t.places[w]);
    }
  }

  lemma OthersMove(setup: Setup, s: State, a: Action)
    requires a.Peek? || a.Wake? || a.GiveUp? || a.Ask?
    ensures Moved(s, Step(setup, s, a), a.w)
  {
    var t := Step(setup, s, a);
    if t != s { MovedTo(s, t, a.w, t.places[a.w]); }
  }

  lemma ReaderHolds(reader: Reader)
    ensures Holds(Found(reader)) == Registers(Found(reader)) == LeadOf(reader) && !Found(reader).Waiting?
    ensures Holds(NotFound(reader)) == Registers(NotFound(reader)) == LeadOf(reader) && !NotFound(reader).Waiting?
  {
  }

  lemma LeavingHolds(lead: Option<Channel>)
    ensures Holds(Leaving(lead)) == lead && Registers(Leaving(lead)) == lead && !Leaving(lead).Waiting?
  {
  }

  /** A query may move on while it holds the same channel in the same way. */
  lemma MoveSafe(setup: Setup, s: State, t: State, mover: Worker)
    requires Safe(setup, s) && Moved(s, t, mover)
    ensures Safe(setup, t)
  {
    forall w | w in t.places ensures Holding(setup, t, w) { assert Holding(setup, s, w); }
    forall q | q in t.lock ensures Led(setup, t, q) { assert Led(setup, s, q); }
    forall ch | ch in t.maker ensures Counted(t, ch) { assert Counted(s, ch); }
  }

  lemma ArriveSafe(setup: Setup, s: State, w: Worker, made: Channel)
    requires Safe(setup, s)
    ensures Safe(setup, Step(setup, s, Arrive(w, made)))
  {
    var t := Step(setup, s, Arrive(w, made));
    if t != s {
      var q := setup.queries[w].question;
      if q in s.lock {
        assert Led(setup, s, q);
        MoveSafe(setup, s, t, w);
      } else {
        RegisterSafe(setup, s, t, w, made);
      }
    }
  }

  /** A query whose question nobody leads puts a new channel under it. */
  predicate Registered(setup: Setup, s: State, t: State, w: Worker, made: Channel) {
    && w in s.places && s.places[w].Arriving? && made !in s.maker
    && w in setup.queries && setup.queries[w].question !in s.lock
    && t.lock == s.lock[setup.queries[w].question := made] && t.maker == s.maker[made := w]
    && t.closes == s.closes[made := 0] && t.places == s.places[w := Loading(Exchanging(Some(made)))]
  }

  lemma RegisterSafe(setup: Setup, s: State, t: State, w: Worker, made: Channel)
    requires Safe(setup, s) && Registered(setup, s, t, w, made)
    ensures Safe(setup, t)
  {
    forall v | v in t.places ensures Holding(setup, t, v) { RegisteredHolding(setup, s, t, w, made, v); }
    forall q | q in t.lock ensures Led(setup, t, q) { RegisteredLed(setup, s, t, w, made, q); }
    forall ch | ch in t.maker ensures Counted(t, ch) { RegisteredCounted(setup, s, t, w, made, ch); }
  }

  lemma RegisteredHolding(setup: Setup, s: State, t: State, w: Worker, made: Channel, v: Worker)
    requires Safe(setup, s) && Registered(setup, s, t, w, made) && v in t.places
    ensures v in setup.queries && Holding(setup, t, v)
  {
    assert Holding(setup, s, v) && Holding(setup, s, w);
  }

  lemma RegisteredLed(setup: Setup, s: State, t: State, w: Worker, made: Channel, q: Question)
    requires Safe(setup, s) && Registered(setup, s, t, w, made) && q in t.lock
    ensures Led(setup, t, q)
  {
    assert Holding(setup, s, w) && (q in s.lock ==> Led(setup, s, q));
  }

  lemma RegisteredCounted(setup: Setup, s: State, t: State, w: Worker, made: Channel, ch: Channel)
    requires Safe(setup, s) && Registered(setup, s, t, w, made) && ch in t.maker
    ensures Counted(t, ch)
  {
    assert Holding(setup, s, w) && (ch in s.maker ==> Counted(s, ch));
  }

  lemma UnregisterSafe(setup: Setup, s: State, w: Worker)
    requires Safe(setup, s)
    ensures Safe(setup, Step(setup, s, Unregister(w)))
  {
    var t := Step(setup, s, Unregister(w));
    if t != s { UnregisteredSafe(setup, s, t, w, s.places[w].own); }
  }

  predicate Unregistered(setup: Setup, s: State, t: State, w: Worker, own: Channel) {
    && w in setup.queries && w in s.places && s.places[w] == Unregistering(own)
    && t.lock == s.lock - {setup.queries[w].question} && t.maker == s.maker && t.closes == s.closes
    && t.places == s.places[w := Releasing(own)]
  }

  lemma UnregisteredSafe(setup: Setup, s: State, t: State, w: Worker, own: Channel)
    requires Safe(setup, s) && Unregistered(setup, s, t, w, own)
    ensures Safe(setup, t)
  {
    forall v | v in t.places ensures Holding(setup, t, v) { UnregisteredHolding(setup, s, t, w, own, v); }
    forall q | q in t.lock ensures Led(setup, t, q) { UnregisteredLed(setup, s, t, w, own, q); }
    forall ch | ch in t.maker ensures Counted(t, ch) { UnregisteredCounted(setup, s, t, w, own, ch); }
  }

  lemma UnregisteredHolding(setup: Setup, s: State, t: State, w: Worker, own: Channel, v: Worker)
    requires Safe(setup, s) && Unregistered(setup, s, t, w, own) && v in t.places
    ensures v in setup.queries && Holding(setup, t, v)
  {
    assert Holding(setup, s, v) && Holding(setup, s, w);
  }

  lemma UnregisteredLed(setup: Setup, s: State, t: State, w: Worker, own: Channel, q: Question)
    requires Safe(setup, s) && Unregistered(setup, s, t, w, own) && q in t.lock
    ensures Led(setup, t, q)
  {
    assert Holding(setup, s, w) && (q in s.lock ==> Led(setup, s, q));
  }

  lemma UnregisteredCounted(setup: Setup, s: State, t: State, w: Worker, own: Channel, ch: Channel)
    requires Safe(setup, s) && Unregistered(setup, s, t, w, own) && ch in t.maker
    ensures Counted(t, ch)
  {
    assert Holding(setup, s, w) && (ch in s.maker ==> Counted(s, ch));
  }

  lemma ReleaseSafe(setup: Setup, s: State, w: Worker)
    requires Safe(setup, s)
    ensures Safe(setup, Step(setup, s, Release(w)))
  {
    var t := Step(setup, s, Release(w));
    if t != s { ReleasedSafe(setup, s, t, w, s.places[w].own); }
  }

  predicate Released(setup: Setup, s: State, t: State, w: Worker, own: Channel) {
    && w in setup.queries && w in s.places && s.places[w] == Releasing(own) && own in s.closes
    && t.lock == s.lock && t.maker == s.maker && t.closes == s.closes[own := s.closes[own] + 1]
    && t.places == s.places[w := Done]
  }

  lemma ReleasedSafe(setup: Setup, s: State, t: State, w: Worker, own: Channel)
    requires Safe(setup, s) && Released(setup, s, t, w, own)
    ensures Safe(setup, t)
  {
    forall v | v in t.places ensures Holding(setup, t, v) { ReleasedHolding(setup, s, t, w, own, v); }
    forall q | q in t.lock ensures Led(setup, t, q) { ReleasedLed(setup, s, t, w, own, q); }
    forall ch | ch in t.maker ensures Counted(t, ch) { ReleasedCounted(setup, s, t, w, own, ch); }
  }

  lemma ReleasedHolding(setup: Setup, s: State, t: State, w: Worker, own: Channel, v: Worker)
    requires Safe(setup, s) && Released(setup, s, t, w, own) && v in t.places
    ensures v in setup.queries && Holding(setup, t, v)
  {
    assert Holding(setup, s, v) && Holding(setup, s, w);
  }

  lemma ReleasedLed(setup: Setup, s: State, t: State, w: Worker, own: Channel, q: Question)
    requires Safe(setup, s) && Released(setup, s, t, w, own) && q in t.lock
    ensures Led(setup, t, q)
  {
    assert Holding(setup, s, w) && (q in s.lock ==> Led(setup, s, q));
  }

  lemma ReleasedCounted(setup: Setup, s: State, t: State, w: Worker, own: Channel, ch: Channel)
    requires Safe(setup, s) && Released(setup, s, t, w, own) && ch in t.maker
    ensures Counted(t, ch)
  {
    assert Holding(setup, s, w) && (ch in s.maker ==> Counted(s, ch));
  }

  /** Every state any number of concurrent queries can reach is safe. */
  lemma {:induction false} RunsSafe(setup: Setup, run: seq<Action>)
    ensures Safe(setup, After(setup, Start(setup), run))
  {
    if |run| > 0 {
      RunsSafe(setup, run[..|run| - 1]);
      StepSafe(setup, After(setup, Start(setup), run[..|run| - 1]), run[|run| - 1]);
    }
  }

  // ---- What that gives ----

  /** At most one query is registered per question. */
  lemma OneLeader(setup: Setup, run: seq<Action>, v: Worker, w: Worker)
    requires var s := After(setup, Start(setup), run);
      && v in s.places && w in s.places && v in setup.queries && w in setup.queries
      && setup.queries[v].question == setup.queries[w].question
      && Registers(s.places[v]).Some? && Registers(s.places[w]).Some?
    ensures v == w
  {
    RunsSafe(setup, run);
    var s := After(setup, Start(setup), run);
    assert Holding(setup, s, v) && Holding(setup, s, w);
  }

  /** The entry a leader takes off is its own, and nothing else is taken off. */
  lemma OwnEntry(setup: Setup, run: seq<Action>, w: Worker)
    requires var s := After(setup, Start(setup), run);
      w in setup.queries && w in s.places && s.places[w].Unregistering?
    ensures var s := After(setup, Start(setup), run);
      var q := setup.queries[w].question;
      && q in s.lock && s.lock[q] == s.places[w].own && s.lock[q] in s.maker && s.maker[s.lock[q]] == w
      && Step(setup, s, Unregister(w)).lock == s.lock - {q}
  {
    RunsSafe(setup, run);
    assert Holding(setup, After(setup, Start(setup), run), w);
  }

  /** A channel is closed by its maker alone, never twice, and once its maker is done it has been closed. */
  lemma ClosedOnce(setup: Setup, run: seq<Action>, ch: Channel, a: Action)
    requires ch in After(setup, Start(setup), run).maker
    ensures var s := After(setup, Start(setup), run);
      var t := Step(setup, s, a);
      && ch in s.closes && ch in t.closes && t.closes[ch] <= 1
      && (t.closes[ch] != s.closes[ch] ==> a == Release(s.maker[ch]) && s.closes[ch] == 0)
      && (s.maker[ch] in s.places && s.places[s.maker[ch]].Done? ==> s.closes[ch] == 1)
  {
    RunsSafe(setup, run);
    var s := After(setup, Start(setup), run);
    assert Counted(s, ch);
    if a.Release? { ReleaseCloses(setup, s, a.w, ch); } else { OnlyReleaseCloses(setup, s, a, ch); }
  }

  lemma ReleaseCloses(setup: Setup, s: State, w: Worker, ch: Channel)
    requires Safe(setup, s) && ch in s.maker && ch in s.closes
    ensures var t := Step(setup, s, Release(w));
      && ch in t.closes && (t.closes[ch] != s.closes[ch] ==> w == s.maker[ch] && s.closes[ch] == 0 && t.closes[ch] == 1)
  {
    if w in s.places { assert Holding(setup, s, w); }
  }

  lemma OnlyReleaseCloses(setup: Setup, s: State, a: Action, ch: Channel)
    requires !a.Release? && ch in s.closes && ch in s.maker
    ensures var t := Step(setup, s, a); ch in t.maker && ch in t.closes && t.closes[ch] == s.closes[ch]
  {
  }

  /** No wake-up is lost: a waiter's channel is closed, or its maker is a query that still has to close it. */
  lemma WaiterReleased(setup: Setup, run: seq<Action>, w: Worker)
    requires var s := After(setup, Start(setup), run); w in s.places && s.places[w].Waiting?
    ensures var s := After(setup, Start(setup), run);
      var ch := s.places[w].ch;
      && ch in s.closes && ch in s.maker && s.maker[ch] in s.places
      && (s.closes[ch] == 1 || Holds(s.places[s.maker[ch]]) == Some(ch))
  {
    RunsSafe(setup, run);
    var s := After(setup, Start(setup), run);
    assert Holding(setup, s, w) && Counted(s, s.places[w].ch);
  }

  // ---- Waiters wait ----

  /** A waiter stays where it is unless it gives up or its channel is closed; then its leader has taken the question
      off and is done. Once it is closed the waiter can go on, and not before. */
  lemma WaiterWaits(setup: Setup, run: seq<Action>, a: Action, w: Worker)
    requires var s := After(setup, Start(setup), run); w in s.places && s.places[w].Waiting?
    ensures var s := After(setup, Start(setup), run);
      var t, ch := Step(setup, s, a), s.places[w].ch;
      && ch in s.closes && ch in s.maker && s.maker[ch] in s.places && w in t.places
      && (t.places[w] == s.places[w] || a == GiveUp(w) || (a == Wake(w) && s.closes[ch] == 1))
      && (s.closes[ch] == 1 ==>
            s.places[s.maker[ch]] == Done && forall q :: q in s.lock ==> s.lock[q] != ch)
    ensures var s := After(setup, Start(setup), run);
      var t := Step(setup, s, Wake(w));
      if s.closes[s.places[w].ch] == 1 then t.places[w] == Loading(Exchanging(None)) else t == s
  {
    RunsSafe(setup, run);
    var s := After(setup, Start(setup), run);
    assert Holding(setup, s, w) && Counted(s, s.places[w].ch);
    forall q | q in s.lock && s.lock[q] == s.places[w].ch ensures s.closes[s.places[w].ch] == 0 {
      assert Led(setup, s, q);
    }
    StaysWaiting(setup, s, a, w);
  }

  lemma StaysWaiting(setup: Setup, s: State, a: Action, w: Worker)
    requires w in s.places && s.places[w].Waiting?
    ensures var t := Step(setup, s, a);
      w in t.places && (t.places[w] == s.places[w] || a == GiveUp(w) || a == Wake(w))
  {
  }

  /** The query has waited and goes on by itself. */
  predicate Following(p: Place) {
    || (p.Loading? && p.reader == Exchanging(None))
    || (p.Looked? && p.reader == Exchanging(None))
    || (p.Dropping? && p.reader == Exchanging(None))
    || (p.Missed? && p.lead.None?)
    || (p.Asking? && p.lead.None?)
  }

  /** The channel was made for the query's own question. */
  predicate SameQuestion(setup: Setup, s: State, w: Worker, ch: Channel) {
    && w in setup.queries && ch in s.maker && s.maker[ch] in setup.queries
    && setup.queries[s.maker[ch]].question == setup.queries[w].question
  }

  /** A query for the same question made the channel, has closed it, and is done. */
  predicate Freed(setup: Setup, s: State, w: Worker, ch: Channel) {
    && SameQuestion(setup, s, w, ch) && ch in s.closes && s.closes[ch] == 1
    && s.maker[ch] in s.places && s.places[s.maker[ch]] == Done
  }

  ghost predicate InTurn(setup: Setup, s: State, w: Worker)
    requires w in s.places
  {
    && (s.places[w].Waiting? ==> SameQuestion(setup, s, w, s.places[w].ch))
    && (Following(s.places[w]) ==> exists ch :: Freed(setup, s, w, ch))
  }

  lemma FreedStays(setup: Setup, s: State, a: Action, w: Worker, ch: Channel)
    requires Safe(setup, s) && Freed(setup, s, w, ch)
    ensures Freed(setup, Step(setup, s, a), w, ch)
  {
    if a.Release? { ReleaseCloses(setup, s, a.w, ch); } else { OnlyReleaseCloses(setup, s, a, ch); }
    MakersStay(setup, s, a, ch);
    DoneStays(setup, s, a, s.maker[ch]);
  }

  lemma MakersStay(setup: Setup, s: State, a: Action, ch: Channel)
    requires ch in s.maker
    ensures ch in Step(setup, s, a).maker && Step(setup, s, a).maker[ch] == s.maker[ch]
  {
  }

  lemma DoneStays(setup: Setup, s: State, a: Action, w: Worker)
    requires w in s.places && s.places[w].Done?
    ensures w in Step(setup, s, a).places && Step(setup, s, a).places[w].Done?
  {
  }

  lemma StepInTurn(setup: Setup, s: State, a: Action, w: Worker)
    requires Safe(setup, s) && w in s.places && InTurn(setup, s, w)
    ensures w in Step(setup, s, a).places && InTurn(setup, Step(setup, s, a), w)
  {
    var t := Step(setup, s, a);
    GoesOn(setup, s, a, w);
    if Following(t.places[w]) {
      if Following(s.places[w]) {
        var ch :| Freed(setup, s, w, ch);
        FreedStays(setup, s, a, w, ch);
      } else {
        assert Holding(setup, s, w) && Counted(s, s.places[w].ch);
        assert Freed(setup, s, w, s.places[w].ch);
        FreedStays(setup, s, a, w, s.places[w].ch);
      }
    } else if t.places[w].Waiting? {
      StartsWaiting(setup, s, a, w);
      if s.places[w].Waiting? { MakersStay(setup, s, a, s.places[w].ch); } else { JoinsLeader(setup, s, a, w); }
    }
  }

  /** A query comes to follow only from a wait for a channel that has been closed. */
  lemma GoesOn(setup: Setup, s: State, a: Action, w: Worker)
    requires w in s.places
    ensures w in Step(setup, s, a).places
    ensures Following(Step(setup, s, a).places[w]) && !Following(s.places[w]) ==>
      s.places[w].Waiting? && s.places[w].ch in s.closes && s.closes[s.places[w].ch] > 0
  {
    if Reads(a) { ReaderStays(setup, s, a, w); } else { OthersFollow(setup, s, a, w); }
  }

  lemma OthersFollow(setup: Setup, s: State, a: Action, w: Worker)
    requires w in s.places && !Reads(a)
    ensures w in Step(setup, s, a).places
    ensures Following(Step(setup, s, a).places[w]) && !Following(s.places[w]) ==>
      s.places[w].Waiting? && s.places[w].ch in s.closes && s.closes[s.places[w].ch] > 0
  {
  }

  lemma StartsWaiting(setup: Setup, s: State, a: Action, w: Worker)
    requires w in s.places
    ensures var t := Step(setup, s, a);
      w in t.places && (t.places[w].Waiting? && t.places[w] != s.places[w] ==> s.places[w].Arriving?)
  {
  }

  lemma JoinsLeader(setup: Setup, s: State, a: Action, w: Worker)
    requires Safe(setup, s) && w in s.places && s.places[w].Arriving?
    requires w in Step(setup, s, a).places && Step(setup, s, a).places[w].Waiting?
    ensures SameQuestion(setup, Step(setup, s, a), w, Step(setup, s, a).places[w].ch)
  {
    WaitsAtLeader(setup, s, a, w);
    assert Led(setup, s, setup.queries[w].question);
  }

  lemma WaitsAtLeader(setup: Setup, s: State, a: Action, w: Worker)
    requires w in s.places && s.places[w].Arriving?
    requires w in Step(setup, s, a).places && Step(setup, s, a).places[w].Waiting?
    ensures w in setup.queries && setup.queries[w].question in s.lock
    ensures Step(setup, s, a).places[w].ch == s.lock[setup.queries[w].question]
    ensures Step(setup, s, a).maker == s.maker
  {
  }

  /** On every run a query that did not lead reads the cache in an exchange, or calls the transport, only after a
      query for the same question has taken it off, closed its channel, and is done. */
  lemma {:induction false} FollowersInTurn(setup: Setup, run: seq<Action>, w: Worker)
    requires w in setup.queries
    ensures var s := After(setup, Start(setup), run); w in s.places && InTurn(setup, s, w)
  {
    if |run| > 0 {
      var front := run[..|run| - 1];
      FollowersInTurn(setup, front, w);
      RunsSafe(setup, front);
      StepInTurn(setup, After(setup, Start(setup), front), run[|run| - 1], w);
    }
  }

  // ---- How long an answer stays ----

  /** No entry is evicted, and no later answer for the key expires before `until`. */
  predicate Undisturbed(setup: Setup, key: Key, until: int, run: seq<Action>) {
    forall k :: 0 <= k < |run| ==> Spares(setup, key, until, run[k])
  }

  predicate Spares(setup: Setup, key: Key, until: int, a: Action) {
    && a != Evict(key)
    && (Stores(setup, key, a) ==> Live(a.expires, until))
  }

  /** An answer for the key comes and is kept. */
  predicate Stores(setup: Setup, key: Key, a: Action) {
    a.Return? && a.store && a.w in setup.queries && setup.KeyFor(a.w) == key
  }

  /** A query has looked the key up and has not yet left its entry alone, or removed it. */
  predicate InBetween(setup: Setup, s: State, key: Key, w: Worker) {
    w in setup.queries && setup.KeyFor(w) == key && w in s.places && (s.places[w].Looked? || s.places[w].Dropping?)
  }

  /** The action removes the key's entry: a query that found an expired one there does so, late or not. */
  predicate Removes(setup: Setup, s: State, key: Key, a: Action) {
    a.Drop? && a.w in setup.queries && setup.KeyFor(a.w) == key && a.w in s.places && s.places[a.w].Dropping?
  }

  /** The action removes it for a query that was in between in `s0`. */
  predicate RemovesLate(setup: Setup, s0: State, s: State, key: Key, a: Action) {
    Removes(setup, s, key, a) && InBetween(setup, s0, key, a.w)
  }

  /** The entry is there or live, and only a query in between in `s0` can be about to remove it. */
  predicate Kept(setup: Setup, s0: State, s: State, key: Key, until: int) {
    && (key in s.cache ==> Live(s.cache[key], until))
    && forall w :: w in setup.queries && w in s.places && setup.KeyFor(w) == key ==>
         Harmless(s.places[w], until) || InBetween(setup, s0, key, w)
  }

  predicate Harmless(p: Place, until: int) {
    !p.Dropping? && (p.Looked? ==> Live(p.expires, until))
  }

  lemma StepKept(setup: Setup, s0: State, s: State, key: Key, until: int, a: Action)
    requires Kept(setup, s0, s, key, until) && Spares(setup, key, until, a) && s.now <= until
    ensures Kept(setup, s0, Step(setup, s, a), key, until)
  {
    var t := Step(setup, s, a);
    forall w | w in setup.queries && w in t.places && setup.KeyFor(w) == key
      ensures Harmless(t.places[w], until) || InBetween(setup, s0, key, w)
    {
      PlaceKept(setup, s0, s, key, until, a, w);
    }
    CacheKept(setup, s, key, until, a);
  }

  lemma CacheKept(setup: Setup, s: State, key: Key, until: int, a: Action)
    requires (key in s.cache ==> Live(s.cache[key], until)) && Spares(setup, key, until, a)
    ensures key in Step(setup, s, a).cache ==> Live(Step(setup, s, a).cache[key], until)
  {
  }

  lemma PlaceKept(setup: Setup, s0: State, s: State, key: Key, until: int, a: Action, w: Worker)
    requires Kept(setup, s0, s, key, until) && s.now <= until
    requires w in setup.queries && w in Step(setup, s, a).places && setup.KeyFor(w) == key
    ensures Harmless(Step(setup, s, a).places[w], until) || InBetween(setup, s0, key, w)
  {
    StepPlaces(setup, s, a, w);
    assert w in s.places;
  }

  /** The place one query has after a step. */
  lemma StepPlaces(setup: Setup, s: State, a: Action, w: Worker)
    ensures var t := Step(setup, s, a);
      && (w in t.places ==> w in s.places)
      && (w in t.places && t.places[w] != s.places[w] ==>
            && (t.places[w].Looked? ==>
                  w in setup.queries && setup.KeyFor(w) in s.cache && t.places[w].expires == s.cache[setup.KeyFor(w)])
            && (t.places[w].Dropping? ==> s.places[w].Looked? && !Live(s.places[w].expires, s.now)))
  {
  }

  lemma {:induction false} RunKept(setup: Setup, s: State, run: seq<Action>, key: Key, until: int)
    requires key in s.cache && Live(s.cache[key], until) && Undisturbed(setup, key, until, run)
    requires After(setup, s, run).now <= until
    ensures Kept(setup, s, After(setup, s, run), key, until)
  {
    if |run| > 0 {
      var front, a := run[..|run| - 1], run[|run| - 1];
      UndisturbedFront(setup, key, until, run);
      ClockOn(setup, After(setup, s, front), a);
      RunKept(setup, s, front, key, until);
      StepKept(setup, s, After(setup, s, front), key, until, a);
    } else {
      forall w | w in setup.queries && w in s.places && setup.KeyFor(w) == key
        ensures Harmless(s.places[w], until) || InBetween(setup, s, key, w)
      {
      }
    }
  }

  lemma ClockOn(setup: Setup, s: State, a: Action)
    ensures s.now <= Step(setup, s, a).now
  {
  }

  /** Since `s` the last action that removed or stored the entry, if any, stored it. */
  predicate Remains(setup: Setup, s: State, key: Key, run: seq<Action>) {
    |run| > 0 ==>
      var front, a := run[..|run| - 1], run[|run| - 1];
      if RemovesLate(setup, s, After(setup, s, front), key, a) then false
      else Comes(setup, After(setup, s, front), key, a) || Remains(setup, s, key, front)
  }

  /** The action puts an answer into the cache. */
  predicate Comes(setup: Setup, s: State, key: Key, a: Action) {
    Stores(setup, key, a) && a.w in s.places && s.places[a.w].Asking?
  }

  /** An answer live until then, not evicted and not replaced by a shorter-lived one, is there at the end of a run
      exactly unless a query that was between its look and its removal when the run began has removed it since,
      with no other answer stored after that; and whatever is there is live until then. */
  lemma {:induction false} AnswerThere(setup: Setup, s: State, run: seq<Action>, key: Key, until: int)
    requires key in s.cache && Live(s.cache[key], until) && Undisturbed(setup, key, until, run)
    requires After(setup, s, run).now <= until
    ensures var t := After(setup, s, run);
      && (key in t.cache <==> Remains(setup, s, key, run))
      && (key in t.cache ==> Live(t.cache[key], until))
  {
    RunKept(setup, s, run, key, until);
    if |run| > 0 {
      var front, a := run[..|run| - 1], run[|run| - 1];
      UndisturbedFront(setup, key, until, run);
      ClockOn(setup, After(setup, s, front), a);
      AnswerThere(setup, s, front, key, until);
      RunKept(setup, s, front, key, until);
      StepThere(setup, s, After(setup, s, front), key, until, a);
    }
  }

  lemma StepThere(setup: Setup, s0: State, s: State, key: Key, until: int, a: Action)
    requires Kept(setup, s0, s, key, until) && a != Evict(key)
    ensures key in Step(setup, s, a).cache <==>
      !RemovesLate(setup, s0, s, key, a) && (Comes(setup, s, key, a) || key in s.cache)
  {
    if Removes(setup, s, key, a) { assert !Harmless(s.places[a.w], until); }
  }

  /** The entry is there at every point of the run. */
  predicate Throughout(setup: Setup, s: State, key: Key, run: seq<Action>) {
    key in After(setup, s, run).cache && (|run| > 0 ==> Throughout(setup, s, key, run[..|run| - 1]))
  }

  /** No action of the run removes it for a query that was in between in `s`. */
  predicate NoneLate(setup: Setup, s: State, key: Key, run: seq<Action>) {
    |run| > 0 ==>
      && NoneLate(setup, s, key, run[..|run| - 1])
      && !RemovesLate(setup, s, After(setup, s, run[..|run| - 1]), key, run[|run| - 1])
  }

  /** An answer live until then stays until then, with no eviction and no shorter-lived answer, if and only if no
      query that was between its look and its removal for the key when the run began removes it in the run. */
  lemma {:induction false} AnswerStays(setup: Setup, s: State, run: seq<Action>, key: Key, until: int)
    requires key in s.cache && Live(s.cache[key], until) && Undisturbed(setup, key, until, run)
    requires After(setup, s, run).now <= until
    ensures Throughout(setup, s, key, run) <==> NoneLate(setup, s, key, run)
  {
    if |run| > 0 {
      var front, a := run[..|run| - 1], run[|run| - 1];
      UndisturbedFront(setup, key, until, run);
      ClockOn(setup, After(setup, s, front), a);
      AnswerStays(setup, s, front, key, until);
      ThroughoutThere(setup, s, key, front);
      if key in After(setup, s, front).cache { StaysAtLast(setup, s, run, key, until); }
    }
  }

  lemma ThroughoutThere(setup: Setup, s: State, key: Key, run: seq<Action>)
    ensures Throughout(setup, s, key, run) ==> key in After(setup, s, run).cache
  {
  }

  lemma UndisturbedFront(setup: Setup, key: Key, until: int, run: seq<Action>)
    requires Undisturbed(setup, key, until, run) && |run| > 0
    ensures Undisturbed(setup, key, until, run[..|run| - 1]) && Spares(setup, key, until, run[|run| - 1])
  {
    var front := run[..|run| - 1];
    forall k | 0 <= k < |front| ensures Spares(setup, key, until, front[k]) {
      assert front[k] == run[k];
    }
  }

  lemma StaysAtLast(setup: Setup, s: State, run: seq<Action>, key: Key, until: int)
    requires key in s.cache && Live(s.cache[key], until) && Undisturbed(setup, key, until, run)
    requires |run| > 0 && After(setup, s, run).now <= until && key in After(setup, s, run[..|run| - 1]).cache
    ensures key in After(setup, s, run).cache
       <==> !RemovesLate(setup, s, After(setup, s, run[..|run| - 1]), key, run[|run| - 1])
  {
    var front, a := run[..|run| - 1], run[|run| - 1];
    UndisturbedFront(setup, key, until, run);
    ClockOn(setup, After(setup, s, front), a);
    RunKept(setup, s, front, key, until);
    StepThere(setup, s, After(setup, s, front), key, until, a);
  }

  // ---- What a query finds ----

  /** An answer one query keeps is what another finds exactly if they ask the same question and, with a cache per
      transport, over the same transport; any other finds what it would have found without. */
  lemma KeptFor(setup: Setup, s: State, v: Worker, w: Worker, expires: Option<int>)
    requires v in setup.queries && v in s.places && s.places[v].Asking?
    requires w in setup.queries && w in s.places && s.places[w].Loading?
    ensures var a, b := setup.queries[v], setup.queries[w];
      var found := Step(setup, Step(setup, s, Return(v, true, expires)), Load(w)).places;
      w in found && w in Step(setup, s, Load(w)).places
      && found[w] ==
           if a.question == b.question && (setup.independent ==> a.transport == b.transport) then
             Looked(s.places[w].reader, expires)
           else Step(setup, s, Load(w)).places[w]
  {
    SameKey(setup, v, w);
    Keeps(setup, s, v, w, expires);
    LoadFinds(setup, s, w);
    LoadFinds(setup, Step(setup, s, Return(v, true, expires)), w);
  }

  lemma SameKey(setup: Setup, v: Worker, w: Worker)
    requires v in setup.queries && w in setup.queries
    ensures var a, b := setup.queries[v], setup.queries[w];
      setup.KeyFor(v) == setup.KeyFor(w) <==>
        a.question == b.question && (setup.independent ==> a.transport == b.transport)
  {
  }

  lemma Keeps(setup: Setup, s: State, v: Worker, w: Worker, expires: Option<int>)
    requires v in setup.queries && v in s.places && s.places[v].Asking? && w in s.places && w != v
    ensures var t := Step(setup, s, Return(v, true, expires));
      t.cache == s.cache[setup.KeyFor(v) := expires] && w in t.places && t.places[w] == s.places[w]
  {
  }

  lemma LoadFinds(setup: Setup, s: State, w: Worker)
    requires w in setup.queries && w in s.places && s.places[w].Loading?
    ensures var t, key := Step(setup, s, Load(w)), setup.KeyFor(w);
      w in t.places && t.places[w] ==
        if key in s.cache then Looked(s.places[w].reader, s.cache[key]) else NotFound(s.places[w].reader)
  {
  }

  /** A query that has seen an answer is done with it, without having called the transport, exactly if the answer never
      expires or the clock has not passed its time; a leader still has its question to take off. Otherwise it removes
      the entry, and a lookup goes on to an exchange, an exchange to the transport. */
  lemma Judged(setup: Setup, run: seq<Action>, w: Worker)
    requires var s := After(setup, Start(setup), run); w in setup.queries && w in s.places && s.places[w].Looked?
    ensures var s := After(setup, Start(setup), run);
      var t, p := Step(setup, s, Judge(w)), s.places[w];
      && w in t.places && w !in t.asked && t.cache == s.cache
      && if p.expires.None? || s.now <= p.expires.value then
           t.places[w] == match p.reader
             case Peeking => Done
             case Exchanging(None) => Done
             case Exchanging(Some(ch)) => Unregistering(ch)
         else
           && t.places[w] == Dropping(p.reader)
           && var u := Step(setup, t, Drop(w));
              && u.cache == t.cache - {setup.KeyFor(w)} && w in u.places && w !in u.asked
              && u.places[w] == match p.reader
                   case Peeking => Arriving
                   case Exchanging(lead) => Missed(lead)
  {
    AskedOnlyThen(setup, run, w);
  }

  /** A query that is refused is done without having called the transport, with its question to take off if it leads. */
  lemma Refused(setup: Setup, s: State, w: Worker)
    requires w in s.places && s.places[w].Missed?
    ensures var t := Step(setup, s, Refuse(w));
      && t.asked == s.asked && t.cache == s.cache && w in t.places
      && t.places[w] == match s.places[w].lead
           case None => Done
           case Some(ch) => Unregistering(ch)
  {
  }

  /** A query that has missed calls the transport by asking it, and no query does in another way. */
  lemma AskedByAsking(setup: Setup, s: State, a: Action, w: Worker)
    ensures w in Step(setup, s, a).asked <==>
      w in s.asked || (a == Ask(w) && w in s.places && s.places[w].Missed?)
  {
  }

  /** A lookup reads the cache by itself before it exchanges, and nothing else does. */
  lemma {:induction false} LookupsPeek(setup: Setup, run: seq<Action>, w: Worker)
    requires w in setup.queries
    ensures var s := After(setup, Start(setup), run);
      && w in s.places
      && (setup.queries[w].lookup ==> s.places[w] == Calling || Peek(w) in run)
      && (!setup.queries[w].lookup ==> !Peeks(s.places[w]))
  {
    if |run| > 0 {
      var front, a := run[..|run| - 1], run[|run| - 1];
      LookupsPeek(setup, front, w);
      assert run == front + [a];
      PeekStep(setup, After(setup, Start(setup), front), a, w);
    }
  }

  predicate Peeks(p: Place) {
    || p.Calling?
    || (p.Loading? && p.reader.Peeking?)
    || (p.Looked? && p.reader.Peeking?)
    || (p.Dropping? && p.reader.Peeking?)
  }

  lemma PeekStep(setup: Setup, s: State, a: Action, w: Worker)
    requires w in s.places
    ensures var t := Step(setup, s, a);
      && w in t.places
      && (s.places[w] == Calling ==> t.places[w] == Calling || a == Peek(w))
      && (!Peeks(s.places[w]) ==> !Peeks(t.places[w]))
  {
    if Reads(a) { ReaderStays(setup, s, a, w); } else { OthersPeek(setup, s, a, w); }
  }

  /** A step of reading the cache. */
  predicate Reads(a: Action) {
    a.Load? || a.Judge? || a.Drop?
  }

  /** Whoever reads the cache goes on as the reader it is, or is through. */
  lemma ReaderStays(setup: Setup, s: State, a: Action, w: Worker)
    requires w in s.places && Reads(a)
    ensures var p, t := s.places[w], Step(setup, s, a);
      && w in t.places
      && (t.places[w] == p
          || (p.Loading? && t.places[w] == NotFound(p.reader))
          || (p.Loading? && t.places[w].Looked? && t.places[w].reader == p.reader)
          || (p.Looked? && (t.places[w] == Found(p.reader) || t.places[w] == Dropping(p.reader)))
          || (p.Dropping? && t.places[w] == NotFound(p.reader)))
  {
  }

  lemma OthersPeek(setup: Setup, s: State, a: Action, w: Worker)
    requires w in s.places && !Reads(a)
    ensures var t := Step(setup, s, a);
      && w in t.places
      && (s.places[w] == Calling ==> t.places[w] == Calling || a == Peek(w))
      && (!Peeks(s.places[w]) ==> !Peeks(t.places[w]))
  {
  }

  // ---- A released waiter and the answer ----

  lemma {:induction false} AfterConcat(setup: Setup, s: State, a: seq<Action>, b: seq<Action>)
    ensures After(setup, s, a + b) == After(setup, After(setup, s, a), b)
  {
    if |b| == 0 {
      assert a + b == a;
    } else {
      assert (a + b)[..|a + b| - 1] == a + b[..|b| - 1];
      AfterConcat(setup, s, a, b[..|b| - 1]);
    }
  }

  predicate Past(p: Place) {
    p.Asking? || p.Unregistering? || p.Releasing? || p.Done?
  }

  lemma StepAsked(setup: Setup, s: State, a: Action, w: Worker)
    requires w in s.asked ==> w in s.places && Past(s.places[w])
    ensures var t := Step(setup, s, a); w in t.asked ==> w in t.places && Past(t.places[w])
  {
  }

  /** A query that has called the transport is past looking in the cache. */
  lemma {:induction false} AskedOnlyThen(setup: Setup, run: seq<Action>, w: Worker)
    ensures var s := After(setup, Start(setup), run);
      w in s.asked ==> w in s.places && Past(s.places[w])
  {
    if |run| > 0 {
      AskedOnlyThen(setup, run[..|run| - 1], w);
      StepAsked(setup, After(setup, Start(setup), run[..|run| - 1]), run[|run| - 1], w);
    }
  }

  /** What a waiter that looks finds: the answer if it is still there, and then, judged before it expires, it is done
      without having called the transport; otherwise it has missed. */
  lemma WaiterAnswers(setup: Setup, before: seq<Action>, between: seq<Action>, later: seq<Action>, w: Worker,
                      until: int)
    requires w in setup.queries
    requires var s := After(setup, Start(setup), before);
      var t := After(setup, s, between);
      && setup.KeyFor(w) in s.cache && Live(s.cache[setup.KeyFor(w)], until)
      && Undisturbed(setup, setup.KeyFor(w), until, between)
      && t.now <= until && w in t.places && t.places[w] == Loading(Exchanging(None))
    ensures var s := After(setup, Start(setup), before);
      var looked := Step(setup, After(setup, s, between), Load(w));
      var u := After(setup, looked, later);
      if Remains(setup, s, setup.KeyFor(w), between) then
        && w in looked.places && looked.places[w].Looked?
        && (w in u.places && u.places[w].Looked? && u.now <= until ==>
              Step(setup, u, Judge(w)).places[w] == Done && w !in Step(setup, u, Judge(w)).asked)
      else w in looked.places && looked.places[w] == Missed(None)
  {
    var key, s := setup.KeyFor(w), After(setup, Start(setup), before);
    var t := After(setup, s, between);
    AnswerThere(setup, s, between, key, until);
    AfterConcat(setup, Start(setup), before, between);
    AfterPush(setup, Start(setup), before + between, Load(w));
    Looks(setup, t, w);
    if Remains(setup, s, key, between) { LookAnswers(setup, before + between + [Load(w)], later, w, until); }
  }

  lemma Looks(setup: Setup, s: State, w: Worker)
    requires w in setup.queries && w in s.places && s.places[w] == Loading(Exchanging(None))
    ensures var t := Step(setup, s, Load(w));
      && w in t.places
      && t.places[w] ==
           if setup.KeyFor(w) in s.cache then Looked(Exchanging(None), s.cache[setup.KeyFor(w)]) else Missed(None)
  {
  }

  /** A waiter that has seen an answer live until then, and judges it before then, has answered from it. */
  lemma LookAnswers(setup: Setup, before: seq<Action>, later: seq<Action>, w: Worker, until: int)
    requires var s := After(setup, Start(setup), before);
      w in s.places && s.places[w].Looked? && s.places[w].reader == Exchanging(None) && Live(s.places[w].expires, until)
    ensures var u := After(setup, After(setup, Start(setup), before), later);
      w in u.places && u.places[w].Looked? && u.now <= until ==>
        Step(setup, u, Judge(w)).places[w] == Done && w !in Step(setup, u, Judge(w)).asked
  {
    LookKept(setup, After(setup, Start(setup), before), later, w);
    AfterConcat(setup, Start(setup), before, later);
    AskedOnlyThen(setup, before + later, w);
  }

  lemma AfterPush(setup: Setup, s: State, run: seq<Action>, a: Action)
    ensures After(setup, s, run + [a]) == Step(setup, After(setup, s, run), a)
  {
    assert (run + [a])[..|run|] == run;
  }

  /** An exchange looks once: until it judges, what it saw stays, and it never looks again. */
  lemma {:induction false} LookKept(setup: Setup, s: State, run: seq<Action>, w: Worker)
    requires w in s.places && s.places[w].Looked? && s.places[w].reader.Exchanging?
    ensures var t := After(setup, s, run);
      w in t.places && (t.places[w] == s.places[w] || PastLook(t.places[w]))
  {
    if |run| > 0 {
      LookKept(setup, s, run[..|run| - 1], w);
      StepPastLook(setup, After(setup, s, run[..|run| - 1]), run[|run| - 1], w);
    }
  }

  predicate PastLook(p: Place) {
    (p.Dropping? && p.reader.Exchanging?) || p.Missed? || Past(p)
  }

  lemma StepPastLook(setup: Setup, s: State, a: Action, w: Worker)
    requires w in s.places && (PastLook(s.places[w]) || (s.places[w].Looked? && s.places[w].reader.Exchanging?))
    ensures var t := Step(setup, s, a);
      w in t.places && (PastLook(t.places[w]) || t.places[w] == s.places[w])
  {
  }
}
