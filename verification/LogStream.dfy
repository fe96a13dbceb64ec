/** The log stream: what waits is sent in one batch, with everything before the last reset left out. */
module LogStream {
  import opened Wrappers

  datatype Entry = Entry(level: int, message: string)

  /** A line, or the mark that the log was cleared. */
  datatype Item = Line(entry: Entry) | Reset

  datatype Batch = Batch(reset: bool, messages: seq<Entry>)

  // ---- A client ----

  function Heard(log: seq<Entry>, item: Item): seq<Entry> {
    match item
    case Line(e) => log + [e]
    case Reset => []
  }

  function HeardAll(log: seq<Entry>, items: seq<Item>): seq<Entry> {
    if |items| == 0 then log else Heard(HeardAll(log, items[..|items| - 1]), items[|items| - 1])
  }

  function Received(log: seq<Entry>, b: Batch): seq<Entry> {
    (if b.reset then [] else log) + b.messages
  }

  function ReceivedAll(log: seq<Entry>, bs: seq<Batch>): seq<Entry> {
    if |bs| == 0 then log else Received(ReceivedAll(log, bs[..|bs| - 1]), bs[|bs| - 1])
  }

  // ---- Batches ----

  /** The lines after the last reset. */
  function Tail(items: seq<Item>): seq<Entry> {
    if |items| == 0 then []
    else
      match items[|items| - 1]
      case Line(e) => Tail(items[..|items| - 1]) + [e]
      case Reset => []
  }

  function Coalesced(items: seq<Item>): Batch {
    Batch(Reset in items, Tail(items))
  }

  /** What is waiting, the first item taken by itself and the rest drained. */
  method Collect(items: seq<Item>) returns (b: Batch)
    requires |items| > 0
    ensures b == Coalesced(items)
  {
    b := Batch(false, []);
    if items[0].Reset? { b := b.(reset := true); } else { b := b.(messages := b.messages + [items[0].entry]); }
    var k := 1;
    CoalescedPush([], items[0]);
    assert items[..1] == [] + [items[0]];
    while k < |items|
      invariant 1 <= k <= |items| && b == Coalesced(items[..k])
    {
      CoalescedPush(items[..k], items[k]);
      assert items[..k + 1] == items[..k] + [items[k]];
      if items[k].Reset? {
        b := Batch(true, []);
      } else {
        b := b.(messages := b.messages + [items[k].entry]);
      }
      k := k + 1;
    }
    assert items[..k] == items;
  }

  lemma CoalescedPush(items: seq<Item>, item: Item)
    ensures Coalesced(items + [item]) ==
      if item.Reset? then Batch(true, []) else Coalesced(items).(messages := Coalesced(items).messages + [item.entry])
  {
    assert (items + [item])[..|items|] == items;
  }

  /** One batch does to any log what its items do one at a time. */
  lemma {:induction false} BatchMeans(log: seq<Entry>, items: seq<Item>)
    ensures Received(log, Coalesced(items)) == HeardAll(log, items)
  {
    if |items| == 0 {
      assert log + [] == log;
    } else {
      var front, last := items[..|items| - 1], items[|items| - 1];
      BatchMeans(log, front);
      CoalescedPush(front, last);
      assert front + [last] == items;
      if last.Line? {
        var start := if Reset in front then [] else log;
        assert start + (Tail(front) + [last.entry]) == start + Tail(front) + [last.entry];
      }
    }
  }

  lemma {:induction false} HeardConcat(log: seq<Entry>, a: seq<Item>, b: seq<Item>)
    ensures HeardAll(log, a + b) == HeardAll(HeardAll(log, a), b)
  {
    if |b| == 0 {
      assert a + b == a;
    } else {
      assert (a + b)[..|a + b| - 1] == a + b[..|b| - 1];
      HeardConcat(log, a, b[..|b| - 1]);
    }
  }

  function Joined(cuts: seq<seq<Item>>): seq<Item> {
    if |cuts| == 0 then [] else Joined(cuts[..|cuts| - 1]) + cuts[|cuts| - 1]
  }

  function Batches(cuts: seq<seq<Item>>): (bs: seq<Batch>)
    ensures |bs| == |cuts| && forall k :: 0 <= k < |cuts| ==> bs[k] == Coalesced(cuts[k])
  {
    seq(|cuts|, k requires 0 <= k < |cuts| => Coalesced(cuts[k]))
  }

  /** However the stream is cut into batches, the client's log is what the items give one at a time. */
  lemma {:induction false} AnyCutting(log: seq<Entry>, cuts: seq<seq<Item>>)
    ensures ReceivedAll(log, Batches(cuts)) == HeardAll(log, Joined(cuts))
  {
    if |cuts| > 0 {
      var front, last := cuts[..|cuts| - 1], cuts[|cuts| - 1];
      assert Batches(cuts)[..|cuts| - 1] == Batches(front);
      AnyCutting(log, front);
      BatchMeans(HeardAll(log, Joined(front)), last);
      HeardConcat(log, Joined(front), last);
    }
  }

  // ---- The server's own log ----

  /** The lines the server keeps: at most so many, the oldest dropped. */
  class Log {
    var lines: seq<Entry>
    const maxLines: nat

    constructor (maxLines: nat)
      ensures lines == [] && this.maxLines == maxLines
    {
      lines := [];
      this.maxLines := maxLines;
    }

    method Write(e: Entry) returns (emitted: Item)
      requires |lines| <= maxLines
      modifies this
      ensures lines == Kept(maxLines, old(lines), Line(e)) && |lines| <= maxLines && emitted == Line(e)
    {
      lines := lines + [e];
      if |lines| > maxLines { lines := lines[1..]; }
      emitted := Line(e);
    }
  }

  function Kept(maxLines: nat, lines: seq<Entry>, item: Item): seq<Entry> {
    match item
    case Line(e) => if |lines| + 1 > maxLines then (lines + [e])[1..] else lines + [e]
    case Reset => []
  }

  function KeptAll(maxLines: nat, lines: seq<Entry>, items: seq<Item>): seq<Entry> {
    if |items| == 0 then lines else Kept(maxLines, KeptAll(maxLines, lines, items[..|items| - 1]), items[|items| - 1])
  }

  function Last(n: nat, log: seq<Entry>): seq<Entry> {
    if |log| <= n then log else log[|log| - n..]
  }

  /** The server's lines are the last ones of a log that hears every item kept, in the order kept. */
  lemma {:induction false} KeptIsLast(maxLines: nat, lines: seq<Entry>, items: seq<Item>)
    requires |lines| <= maxLines
    ensures |KeptAll(maxLines, lines, items)| <= maxLines
    ensures KeptAll(maxLines, lines, items) == Last(maxLines, HeardAll(lines, items))
  {
    if |items| > 0 {
      var front := items[..|items| - 1];
      KeptIsLast(maxLines, lines, front);
      var server, client := KeptAll(maxLines, lines, front), HeardAll(lines, front);
      if items[|items| - 1].Line? {
        LastPush(maxLines, client, items[|items| - 1].entry);
      }
    }
  }

  lemma LastPush(n: nat, log: seq<Entry>, e: Entry)
    ensures Last(n, log + [e]) == if |Last(n, log)| + 1 > n then (Last(n, log) + [e])[1..] else Last(n, log) + [e]
  {
    var all := log + [e];
    if |log| >= n {
      var d := |log| - n;
      assert all[d..] == log[d..] + [e];
      assert all[d..][1..] == all[d + 1..];
    } else {
      assert Last(n, all) == all;
    }
  }

  // ---- Writers, the emitter's queue and one client ----

  /** What one client shows, and the items that wait for it. */
  datatype Client = Client(log: seq<Entry>, channel: seq<Item>)

  /** The server's lines; for each writer that has given the lock back, the item it still has to send; the items
      sent that have not reached the subscribers; and the client, once it has subscribed. */
  datatype State = State(lines: seq<Entry>, flying: map<nat, Item>, buffer: seq<Item>, client: Option<Client>)

  datatype Event =
    | Keep(writer: nat, item: Item)
    | Send(writer: nat, item: Item)
    | Pass
    | Subscribe
    | Fetch(count: nat)

  const EMPTY := State([], map[], [], None)

  predicate Enabled(s: State, e: Event) {
    match e
    case Keep(w, _) => w !in s.flying
    case Send(w, item) => w in s.flying && s.flying[w] == item
    case Pass => s.buffer != []
    case Subscribe => s.client.None?
    case Fetch(n) => s.client.Some? && 0 < n <= |s.client.value.channel|
  }

  /** Keeping an item and sending it are two steps: the lock is given back between them. Subscribing copies the
      lines under the lock, and the first message shows them; a fetch sends what waits as one batch. */
  function Step(maxLines: nat, s: State, e: Event): State
    requires Enabled(s, e)
  {
    match e
    case Keep(w, item) => s.(lines := Kept(maxLines, s.lines, item), flying := s.flying[w := item])
    case Send(w, item) => s.(flying := s.flying - {w}, buffer := s.buffer + [item])
    case Pass => s.(buffer := s.buffer[1..], client := Delivered(s.client, s.buffer[0]))
    case Subscribe => s.(client := Some(Client(Received([], Batch(true, s.lines)), [])))
    case Fetch(n) => s.(client := Some(Fetched(s.client.value, n)))
  }

  function Delivered(client: Option<Client>, item: Item): Option<Client> {
    match client
    case None => None
    case Some(c) => Some(c.(channel := c.channel + [item]))
  }

  function Fetched(c: Client, n: nat): Client
    requires n <= |c.channel|
  {
    Client(Received(c.log, Coalesced(c.channel[..n])), c.channel[n..])
  }

  /** The state after a run, none if an event was not possible. */
  function Run(maxLines: nat, s: State, events: seq<Event>): Option<State> {
    if |events| == 0 then Some(s)
    else
      var before, e := Run(maxLines, s, events[..|events| - 1]), events[|events| - 1];
      if before.Some? && Enabled(before.value, e) then Some(Step(maxLines, before.value, e)) else None
  }

  /** The items kept in a run, in order. */
  function KeptIn(events: seq<Event>): seq<Item> {
    if |events| == 0 then []
    else
      var e := events[|events| - 1];
      KeptIn(events[..|events| - 1]) + if e.Keep? then [e.item] else []
  }

  /** The items sent in a run, in order. */
  function SentIn(events: seq<Event>): seq<Item> {
    if |events| == 0 then []
    else
      var e := events[|events| - 1];
      SentIn(events[..|events| - 1]) + if e.Send? then [e.item] else []
  }

  /** What is still to come to the client. */
  function ToCome(s: State): seq<Item>
    requires s.client.Some?
  {
    s.client.value.channel + s.buffer
  }

  /** Nothing is on its way. */
  predicate Quiet(s: State) {
    s.flying == map[] && s.buffer == [] && s.client.Some? && s.client.value.channel == []
  }

  /** On every run the lines are those kept in order, whatever is sent and when. */
  lemma {:induction false} ServerKeeps(maxLines: nat, s: State, events: seq<Event>)
    requires Run(maxLines, s, events).Some?
    ensures Run(maxLines, s, events).value.lines == KeptAll(maxLines, s.lines, KeptIn(events))
  {
    if |events| > 0 {
      var front := events[..|events| - 1];
      ServerKeeps(maxLines, s, front);
      var e := events[|events| - 1];
      if e.Keep? {
        assert KeptIn(events)[..|KeptIn(events)| - 1] == KeptIn(front);
      } else {
        assert KeptIn(events) == KeptIn(front);
      }
    }
  }

  lemma FetchHears(c: Client, n: nat, rest: seq<Item>)
    requires n <= |c.channel|
    ensures HeardAll(Fetched(c, n).log, Fetched(c, n).channel + rest) == HeardAll(c.log, c.channel + rest)
  {
    BatchMeans(c.log, c.channel[..n]);
    HeardConcat(c.log, c.channel[..n], c.channel[n..] + rest);
    assert c.channel[..n] + (c.channel[n..] + rest) == c.channel + rest;
  }

  /** A subscribed client's log, once it hears what is still to come, is what it would be if it heard at once what
      was to come at the start and everything sent since, however the stream is cut into batches. */
  lemma {:induction false} ClientHears(maxLines: nat, s: State, events: seq<Event>)
    requires s.client.Some? && Run(maxLines, s, events).Some?
    ensures var t := Run(maxLines, s, events).value;
      t.client.Some?
      && HeardAll(t.client.value.log, ToCome(t)) == HeardAll(s.client.value.log, ToCome(s) + SentIn(events))
  {
    if |events| == 0 {
      assert ToCome(s) + [] == ToCome(s);
    } else {
      var front, e := events[..|events| - 1], events[|events| - 1];
      ClientHears(maxLines, s, front);
      var before := Run(maxLines, s, front).value;
      StepHears(maxLines, before, e);
      SentNext(s.client.value.log, ToCome(s), SentIn(front), e);
      assert SentIn(events) == SentIn(front) + if e.Send? then [e.item] else [];
    }
  }

  lemma SentNext(log: seq<Entry>, waiting: seq<Item>, sent: seq<Item>, e: Event)
    ensures HeardAll(log, waiting + (sent + if e.Send? then [e.item] else []))
         == if e.Send? then HeardAll(HeardAll(log, waiting + sent), [e.item]) else HeardAll(log, waiting + sent)
  {
    if e.Send? {
      HeardConcat(log, waiting + sent, [e.item]);
      assert waiting + (sent + [e.item]) == waiting + sent + [e.item];
    } else {
      assert sent + [] == sent;
    }
  }

  lemma StepHears(maxLines: nat, s: State, e: Event)
    requires s.client.Some? && Enabled(s, e)
    ensures var t := Step(maxLines, s, e);
      var now := HeardAll(s.client.value.log, ToCome(s));
      t.client.Some?
      && HeardAll(t.client.value.log, ToCome(t)) == if e.Send? then HeardAll(now, [e.item]) else now
  {
    var t := Step(maxLines, s, e);
    match e
    case Send(w, item) =>
      assert ToCome(t) == ToCome(s) + [item];
      HeardConcat(s.client.value.log, ToCome(s), [item]);
    case Fetch(n) => FetchHears(s.client.value, n, s.buffer);
    case Pass => assert ToCome(t) == ToCome(s);
    case Keep(_, _) => assert ToCome(t) == ToCome(s);
  }

  /** The last lines of a log that started from `saved` and heard `items`: those after the last reset, if any. */
  function Shown(maxLines: nat, saved: seq<Entry>, items: seq<Item>): seq<Entry> {
    Last(maxLines, if Reset in items then Tail(items) else saved + Tail(items))
  }

  lemma ShownIsHeard(maxLines: nat, saved: seq<Entry>, items: seq<Item>)
    ensures Shown(maxLines, saved, items) == Last(maxLines, HeardAll(saved, items))
  {
    BatchMeans(saved, items);
    assert [] + Tail(items) == Tail(items);
  }

  lemma {:induction false} LinesBounded(maxLines: nat, events: seq<Event>)
    requires Run(maxLines, EMPTY, events).Some?
    ensures |Run(maxLines, EMPTY, events).value.lines| <= maxLines
  {
    ServerKeeps(maxLines, EMPTY, events);
    KeptIsLast(maxLines, [], KeptIn(events));
  }

  /** A client that subscribes after `before` and is left with nothing on its way after `after` shows the server's
      lines as the last ones of its own exactly when the last lines kept since the last clearing are those sent
      since the last reset. Sent counts what was on its way when the client subscribed. */
  lemma ClientEndsWithServer(maxLines: nat, before: seq<Event>, after: seq<Event>)
    requires Run(maxLines, EMPTY, before).Some? && Enabled(Run(maxLines, EMPTY, before).value, Subscribe)
    requires var t := Step(maxLines, Run(maxLines, EMPTY, before).value, Subscribe);
      Run(maxLines, t, after).Some? && Quiet(Run(maxLines, t, after).value)
    ensures var s := Run(maxLines, EMPTY, before).value;
      var end := Run(maxLines, Step(maxLines, s, Subscribe), after).value;
      end.lines == Last(maxLines, end.client.value.log)
      <==> Shown(maxLines, s.lines, KeptIn(after)) == Shown(maxLines, s.lines, s.buffer + SentIn(after))
  {
    var s := Run(maxLines, EMPTY, before).value;
    LinesBounded(maxLines, before);
    Ends(maxLines, s, after);
    KeptIsLast(maxLines, s.lines, KeptIn(after));
    ShownIsHeard(maxLines, s.lines, KeptIn(after));
    ShownIsHeard(maxLines, s.lines, s.buffer + SentIn(after));
  }

  /** Both logs at the end, from the two histories. */
  lemma Ends(maxLines: nat, s: State, after: seq<Event>)
    requires s.client.None?
    requires var t := Step(maxLines, s, Subscribe);
      Run(maxLines, t, after).Some? && Quiet(Run(maxLines, t, after).value)
    ensures var end := Run(maxLines, Step(maxLines, s, Subscribe), after).value;
      && end.lines == KeptAll(maxLines, s.lines, KeptIn(after))
      && end.client.value.log == HeardAll(s.lines, s.buffer + SentIn(after))
  {
    var t := Step(maxLines, s, Subscribe);
    assert t.client.value.log == s.lines && ToCome(t) == s.buffer;
    ServerKeeps(maxLines, t, after);
    ClientHears(maxLines, t, after);
    assert ToCome(Run(maxLines, t, after).value) == [];
  }

  // ---- In the order kept ----

  /** With nothing in flight at subscription, and items sent in the order they were kept, it does. */
  lemma InOrder(maxLines: nat, before: seq<Event>, after: seq<Event>)
    requires Run(maxLines, EMPTY, before).Some? && Run(maxLines, EMPTY, before).value.client.None?
    requires Run(maxLines, EMPTY, before).value.buffer == [] && SentIn(after) == KeptIn(after)
    requires var t := Step(maxLines, Run(maxLines, EMPTY, before).value, Subscribe);
      Run(maxLines, t, after).Some? && Quiet(Run(maxLines, t, after).value)
    ensures var end := Run(maxLines, Step(maxLines, Run(maxLines, EMPTY, before).value, Subscribe), after).value;
      end.lines == Last(maxLines, end.client.value.log)
  {
    assert [] + SentIn(after) == SentIn(after);
    ClientEndsWithServer(maxLines, before, after);
  }

  /** Every item kept is sent once: what was in flight and what is kept is what is sent and what is in flight. */
  lemma {:induction false} SentOnce(maxLines: nat, s: State, events: seq<Event>)
    requires Run(maxLines, s, events).Some?
    ensures |SentIn(events)| + |Run(maxLines, s, events).value.flying| == |s.flying| + |KeptIn(events)|
  {
    if |events| > 0 {
      var front, e := events[..|events| - 1], events[|events| - 1];
      SentOnce(maxLines, s, front);
      var flying := Run(maxLines, s, front).value.flying;
      match e
      case Keep(w, item) => Grown(flying, w, item);
      case Send(w, item) =>
        Grown(flying - {w}, w, item);
        assert (flying - {w})[w := item] == flying;
      case _ =>
    }
  }

  lemma Grown(m: map<nat, Item>, w: nat, item: Item)
    requires w !in m
    ensures |m[w := item]| == |m| + 1
  {
    assert m[w := item].Keys == m.Keys + {w};
    assert |m[w := item].Keys| == |m| + 1;
  }

  /** A clearing has been kept and is still to be sent. */
  predicate ClearingInFlight(s: State) {
    exists w :: w in s.flying && s.flying[w].Reset?
  }

  /** A clearing in flight or kept is sent or stays in flight. */
  lemma {:induction false} ClearingComes(maxLines: nat, s: State, events: seq<Event>)
    requires Run(maxLines, s, events).Some? && (Reset in KeptIn(events) || ClearingInFlight(s))
    ensures Reset in SentIn(events) || ClearingInFlight(Run(maxLines, s, events).value)
  {
    if |events| > 0 {
      var front, e := events[..|events| - 1], events[|events| - 1];
      var before := Run(maxLines, s, front).value;
      if Reset in KeptIn(front) || ClearingInFlight(s) {
        ClearingComes(maxLines, s, front);
        if Reset !in SentIn(front) {
          var w :| w in before.flying && before.flying[w].Reset?;
          assert w in Step(maxLines, before, e).flying || e == Send(w, Reset);
        }
      } else {
        assert e.Keep? && e.writer in Step(maxLines, before, e).flying;
      }
    }
  }

  /** What has been sent has been passed on, in order, or is in the queue. */
  lemma {:induction false} QueueIsSent(maxLines: nat, events: seq<Event>) returns (passed: seq<Item>)
    requires Run(maxLines, EMPTY, events).Some?
    ensures SentIn(events) == passed + Run(maxLines, EMPTY, events).value.buffer
  {
    if |events| == 0 { return []; }
    var front, e := events[..|events| - 1], events[|events| - 1];
    passed := QueueIsSent(maxLines, front);
    var before := Run(maxLines, EMPTY, front).value;
    if e.Send? {
      assert passed + (before.buffer + [e.item]) == passed + before.buffer + [e.item];
    } else if e.Pass? {
      assert passed + before.buffer == passed + [before.buffer[0]] + before.buffer[1..];
      passed := passed + [before.buffer[0]];
    }
  }

  lemma TailPush(items: seq<Item>, last: Item)
    ensures Tail(items + [last]) == if last.Reset? then [] else Tail(items) + [last.entry]
  {
    assert (items + [last])[..|items|] == items;
  }

  lemma {:induction false} TailConcat(a: seq<Item>, b: seq<Item>)
    ensures Tail(a + b) == if Reset in b then Tail(b) else Tail(a) + Tail(b)
  {
    if |b| == 0 {
      assert a + b == a;
    } else {
      var front, last := b[..|b| - 1], b[|b| - 1];
      assert a + b == (a + front) + [last] && b == front + [last];
      TailConcat(a, front);
      TailPush(a + front, last);
      TailPush(front, last);
    }
  }

  lemma {:induction false} TailOfLines(a: seq<Item>, b: seq<Item>)
    requires Reset !in a && Reset !in b
    ensures |Tail(a)| == |a| && |Tail(b)| == |b|
    ensures Tail(a) == Tail(b) <==> a == b
  {
    if |a| > 0 {
      var front := a[..|a| - 1];
      TailOfLines(front, if |b| > 0 then b[..|b| - 1] else b);
      assert a == front + [a[|a| - 1]];
      if |b| > 0 {
        assert b == b[..|b| - 1] + [b[|b| - 1]];
        var x, y := Tail(a), Tail(b);
        assert x[..|x| - 1] == Tail(front) && y[..|y| - 1] == Tail(b[..|b| - 1]);
      }
    } else if |b| > 0 {
      TailOfLines(a, b[..|b| - 1]);
    }
  }

  /** While the limit is not reached the server's lines are those kept since the last clearing. */
  lemma LinesSince(maxLines: nat, before: seq<Event>, after: seq<Item>)
    requires Run(maxLines, EMPTY, before).Some? && |Tail(KeptIn(before) + after)| <= maxLines
    ensures KeptAll(maxLines, Run(maxLines, EMPTY, before).value.lines, after) == Tail(KeptIn(before) + after)
    ensures Reset !in after ==> Run(maxLines, EMPTY, before).value.lines == Tail(KeptIn(before))
  {
    var lines := Run(maxLines, EMPTY, before).value.lines;
    ServerKeeps(maxLines, EMPTY, before);
    KeptIsLast(maxLines, [], KeptIn(before));
    ShownIsHeard(maxLines, [], KeptIn(before));
    assert [] + Tail(KeptIn(before)) == Tail(KeptIn(before));
    assert lines == Last(maxLines, Tail(KeptIn(before)));
    KeptIsLast(maxLines, lines, after);
    ShownIsHeard(maxLines, lines, after);
    TailConcat(KeptIn(before), after);
  }

  /** What a client that starts from `lines` shows once it has heard what was in the queue and sent since. */
  lemma HeardSince(maxLines: nat, before: seq<Event>, sent: seq<Item>)
    requires Run(maxLines, EMPTY, before).Some?
    ensures var s := Run(maxLines, EMPTY, before).value;
      HeardAll(s.lines, s.buffer + sent) ==
        if Reset in s.buffer + sent then Tail(SentIn(before) + sent) else s.lines + Tail(s.buffer + sent)
  {
    var s := Run(maxLines, EMPTY, before).value;
    var passed := QueueIsSent(maxLines, before);
    assert SentIn(before) + sent == passed + (s.buffer + sent);
    HeardFrom(s.lines, passed, s.buffer + sent);
  }

  /** A clearing among the items heard leaves of them, and of all sent, the same tail. */
  lemma HeardFrom(lines: seq<Entry>, passed: seq<Item>, items: seq<Item>)
    ensures HeardAll(lines, items) == if Reset in items then Tail(passed + items) else lines + Tail(items)
  {
    BatchMeans(lines, items);
    TailConcat(passed, items);
    assert [] + Tail(items) == Tail(items);
  }

  /** With nothing left on its way and the limit not reached, the client shows exactly the server's lines if and only
      if, when it has heard a clearing, the items sent after the last one are, in order, those kept after the last
      one; and, when it has heard none, nothing was on its way when it subscribed and items were sent in the order
      kept. */
  lemma ExactlyInOrder(maxLines: nat, before: seq<Event>, after: seq<Event>)
    requires Run(maxLines, EMPTY, before).Some? && Run(maxLines, EMPTY, before).value.client.None?
    requires var t := Step(maxLines, Run(maxLines, EMPTY, before).value, Subscribe);
      Run(maxLines, t, after).Some? && Quiet(Run(maxLines, t, after).value)
    requires |Tail(KeptIn(before) + KeptIn(after))| <= maxLines
    ensures var s := Run(maxLines, EMPTY, before).value;
      var end := Run(maxLines, Step(maxLines, s, Subscribe), after).value;
      end.lines == end.client.value.log
      <==>
      if Reset in s.buffer + SentIn(after) then
        Tail(SentIn(before) + SentIn(after)) == Tail(KeptIn(before) + KeptIn(after))
      else s.flying == map[] && s.buffer == [] && SentIn(after) == KeptIn(after)
  {
    var s := Run(maxLines, EMPTY, before).value;
    var kept, heard := KeptIn(after), s.buffer + SentIn(after);
    Ends(maxLines, s, after);
    LinesSince(maxLines, before, kept);
    HeardSince(maxLines, before, SentIn(after));
    if Reset !in heard {
      NoClearing(maxLines, s, after);
      TailConcat(KeptIn(before), kept);
      SameAfter(s.lines, Tail(kept), Tail(heard));
      TailOfLines(kept, heard);
      SameItems(maxLines, s, after);
    }
  }

  /** If no clearing is sent and none is left in flight, none is kept. */
  lemma NoClearing(maxLines: nat, s: State, after: seq<Event>)
    requires s.client.None? && Run(maxLines, Step(maxLines, s, Subscribe), after).Some?
    requires Quiet(Run(maxLines, Step(maxLines, s, Subscribe), after).value)
    ensures Reset in KeptIn(after) ==> Reset in SentIn(after)
  {
    var t := Step(maxLines, s, Subscribe);
    if Reset in KeptIn(after) { ClearingComes(maxLines, t, after); }
  }

  /** What was in the queue and sent since is what was kept since only if nothing was on its way. */
  lemma SameItems(maxLines: nat, s: State, after: seq<Event>)
    requires s.client.None? && Run(maxLines, Step(maxLines, s, Subscribe), after).Some?
    requires Quiet(Run(maxLines, Step(maxLines, s, Subscribe), after).value)
    ensures KeptIn(after) == s.buffer + SentIn(after)
       <==> s.flying == map[] && s.buffer == [] && SentIn(after) == KeptIn(after)
  {
    SentOnce(maxLines, Step(maxLines, s, Subscribe), after);
    if s.buffer == [] { assert s.buffer + SentIn(after) == SentIn(after); }
    if KeptIn(after) == s.buffer + SentIn(after) { NoneFlying(s.flying); }
  }

  lemma NoneFlying(m: map<nat, Item>)
    ensures |m| == 0 ==> m == map[]
  {
  }

  lemma SameAfter(s: seq<Entry>, a: seq<Entry>, b: seq<Entry>)
    ensures s + a == s + b <==> a == b
  {
    assert (s + a)[|s|..] == a && (s + b)[|s|..] == b;
  }

  /** One writer at a time: an item is kept only when none is in flight. */
  predicate Serial(maxLines: nat, s: State, events: seq<Event>) {
    |events| > 0 ==>
      var front := events[..|events| - 1];
      && Serial(maxLines, s, front)
      && (Run(maxLines, s, front).Some? && events[|events| - 1].Keep? ==>
            Run(maxLines, s, front).value.flying == map[])
  }

  /** Then items are sent in the order kept, so holding the lock until an item is sent would be enough. */
  lemma {:induction false} SerialInOrder(maxLines: nat, s: State, events: seq<Event>)
    requires Run(maxLines, s, events).Some? && s.flying == map[] && Serial(maxLines, s, events)
    ensures var t := Run(maxLines, s, events).value;
      || (t.flying == map[] && KeptIn(events) == SentIn(events))
      || (exists w :: w in t.flying && t.flying == map[w := t.flying[w]]
                      && KeptIn(events) == SentIn(events) + [t.flying[w]])
  {
    if |events| > 0 {
      var front, e := events[..|events| - 1], events[|events| - 1];
      SerialInOrder(maxLines, s, front);
      var before := Run(maxLines, s, front).value;
      var t := Step(maxLines, before, e);
      match e
      case Keep(w, item) =>
        assert KeptIn(events) == KeptIn(front) + [item] && SentIn(events) == SentIn(front);
        assert w in t.flying && t.flying == map[w := t.flying[w]];
      case Send(w, item) =>
        assert KeptIn(events) == KeptIn(front);
        assert t.flying == map[];
      case _ =>
        assert KeptIn(events) == KeptIn(front) && SentIn(events) == SentIn(front);
    }
  }

  lemma OneAtATime(maxLines: nat, before: seq<Event>, after: seq<Event>)
    requires Run(maxLines, EMPTY, before).Some? && Run(maxLines, EMPTY, before).value.client.None?
    requires Run(maxLines, EMPTY, before).value.flying == map[] && Run(maxLines, EMPTY, before).value.buffer == []
    requires var t := Step(maxLines, Run(maxLines, EMPTY, before).value, Subscribe);
      && Serial(maxLines, t, after)
      && Run(maxLines, t, after).Some? && Quiet(Run(maxLines, t, after).value)
    ensures var end := Run(maxLines, Step(maxLines, Run(maxLines, EMPTY, before).value, Subscribe), after).value;
      end.lines == Last(maxLines, end.client.value.log)
  {
    SerialInOrder(maxLines, Step(maxLines, Run(maxLines, EMPTY, before).value, Subscribe), after);
    InOrder(maxLines, before, after);
  }

  // ---- Where the two part ----

  lemma {:induction false} RunConcat(s: State, a: seq<Event>, b: seq<Event>)
    requires Run(10, s, a).Some?
    ensures Run(10, s, a + b) == Run(10, Run(10, s, a).value, b)
  {
    if |b| == 0 {
      assert a + b == a;
    } else {
      assert (a + b)[..|a + b| - 1] == a + b[..|b| - 1];
      RunConcat(s, a, b[..|b| - 1]);
    }
  }

  lemma RunOne(s: State, e: Event, t: State)
    requires Enabled(s, e) && Step(10, s, e) == t
    ensures Run(10, s, [e]) == Some(t)
  {
    assert [e][..0] == [];
  }

  lemma RunTwo(s: State, e: Event, f: Event, t: State, u: State)
    requires Enabled(s, e) && Step(10, s, e) == t && Enabled(t, f) && Step(10, t, f) == u
    ensures Run(10, s, [e, f]) == Some(u)
  {
    RunOne(s, e, t);
    RunOne(t, f, u);
    RunConcat(s, [e], [f]);
    assert [e] + [f] == [e, f];
  }

  /** Two items reach a client that shows nothing, and it fetches both. */
  lemma FetchTwo(lines: seq<Entry>, a: Item, b: Item)
    requires a.Line?
    ensures Run(10, State(lines, map[], [a, b], Some(Client([], []))), [Pass, Pass, Fetch(2)])
         == Some(State(lines, map[], [], Some(Client(if b.Line? then [a.entry, b.entry] else [], []))))
  {
    var s := State(lines, map[], [a, b], Some(Client([], [])));
    var t := State(lines, map[], [b], Some(Client([], [a])));
    var u := State(lines, map[], [], Some(Client([], [a, b])));
    assert [a, b][1..] == [b] && [b][1..] == [] && [a, b][2..] == [];
    assert [] + [a] == [a] && [a] + [b] == [a, b] && [a, b][..2] == [a, b];
    RunTwo(s, Pass, Pass, t, u);
    CoalescedPush([], a);
    CoalescedPush([a], b);
    assert Received([], Coalesced([a, b])) == if b.Line? then [a.entry, b.entry] else [];
    RunOne(u, Fetch(2), State(lines, map[], [], Some(Client(if b.Line? then [a.entry, b.entry] else [], []))));
    RunConcat(s, [Pass, Pass], [Fetch(2)]);
    assert [Pass, Pass] + [Fetch(2)] == [Pass, Pass, Fetch(2)];
  }

  /** A client subscribes, and two writers keep an item each and send them in the opposite order. */
  lemma SentInReverse(a: Item, b: Item, lines1: seq<Entry>, lines2: seq<Entry>)
    requires lines1 == Kept(10, [], a) && lines2 == Kept(10, lines1, b)
    ensures Run(10, EMPTY, [Subscribe, Keep(1, a)] + [Keep(2, b), Send(2, b)] + [Send(1, a)])
         == Some(State(lines2, map[], [b, a], Some(Client([], []))))
  {
    var c := Client([], []);
    var s2, s4 := State(lines1, map[1 := a], [], Some(c)), State(lines2, map[1 := a], [b], Some(c));
    assert Received([], Batch(true, [])) == [];
    RunTwo(EMPTY, Subscribe, Keep(1, a), State([], map[], [], Some(c)), s2);
    KeepAndSend(a, b, lines1, lines2, c);
    assert s4.flying - {1} == map[];
    RunOne(s4, Send(1, a), State(lines2, map[], [b, a], Some(c)));
    RunConcat(EMPTY, [Subscribe, Keep(1, a)], [Keep(2, b), Send(2, b)]);
    RunConcat(EMPTY, [Subscribe, Keep(1, a)] + [Keep(2, b), Send(2, b)], [Send(1, a)]);
  }

  lemma KeepAndSend(a: Item, b: Item, lines1: seq<Entry>, lines2: seq<Entry>, c: Client)
    requires lines2 == Kept(10, lines1, b)
    ensures Run(10, State(lines1, map[1 := a], [], Some(c)), [Keep(2, b), Send(2, b)])
         == Some(State(lines2, map[1 := a], [b], Some(c)))
  {
    var s2, s3 := State(lines1, map[1 := a], [], Some(c)), State(lines2, map[1 := a, 2 := b], [], Some(c));
    assert s3.flying - {2} == s2.flying;
    RunTwo(s2, Keep(2, b), Send(2, b), s3, State(lines2, map[1 := a], [b], Some(c)));
  }

  function Reversed(a: Item, b: Item): seq<Event> {
    [Subscribe, Keep(1, a)] + [Keep(2, b), Send(2, b)] + [Send(1, a)] + [Pass, Pass, Fetch(2)]
  }

  /** A client that subscribes between keeping and sending gets the line twice. */
  lemma LateEmission(e: Entry)
    ensures Run(10, EMPTY, [Keep(0, Line(e)), Subscribe] + [Send(0, Line(e)), Pass] + [Fetch(1)])
         == Some(State([e], map[], [], Some(Client([e, e], []))))
  {
    var first, second := [Keep(0, Line(e)), Subscribe], [Send(0, Line(e)), Pass];
    var s1 := State([e], map[0 := Line(e)], [], None);
    var s2 := State([e], map[0 := Line(e)], [], Some(Client([e], [])));
    assert Received([], Batch(true, [e])) == [e];
    RunTwo(EMPTY, Keep(0, Line(e)), Subscribe, s1, s2);
    var s4 := State([e], map[], [], Some(Client([e], [Line(e)])));
    assert s2.flying - {0} == map[];
    RunTwo(s2, Send(0, Line(e)), Pass, State([e], map[], [Line(e)], Some(Client([e], []))), s4);
    CoalescedPush([], Line(e));
    assert [] + [Line(e)] == [Line(e)] && [Line(e)][..1] == [Line(e)] && [Line(e)][1..] == [];
    assert Received([e], Coalesced([Line(e)])) == [e, e];
    RunOne(s4, Fetch(1), State([e], map[], [], Some(Client([e, e], []))));
    RunConcat(EMPTY, first, second);
    RunConcat(EMPTY, first + second, [Fetch(1)]);
  }

  /** A clearing sent late wipes out a line kept and sent since: the server has it, the client does not. */
  lemma LateReset(e: Entry)
    ensures Run(10, EMPTY, Reversed(Reset, Line(e))) == Some(State([e], map[], [], Some(Client([], []))))
  {
    SentInReverse(Reset, Line(e), [], [e]);
    FetchTwo([e], Line(e), Reset);
    RunConcat(EMPTY, [Subscribe, Keep(1, Reset)] + [Keep(2, Line(e)), Send(2, Line(e))] + [Send(1, Reset)],
              [Pass, Pass, Fetch(2)]);
  }

  /** Two writers may send in the opposite order to the one their lines were kept in. */
  lemma Swapped(a: Entry, b: Entry)
    ensures Run(10, EMPTY, Reversed(Line(a), Line(b))) == Some(State([a, b], map[], [], Some(Client([b, a], []))))
  {
    SentInReverse(Line(a), Line(b), [a], [a, b]);
    FetchTwo([a, b], Line(b), Line(a));
    RunConcat(EMPTY, [Subscribe, Keep(1, Line(a))] + [Keep(2, Line(b)), Send(2, Line(b))] + [Send(1, Line(a))],
              [Pass, Pass, Fetch(2)]);
  }
}
