/** What a client shows of a connection once it is closed, and how fast it shows an open one moving. */
module ClosedConnections {
  import opened ConnectionAgreement
  import opened Connections
  import opened Wrappers

  // ---- One closing ----

  /** The entry stands still, with these counters and this closing time. */
  predicate Rests(e: Entry, up: int, down: int, closedAt: int) {
    e.up == up && e.down == down && e.upRate == 0 && e.downRate == 0 && e.closedAt == closedAt
  }

  /** It has the record's own counters, and the first of these times that is set: the one told, the record's, now. */
  predicate RestsAs(e: Entry, g: Gone, told: Option<int>, now: int) {
    Rests(e, g.usage.up, g.usage.down,
          if told.Some? then told.value else if g.closedAt.Some? then g.closedAt.value else now)
  }

  /** The last record of the connection that the manager remembers. */
  predicate LastRecord(closed: seq<Gone>, id: Id, k: int) {
    0 <= k < |closed| && closed[k].id == id && forall j :: k < j < |closed| ==> closed[j].id != id
  }

  ghost predicate Remembered(closed: seq<Gone>, id: Id) {
    exists k :: LastRecord(closed, id, k)
  }

  lemma {:induction false} IndexIsLast(closed: seq<Gone>, id: Id)
    ensures id in Index(closed) <==> Remembered(closed, id)
    ensures forall k :: LastRecord(closed, id, k) ==> id in Index(closed) && Index(closed)[id] == closed[k]
  {
    if |closed| > 0 {
      var n := |closed| - 1;
      var front := closed[..n];
      IndexIsLast(front, id);
      if closed[n].id == id {
        assert LastRecord(closed, id, n);
      } else {
        forall k ensures LastRecord(closed, id, k) <==> LastRecord(front, id, k) { LastInFront(closed, id, k); }
        assert Remembered(closed, id) <==> Remembered(front, id);
      }
    }
  }

  lemma LastInFront(closed: seq<Gone>, id: Id, k: int)
    requires |closed| > 0 && closed[|closed| - 1].id != id
    ensures LastRecord(closed, id, k) <==> LastRecord(closed[..|closed| - 1], id, k)
  {
    var front := closed[..|closed| - 1];
    if LastRecord(front, id, k) {
      forall j | k < j < |closed| ensures closed[j].id != id { assert j < |front| ==> front[j].id != id; }
    }
  }

  /** What a client that showed `e` shows once it hears the connection closed, of which the manager has `g` or nothing:
      the record, or what it showed, if anything. */
  predicate ShownClosed(e: Option<Entry>, e': Option<Entry>, g: Option<Gone>, told: Option<int>, now: int) {
    match g
    case Some(record) => e'.Some? && RestsAs(e'.value, record, told, now)
    case None =>
      if e.None? then e'.None?
      else e'.Some? && Rests(e'.value, e.value.up, e.value.down, if told.Some? then told.value else now)
  }

  /** After a notice of its closing, for every client. */
  lemma EndedShows(s: Snapshots, client: Client, id: Id, told: Option<int>, g: Option<Gone>, now: int)
    ensures var n := Ended(id, told, g);
      ShownClosed(Lookup(client, id), Lookup(Fold(client, Told(s, n, now)), id), g, told, now)
  {
    FoldById(client, Told(s, Ended(id, told, g), now), id);
    HeardTold(s, Lookup(client, id), Ended(id, told, g), now, id);
  }

  /** The record a tick finds, if the manager remembers the connection. */
  ghost predicate Finds(closed: seq<Gone>, id: Id, g: Option<Gone>) {
    match g
    case Some(record) => exists k :: LastRecord(closed, id, k) && closed[k] == record
    case None => !Remembered(closed, id)
  }

  lemma FindsIndexed(closed: seq<Gone>, id: Id, g: Option<Gone>)
    requires Finds(closed, id, g)
    ensures g == Lookup(Index(closed), id)
  {
    IndexIsLast(closed, id);
  }

  lemma FindsSome(closed: seq<Gone>, id: Id)
    ensures Finds(closed, id, Lookup(Index(closed), id))
  {
    IndexIsLast(closed, id);
    if id in Index(closed) {
      var k :| LastRecord(closed, id, k);
    }
  }

  /** After a tick that closes it, for every client. */
  lemma TickShows(s: Snapshots, client: Client, active: map<Id, Usage>, closed: seq<Gone>, now: int,
                  events: seq<Message>, id: Id, g: Option<Gone>)
    requires forall i :: About(events, i) == Due(s, active, Index(closed), now, i)
    requires id in s && id !in active && Finds(closed, id, g)
    ensures ShownClosed(Lookup(client, id), Lookup(Fold(client, events), id), g, None, now)
  {
    FoldById(client, events, id);
    HeardGoodbye(s, Lookup(client, id), active, closed, now, id, g);
  }

  lemma HeardGoodbye(s: Snapshots, e: Option<Entry>, active: map<Id, Usage>, closed: seq<Gone>, now: int, id: Id,
                     g: Option<Gone>)
    requires id in s && id !in active && Finds(closed, id, g)
    ensures ShownClosed(e, HeardAll(e, Due(s, active, Index(closed), now, id)), g, None, now)
  {
    FindsIndexed(closed, id, g);
    HeardOne(e, Goodbye(Index(closed), now, id));
  }

  /** And after the first batch, of a remembered connection: the record, its unset time as 1 January of the year 1. */
  lemma FirstShows(active: map<Id, Usage>, closed: seq<Gone>, events: seq<Message>, id: Id, k: int)
    requires About(events, id) == Greetings(active, id) + About(History(closed), id) && LastRecord(closed, id, k)
    ensures var e, g := Lookup(Fold(map[], events), id), closed[k];
      && e.Some?
      && Rests(e.value, g.usage.up, g.usage.down,
               if g.closedAt.Some? then g.closedAt.value
               else 0 - (1969 * 365 + 1969 / 4 - 1969 / 100 + 1969 / 400) * 24 * 60 * 60 * 1000)
  {
    FoldById(map[], events, id);
    IndexIsLast(closed, id);
    HeardConcat(None, Greetings(active, id), About(History(closed), id));
    HistoryHeard(closed, HeardAll(None, Greetings(active, id)), id);
  }

  // ---- Runs ----

  /** The step closes the connection, and `e` is what the client then shows. */
  ghost predicate ClosesAs(w: World, step: Step, id: Id, e: Entry) {
    match step
    case Hear(Ended(i, told, g), now) => i == id && ShownClosed(Lookup(w.client, id), Some(e), g, told, now)
    case Tick(active, closed, now) =>
      && id in w.snapshots && id !in active
      && exists g :: Finds(closed, id, g) && ShownClosed(Lookup(w.client, id), Some(e), g, None, now)
    case _ => false
  }

  /** The client has shown `e` since the last closing of the run, or since its start if there was none. */
  ghost predicate ClosedWith(w: World, steps: seq<Step>, id: Id, e: Entry) {
    && Lookup(After(w, steps).client, id) == Some(e)
    && (|steps| > 0 ==>
          var front, last := steps[..|steps| - 1], steps[|steps| - 1];
          ClosesAs(After(w, front), last, id, e) || ClosedWith(w, front, id, e))
  }

  /** On every steady run a connection shown closed is shown as its last closing in the run said, or as at the start if
      there was none. */
  lemma {:induction false} ClosedStays(w: World, steps: seq<Step>, id: Id)
    requires AgreesIn(w, id) && Steady(w, steps)
    ensures AgreesIn(After(w, steps), id)
    ensures var e := Lookup(After(w, steps).client, id);
      e.Some? && e.value.closedAt != 0 ==> ClosedWith(w, steps, id, e.value)
  {
    if |steps| > 0 {
      var front, last := steps[..|steps| - 1], steps[|steps| - 1];
      ClosedStays(w, front, id);
      StepMoves(After(w, front), last, id);
      StepCloses(After(w, front), last, id);
    }
  }

  /** A connection shown closed after a step was closed by it, or shown so before. */
  lemma StepCloses(w: World, step: Step, id: Id)
    requires AgreesIn(w, id)
    ensures var e, e' := Lookup(w.client, id), Lookup(Next(w, step).client, id);
      e'.Some? && e'.value.closedAt != 0 ==> ClosesAs(w, step, id, e'.value) || e' == e
  {
    match step
    case Hear(n, now) =>
      FoldById(w.client, Told(w.snapshots, n, now), id);
      HeardTold(w.snapshots, Lookup(w.client, id), n, now, id);
      if n.Ended? && n.id == id { EndedShows(w.snapshots, w.client, id, n.at, n.final, now); }
    case Tick(active, closed, now) =>
      TickClientAt(w, active, Index(closed), now, id);
      TickCloses(w, active, closed, now, id);
    case Tidy(now) =>
  }

  lemma TickCloses(w: World, active: map<Id, Usage>, closed: seq<Gone>, now: int, id: Id)
    requires AgreesIn(w, id)
    ensures var e := Lookup(w.client, id);
      var e' := HeardAll(e, Due(w.snapshots, active, Index(closed), now, id));
      e'.Some? && e'.value.closedAt != 0 ==> ClosesAs(w, Tick(active, closed, now), id, e'.value) || e' == e
  {
    var e, due := Lookup(w.client, id), Due(w.snapshots, active, Index(closed), now, id);
    if id in w.snapshots && id !in active {
      FindsSome(closed, id);
      HeardGoodbye(w.snapshots, e, active, closed, now, id, Lookup(Index(closed), id));
    } else if due != [] {
      HeardOne(e, due[0]);
      assert due == [due[0]];
    }
  }

  /** An entry leaves the client's view only when it is tidied, closed for more than five minutes. */
  lemma LeavesView(w: World, step: Step, id: Id)
    requires id in w.client
    ensures id !in Next(w, step).client <==>
      step.Tidy? && w.client[id].closedAt != 0 && step.now > w.client[id].closedAt + 5 * 60 * 1000
  {
    match step
    case Hear(n, now) =>
      FoldById(w.client, Told(w.snapshots, n, now), id);
      HeardTold(w.snapshots, Lookup(w.client, id), n, now, id);
    case Tick(active, closed, now) =>
      TickClientAt(w, active, Index(closed), now, id);
      StaysShown(w.client[id], Due(w.snapshots, active, Index(closed), now, id));
    case Tidy(now) =>
  }

  lemma {:induction false} StaysShown(e: Entry, ms: seq<Message>)
    ensures HeardAll(Some(e), ms).Some?
  {
    if |ms| > 0 { StaysShown(e, ms[..|ms| - 1]); }
  }

  // ---- Rates ----

  /** After a tick a client in agreement shows each active connection's rates as what its counters gained since the last
      reading, and none for a new one. */
  lemma TickRates(w: World, active: map<Id, Usage>, closed: seq<Gone>, now: int, id: Id)
    requires AgreesIn(w, id) && RatedAt(Lookup(w.snapshots, id), Lookup(w.client, id))
    requires id in active && StepOkAt(w, Tick(active, closed, now), id)
    ensures var e := Lookup(Next(w, Tick(active, closed, now)).client, id);
      && e.Some?
      && if id in w.client && w.client[id].closedAt == 0 then
           && e.value.upRate == active[id].up - w.client[id].up
           && e.value.downRate == active[id].down - w.client[id].down
         else e.value.upRate == 0 == e.value.downRate
  {
    var e, due := Lookup(w.client, id), Due(w.snapshots, active, Index(closed), now, id);
    TickClientAt(w, active, Index(closed), now, id);
    if due != [] {
      HeardOne(e, due[0]);
      assert due == [due[0]];
    }
  }
}
