/** The connection stream: the server keeps a snapshot of what it has told a client and sends differences. */
module Connections {
  import opened Wrappers

  type Id = nat

  /** A connection's byte counters as read. */
  datatype Usage = Usage(up: nat, down: nat)

  datatype Snapshot = Snapshot(up: nat, down: nat, hadTraffic: bool)

  /** A connection as the client shows it: totals, current rates, and the closing time, 0 while open. */
  datatype Entry = Entry(up: int, down: int, upRate: int, downRate: int, closedAt: int)

  datatype Message =
    | New(id: Id, conn: Entry)
    | Update(id: Id, up: int, down: int)
    | Closed(id: Id, at: int, final: Option<Entry>)

  /** What the traffic manager reports: openings and closings as they happen, and other notices. */
  datatype Notice =
    | Opened(id: Id, usage: Usage)
    | Ended(id: Id, at: Option<int>, final: Option<Gone>)
    | Other

  /** A closed connection the manager remembers; its closing time may be unset. */
  datatype Gone = Gone(id: Id, usage: Usage, closedAt: Option<int>)

  /** The clock reading of an unset time, in milliseconds. */
  const ZERO_TIME := -62135596800000

  function Millis(t: Option<int>): int {
    if t.Some? then t.value else ZERO_TIME
  }

  function Shown(u: Usage): Entry {
    Entry(u.up, u.down, 0, 0, 0)
  }

  type Snapshots = map<Id, Snapshot>
  type Client = map<Id, Entry>

  function Lookup<T>(m: map<Id, T>, id: Id): Option<T> {
    if id in m then Some(m[id]) else None
  }

  // ---- The client: a fold over messages ----

  function Heard(e: Option<Entry>, m: Message): Option<Entry> {
    match m
    case New(_, conn) => Some(conn)
    case Update(_, up, down) =>
      if e.Some? then Some(Entry(e.value.up + up, e.value.down + down, up, down, e.value.closedAt)) else None
    case Closed(_, at, final) =>
      if final.Some? then Some(final.value.(closedAt := at, upRate := 0, downRate := 0))
      else if e.Some? then Some(e.value.(closedAt := at, upRate := 0, downRate := 0))
      else None
  }

  function HeardAll(e: Option<Entry>, ms: seq<Message>): Option<Entry> {
    if |ms| == 0 then e else Heard(HeardAll(e, ms[..|ms| - 1]), ms[|ms| - 1])
  }

  function Fold(client: Client, ms: seq<Message>): Client {
    if |ms| == 0 then client
    else
      var before, m := Fold(client, ms[..|ms| - 1]), ms[|ms| - 1];
      var e := Heard(Lookup(before, m.id), m);
      if e.Some? then before[m.id := e.value] else before
  }

  /** The messages about one connection, in order. */
  function About(ms: seq<Message>, id: Id): seq<Message> {
    if |ms| == 0 then []
    else
      var front := About(ms[..|ms| - 1], id);
      if ms[|ms| - 1].id == id then front + [ms[|ms| - 1]] else front
  }

  lemma AboutPush(ms: seq<Message>, m: Message, id: Id)
    ensures About(ms + [m], id) == if m.id == id then About(ms, id) + [m] else About(ms, id)
  {
    assert (ms + [m])[..|ms|] == ms;
  }

  lemma FoldPush(client: Client, ms: seq<Message>, m: Message)
    ensures var before := Fold(client, ms);
      var e := Heard(Lookup(before, m.id), m);
      Fold(client, ms + [m]) == if e.Some? then before[m.id := e.value] else before
  {
    assert (ms + [m])[..|ms|] == ms;
  }

  lemma HeardPush(e: Option<Entry>, ms: seq<Message>, m: Message)
    ensures HeardAll(e, ms + [m]) == Heard(HeardAll(e, ms), m)
  {
    assert (ms + [m])[..|ms|] == ms;
  }

  /** A connection's entry depends on the messages about it alone. */
  lemma {:induction false} FoldById(client: Client, ms: seq<Message>, id: Id)
    ensures Lookup(Fold(client, ms), id) == HeardAll(Lookup(client, id), About(ms, id))
  {
    if |ms| > 0 {
      var front, m := ms[..|ms| - 1], ms[|ms| - 1];
      FoldById(client, front, id);
      if m.id == id { HeardPush(Lookup(client, id), About(front, id), m); }
    }
  }

  const MAX_AGE := 300000

  /** Long-closed connections are dropped from view. */
  function Evicted(client: Client, now: int): Client {
    map id | id in client && !(client[id].closedAt != 0 && now - client[id].closedAt > MAX_AGE) :: client[id]
  }

  /** The client's table, changed in place. */
  class Table {
    var entries: Client

    constructor ()
      ensures entries == map[]
    {
      entries := map[];
    }

    method ApplyEvents(reset: bool, events: seq<Message>, now: int)
      modifies this
      ensures entries == Evicted(Fold(if reset then map[] else old(entries), events), now)
    {
      if reset { entries := map[]; }
      ghost var first := entries;
      var k := 0;
      while k < |events|
        invariant 0 <= k <= |events| && entries == Fold(first, events[..k])
      {
        var event := events[k];
        FoldPush(first, events[..k], event);
        assert events[..k + 1] == events[..k] + [event];
        match event {
          case New(id, conn) => entries := entries[id := conn];
          case Update(id, up, down) =>
            if id in entries {
              var e := entries[id];
              entries := entries[id := Entry(e.up + up, e.down + down, up, down, e.closedAt)];
            }
          case Closed(id, at, final) =>
            if final.Some? {
              entries := entries[id := final.value.(closedAt := at, upRate := 0, downRate := 0)];
            } else if id in entries {
              entries := entries[id := entries[id].(closedAt := at, upRate := 0, downRate := 0)];
            }
        }
        k := k + 1;
      }
      assert events[..k] == events;
      EvictClosed(now);
    }

    method EvictClosed(now: int)
      modifies this
      ensures entries == Evicted(old(entries), now)
    {
      var ids := entries.Keys;
      while ids != {}
        invariant ids <= old(entries).Keys
        invariant entries ==
          map id | id in old(entries) && (id in ids || id in Evicted(old(entries), now)) :: old(entries)[id]
        decreases |ids|
      {
        var id :| id in ids;
        if entries[id].closedAt != 0 && now - entries[id].closedAt > MAX_AGE {
          entries := entries - {id};
        }
        ids := ids - {id};
      }
    }
  }

  // ---- The server ----

  /** Both counters are at least what was last told, and one is more. */
  predicate Moved(s: Snapshot, u: Usage) {
    s.up <= u.up && s.down <= u.down && (s.up < u.up || s.down < u.down)
  }

  /** What a tick says about a connection that has closed. */
  function Goodbye(index: map<Id, Gone>, now: int, id: Id): Message {
    if id in index then
      var at := if index[id].closedAt.Some? then index[id].closedAt.value else now;
      Closed(id, at, Some(Shown(index[id].usage).(closedAt := at)))
    else Closed(id, now, None)
  }

  /** The closed connections by id; of two with one id the later stays. */
  function Index(closed: seq<Gone>): map<Id, Gone> {
    if |closed| == 0 then map[] else Index(closed[..|closed| - 1])[closed[|closed| - 1].id := closed[|closed| - 1]]
  }

  /** What a tick sends about an active connection. */
  function Changed(id: Id, known: Option<Snapshot>, u: Usage): Option<Message> {
    if known.None? then Some(New(id, Shown(u)))
    else if Moved(known.value, u) then Some(Update(id, u.up - known.value.up, u.down - known.value.down))
    else if known.value.hadTraffic then Some(Update(id, 0, 0))
    else None
  }

  /** What a tick sends about a connection: at most one message. */
  function Due(snapshots: Snapshots, active: map<Id, Usage>, index: map<Id, Gone>, now: int, id: Id): seq<Message> {
    if id in active then
      var m := Changed(id, Lookup(snapshots, id), active[id]);
      if m.Some? then [m.value] else []
    else if id in snapshots then [Goodbye(index, now, id)]
    else []
  }

  function Fresh(known: Option<Snapshot>, u: Usage): Snapshot {
    Snapshot(u.up, u.down, known.Some? && Moved(known.value, u))
  }

  /** The snapshots after a tick: exactly the active connections, with the counters just read. */
  function Refreshed(snapshots: Snapshots, active: map<Id, Usage>): Snapshots {
    map id | id in active :: Fresh(Lookup(snapshots, id), active[id])
  }

  lemma SameMap<T>(a: map<Id, T>, b: map<Id, T>)
    requires forall id :: Lookup(a, id) == Lookup(b, id)
    ensures a == b
  {
    forall id ensures (id in a <==> id in b) && (id in a ==> a[id] == b[id]) {
      assert Lookup(a, id) == Lookup(b, id);
    }
  }

  /** A tick under way: `seen` have been compared and `gone` closed. */
  ghost predicate Halfway(was: Snapshots, active: map<Id, Usage>, index: map<Id, Gone>, now: int,
                          seen: set<Id>, gone: set<Id>, snapshots: Snapshots, events: seq<Message>) {
    && HalfRefreshed(was, active, seen, gone, snapshots)
    && HalfSent(was, active, index, now, seen + gone, events)
  }

  ghost predicate HalfRefreshed(was: Snapshots, active: map<Id, Usage>, seen: set<Id>, gone: set<Id>,
                                snapshots: Snapshots) {
    forall id :: Lookup(snapshots, id) ==
      if id in seen && id in active then Some(Fresh(Lookup(was, id), active[id]))
      else if id in gone then None else Lookup(was, id)
  }

  ghost predicate HalfSent(was: Snapshots, active: map<Id, Usage>, index: map<Id, Gone>, now: int, told: set<Id>,
                           events: seq<Message>) {
    forall id :: About(events, id) == if id in told then Due(was, active, index, now, id) else []
  }

  lemma HalfwayStart(was: Snapshots, active: map<Id, Usage>, index: map<Id, Gone>, now: int)
    ensures Halfway(was, active, index, now, {}, {}, was, [])
  {
  }

  lemma HalfwayCompared(was: Snapshots, active: map<Id, Usage>, index: map<Id, Gone>, now: int, seen: set<Id>,
                        snapshots: Snapshots, events: seq<Message>, id: Id, s: Snapshot, m: Option<Message>)
    requires Halfway(was, active, index, now, seen, {}, snapshots, events) && id in active && id !in seen
    requires s == Fresh(Lookup(snapshots, id), active[id])
    requires m == Changed(id, Lookup(snapshots, id), active[id])
    ensures Halfway(was, active, index, now, seen + {id}, {}, snapshots[id := s],
                    if m.Some? then events + [m.value] else events)
  {
    assert Lookup(snapshots, id) == Lookup(was, id);
    SentMore(was, active, index, now, seen + {}, events, id, if m.Some? then [m.value] else []);
    assert seen + {} + {id} == (seen + {id}) + {};
    if m.None? { assert events + [] == events; }
    forall other ensures Lookup(snapshots[id := s], other) == if other == id then Some(s) else Lookup(snapshots, other)
    {
    }
  }

  /** What is due for one more connection is sent. */
  lemma SentMore(was: Snapshots, active: map<Id, Usage>, index: map<Id, Gone>, now: int, told: set<Id>,
                 events: seq<Message>, id: Id, due: seq<Message>)
    requires HalfSent(was, active, index, now, told, events) && id !in told
    requires due == Due(was, active, index, now, id)
    ensures HalfSent(was, active, index, now, told + {id}, events + due)
  {
    assert About(events, id) == [];
    if |due| > 0 {
      assert due == [due[0]] && due[0].id == id;
      OneMore(events, due[0]);
    } else {
      assert events + due == events;
    }
  }

  lemma HalfwayClosed(was: Snapshots, active: map<Id, Usage>, index: map<Id, Gone>, now: int, gone: set<Id>,
                      snapshots: Snapshots, events: seq<Message>, id: Id)
    requires Halfway(was, active, index, now, active.Keys, gone, snapshots, events) && id in snapshots && id !in active
    ensures id in was && id !in gone
    ensures Halfway(was, active, index, now, active.Keys, gone + {id}, snapshots - {id},
                    events + [Goodbye(index, now, id)])
  {
    assert Lookup(snapshots, id).Some?;
    assert Lookup(was, id).Some? && id !in gone;
    SentMore(was, active, index, now, active.Keys + gone, events, id, [Goodbye(index, now, id)]);
    assert active.Keys + gone + {id} == active.Keys + (gone + {id});
    OneLess(was, active, gone, snapshots, id);
  }

  lemma OneLess(was: Snapshots, active: map<Id, Usage>, gone: set<Id>, snapshots: Snapshots, id: Id)
    requires HalfRefreshed(was, active, active.Keys, gone, snapshots) && id !in active
    ensures HalfRefreshed(was, active, active.Keys, gone + {id}, snapshots - {id})
  {
    forall other ensures Lookup(snapshots - {id}, other) == if other == id then None else Lookup(snapshots, other) {
    }
  }

  /** After a notice: a new connection is remembered if unknown, a closed one forgotten. */
  function Noted(snapshots: Snapshots, n: Notice): Snapshots {
    match n
    case Opened(id, u) => if id in snapshots then snapshots else snapshots[id := Snapshot(u.up, u.down, false)]
    case Ended(id, _, _) => snapshots - {id}
    case Other => snapshots
  }

  /** The closing time told: the notice's, else the connection's, else the clock's. */
  function ClosingTime(at: Option<int>, final: Option<Gone>, now: int): int {
    if at.Some? then at.value
    else if final.Some? && final.value.closedAt.Some? then final.value.closedAt.value
    else now
  }

  function Told(snapshots: Snapshots, n: Notice, now: int): seq<Message> {
    match n
    case Opened(id, u) => if id in snapshots then [] else [New(id, Shown(u))]
    case Ended(id, at, final) =>
      var t := ClosingTime(at, final, now);
      [Closed(id, t, if final.Some? then Some(Shown(final.value.usage).(closedAt := t)) else None)]
    case Other => []
  }

  /** A new message is about its own connection. */
  lemma OneMore(ms: seq<Message>, m: Message)
    ensures forall id :: About(ms + [m], id) == if m.id == id then About(ms, id) + [m] else About(ms, id)
  {
    forall id ensures About(ms + [m], id) == if m.id == id then About(ms, id) + [m] else About(ms, id) {
      AboutPush(ms, m, id);
    }
  }

  function Greetings(active: map<Id, Usage>, id: Id): seq<Message> {
    if id in active then [New(id, Shown(active[id]))] else []
  }

  method BuildIndex(closed: seq<Gone>) returns (index: map<Id, Gone>)
    ensures index == Index(closed)
  {
    index := map[];
    var k := 0;
    while k < |closed|
      invariant 0 <= k <= |closed| && index == Index(closed[..k])
    {
      assert closed[..k + 1][..k] == closed[..k];
      index := index[closed[k].id := closed[k]];
      k := k + 1;
    }
    assert closed[..k] == closed;
  }

  predicate Parted(ids: set<Id>, seen: set<Id>, all: set<Id>) {
    ids !! seen && seen + ids == all
  }

  lemma OneSeen(ids: set<Id>, seen: set<Id>, all: set<Id>, id: Id)
    requires Parted(ids, seen, all) && id in ids
    ensures Parted(ids - {id}, seen + {id}, all)
  {
  }

  /** One active connection against its snapshot. */
  method Compare(id: Id, known: Option<Snapshot>, u: Usage) returns (s: Snapshot, m: Option<Message>)
    ensures s == Fresh(known, u) && m == Changed(id, known, u)
  {
    if known.None? { return Snapshot(u.up, u.down, false), Some(New(id, Shown(u))); }
    s := known.value;
    var upDelta, downDelta := u.up - s.up, u.down - s.down;
    m := None;
    if upDelta < 0 || downDelta < 0 {
      if s.hadTraffic { m := Some(Update(id, 0, 0)); }
      s := Snapshot(u.up, u.down, false);
    } else if upDelta > 0 || downDelta > 0 {
      s := Snapshot(u.up, u.down, true);
      m := Some(Update(id, upDelta, downDelta));
    } else if s.hadTraffic {
      s := Snapshot(u.up, u.down, false);
      m := Some(Update(id, 0, 0));
    }
  }

  class Subscription {
    var snapshots: Snapshots

    constructor ()
      ensures snapshots == map[]
    {
      snapshots := map[];
    }

    /** The first batch: every active connection, then every closed one still remembered. */
    method Initial(active: map<Id, Usage>, closed: seq<Gone>) returns (events: seq<Message>)
      requires snapshots == map[]
      modifies this
      ensures snapshots == Refreshed(map[], active)
      ensures forall id :: About(events, id) == Greetings(active, id) + About(History(closed), id)
    {
      events := InitialActive(active);
      ghost var open := events;
      var k := 0;
      while k < |closed|
        invariant 0 <= k <= |closed| && events == open + History(closed[..k])
        invariant snapshots == Refreshed(map[], active)
      {
        assert closed[..k + 1][..k] == closed[..k];
        var g := closed[k];
        events := events + [New(g.id, Shown(g.usage).(closedAt := Millis(g.closedAt)))];
        k := k + 1;
      }
      assert closed[..k] == closed;
      forall id ensures About(events, id) == About(open, id) + About(History(closed), id) {
        AboutConcat(open, History(closed), id);
      }
    }

    method InitialActive(active: map<Id, Usage>) returns (events: seq<Message>)
      requires snapshots == map[]
      modifies this
      ensures snapshots == Refreshed(map[], active)
      ensures forall id :: About(events, id) == Greetings(active, id)
    {
      events := [];
      var ids := active.Keys;
      while ids != {}
        invariant ids <= active.Keys
        invariant snapshots == map id | id in active && id !in ids :: Snapshot(active[id].up, active[id].down, false)
        invariant forall id :: About(events, id) == if id in ids then [] else Greetings(active, id)
        decreases |ids|
      {
        var id :| id in ids;
        var m := New(id, Shown(active[id]));
        OneMore(events, m);
        events := events + [m];
        snapshots := snapshots[id := Snapshot(active[id].up, active[id].down, false)];
        ids := ids - {id};
      }
    }

    method ApplyNotice(n: Notice, now: int) returns (sent: Option<Message>)
      modifies this
      ensures snapshots == Noted(old(snapshots), n)
      ensures Told(old(snapshots), n, now) == if sent.Some? then [sent.value] else []
    {
      match n {
        case Opened(id, u) =>
          if id in snapshots { return None; }
          snapshots := snapshots[id := Snapshot(u.up, u.down, false)];
          return Some(New(id, Shown(u)));
        case Ended(id, at, final) =>
          snapshots := snapshots - {id};
          var closedAt := at;
          if closedAt.None? && final.Some? && final.value.closedAt.Some? { closedAt := final.value.closedAt; }
          if closedAt.None? { closedAt := Some(now); }
          var conn := None;
          if final.Some? { conn := Some(Shown(final.value.usage).(closedAt := closedAt.value)); }
          return Some(Closed(id, closedAt.value, conn));
        case Other => return None;
      }
    }

    /** A tick: the active connections are compared with what was last told, and the rest are closed. */
    method TrafficUpdates(active: map<Id, Usage>, closed: seq<Gone>, now: int) returns (events: seq<Message>)
      modifies this
      ensures snapshots == Refreshed(old(snapshots), active)
      ensures forall id :: About(events, id) == Due(old(snapshots), active, Index(closed), now, id)
    {
      ghost var was := snapshots;
      events := CompareActive(active, Index(closed), now);
      events := CloseOthers(active, closed, now, events, was);
      assert forall id ::
          Lookup(snapshots, id) == if id in active then Some(Fresh(Lookup(was, id), active[id])) else None;
      SameMap(snapshots, Refreshed(was, active));
    }

    method CompareActive(active: map<Id, Usage>, ghost index: map<Id, Gone>, ghost now: int)
      returns (events: seq<Message>)
      modifies this
      ensures Halfway(old(snapshots), active, index, now, active.Keys, {}, snapshots, events)
    {
      events := [];
      ghost var was := snapshots;
      var ids := active.Keys;
      ghost var seen: set<Id> := {};
      HalfwayStart(was, active, index, now);
      while ids != {}
        invariant Parted(ids, seen, active.Keys)
        invariant Halfway(was, active, index, now, seen, {}, snapshots, events)
        decreases |ids|
      {
        var id :| id in ids;
        events := CompareOne(id, active[id], events, was, active, index, now, seen);
        OneSeen(ids, seen, active.Keys, id);
        ids, seen := ids - {id}, seen + {id};
      }
    }

    method CompareOne(id: Id, u: Usage, sofar: seq<Message>, ghost was: Snapshots, ghost active: map<Id, Usage>,
                      ghost index: map<Id, Gone>, ghost now: int, ghost seen: set<Id>) returns (events: seq<Message>)
      requires Halfway(was, active, index, now, seen, {}, snapshots, sofar)
      requires id in active && u == active[id] && id !in seen
      modifies this
      ensures Halfway(was, active, index, now, seen + {id}, {}, snapshots, events)
    {
      var s, m := Compare(id, Lookup(snapshots, id), u);
      HalfwayCompared(was, active, index, now, seen, snapshots, sofar, id, s, m);
      snapshots := snapshots[id := s];
      events := if m.Some? then sofar + [m.value] else sofar;
    }

    method CloseOthers(active: map<Id, Usage>, closed: seq<Gone>, now: int, sofar: seq<Message>, ghost was: Snapshots)
      returns (events: seq<Message>)
      requires Halfway(was, active, Index(closed), now, active.Keys, {}, snapshots, sofar)
      modifies this
      ensures Halfway(was, active, Index(closed), now, active.Keys, was.Keys - active.Keys, snapshots, events)
    {
      events := sofar;
      var closedIndex: Option<map<Id, Gone>> := None;
      var ids := snapshots.Keys;
      ghost var gone: set<Id> := {};
      while ids != {}
        invariant closedIndex.Some? ==> closedIndex.value == Index(closed)
        invariant gone <= was.Keys - active.Keys <= gone + ids && (forall id :: id in ids ==> id in snapshots)
        invariant Halfway(was, active, Index(closed), now, active.Keys, gone, snapshots, events)
        decreases |ids|
      {
        var id :| id in ids;
        if id !in active {
          if closedIndex.None? {
            var index := BuildIndex(closed);
            closedIndex := Some(index);
          }
          var m := Goodbye(closedIndex.value, now, id);
          HalfwayClosed(was, active, Index(closed), now, gone, snapshots, events, id);
          events := events + [m];
          snapshots := snapshots - {id};
          gone := gone + {id};
        }
        ids := ids - {id};
      }
      assert gone == was.Keys - active.Keys;
    }
  }

  /** The messages for remembered closed connections. */
  function History(closed: seq<Gone>): seq<Message> {
    if |closed| == 0 then []
    else
      var g := closed[|closed| - 1];
      History(closed[..|closed| - 1]) + [New(g.id, Shown(g.usage).(closedAt := Millis(g.closedAt)))]
  }

  lemma {:induction false} AboutConcat(a: seq<Message>, b: seq<Message>, id: Id)
    ensures About(a + b, id) == About(a, id) + About(b, id)
  {
    if |b| == 0 {
      assert a + b == a;
    } else {
      assert (a + b)[..|a + b| - 1] == a + b[..|b| - 1];
      AboutConcat(a, b[..|b| - 1], id);
    }
  }
}
