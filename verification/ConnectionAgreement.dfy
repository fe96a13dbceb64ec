/** What the connection stream gives a client: the server's own view, however events and ticks interleave. */
module ConnectionAgreement {
  import opened Connections
  import opened Wrappers

  // ---- One connection ----

  /** The client shows the connection open, with the snapshot's totals, exactly when there is a snapshot. */
  predicate AgreeAt(s: Option<Snapshot>, e: Option<Entry>) {
    && (s.Some? <==> e.Some? && e.value.closedAt == 0)
    && (s.Some? ==> e.value.up == s.value.up && e.value.down == s.value.down)
  }

  /** The snapshot's flag says whether the client shows the connection moving. */
  predicate RatedAt(s: Option<Snapshot>, e: Option<Entry>) {
    s.Some? && e.Some? ==> (s.value.hadTraffic <==> e.value.upRate != 0 || e.value.downRate != 0)
  }

  /** No counter of a connection told before has gone down. */
  predicate NotFallen(s: Option<Snapshot>, u: Usage) {
    s.Some? ==> s.value.up <= u.up && s.value.down <= u.down
  }

  ghost predicate Agree(snapshots: Snapshots, client: Client) {
    forall id :: AgreeAt(Lookup(snapshots, id), Lookup(client, id))
  }

  ghost predicate Rated(snapshots: Snapshots, client: Client) {
    forall id :: RatedAt(Lookup(snapshots, id), Lookup(client, id))
  }

  /** The server counts a connection as told, but the client shows it closed or not at all. */
  predicate Overtaken(s: Option<Snapshot>, e: Option<Entry>) {
    s.Some? && (e.None? || e.value.closedAt != 0)
  }

  // ---- The first batch ----

  /** After the remembered closed connections a client shows a connection among them as the last record of it says,
      and any other as before. */
  lemma {:induction false} HistoryHeard(closed: seq<Gone>, e: Option<Entry>, id: Id)
    ensures HeardAll(e, About(History(closed), id)) ==
      if id in Index(closed) then
        Some(Shown(Index(closed)[id].usage).(closedAt := Millis(Index(closed)[id].closedAt)))
      else e
  {
    if |closed| > 0 {
      var front, g := closed[..|closed| - 1], closed[|closed| - 1];
      HistoryHeard(front, e, id);
      var m := New(g.id, Shown(g.usage).(closedAt := Millis(g.closedAt)));
      AboutPush(History(front), m, id);
      if g.id == id { HeardPush(e, About(History(front), id), m); }
    }
  }

  lemma HeardConcat(e: Option<Entry>, a: seq<Message>, b: seq<Message>)
    ensures HeardAll(e, a + b) == HeardAll(HeardAll(e, a), b)
    decreases |b|
  {
    if |b| == 0 {
      assert a + b == a;
    } else {
      var front := b[..|b| - 1];
      assert (a + b)[..|a + b| - 1] == a + front;
      HeardConcat(e, a, front);
    }
  }

  lemma HeardOne(e: Option<Entry>, m: Message)
    ensures HeardAll(e, [m]) == Heard(e, m)
  {
    assert [m][..0] == [];
  }

  /** A connection in the first batch: remembered as closed only if it is not active, and at a time other than 0,
      or else with the counters it has. */
  predicate FirstAgrees(active: map<Id, Usage>, index: map<Id, Gone>, id: Id) {
    id in index ==>
      if id in active then Millis(index[id].closedAt) == 0 && index[id].usage == active[id]
      else Millis(index[id].closedAt) != 0
  }

  /** Active when the first batch was read, and remembered as closed a moment later. */
  predicate Late(active: map<Id, Usage>, index: map<Id, Gone>, id: Id) {
    id in active && id in index && Millis(index[id].closedAt) != 0
  }

  lemma FirstAt(active: map<Id, Usage>, closed: seq<Gone>, events: seq<Message>, id: Id)
    requires About(events, id) == Greetings(active, id) + About(History(closed), id)
    ensures var s, e := Lookup(Refreshed(map[], active), id), Lookup(Fold(map[], events), id);
      && (AgreeAt(s, e) <==> FirstAgrees(active, Index(closed), id))
      && (Overtaken(s, e) <==> Late(active, Index(closed), id))
      && RatedAt(s, e)
  {
    FoldById(map[], events, id);
    HeardConcat(None, Greetings(active, id), About(History(closed), id));
    if id in active { HeardOne(None, New(id, Shown(active[id]))); }
    HistoryHeard(closed, HeardAll(None, Greetings(active, id)), id);
  }

  /** The first batch gives agreement exactly when every remembered connection is inactive and has a closing time
      other than 0, or is reported active with the same counters and the closing time 0. */
  lemma FirstBatch(active: map<Id, Usage>, closed: seq<Gone>, events: seq<Message>)
    requires forall id :: About(events, id) == Greetings(active, id) + About(History(closed), id)
    ensures Agree(Refreshed(map[], active), Fold(map[], events))
      <==> forall id :: FirstAgrees(active, Index(closed), id)
    ensures Rated(Refreshed(map[], active), Fold(map[], events))
  {
    var s, client := Refreshed(map[], active), Fold(map[], events);
    forall id ensures RatedAt(Lookup(s, id), Lookup(client, id)) {
      FirstAt(active, closed, events, id);
    }
    if Agree(s, client) {
      forall id ensures FirstAgrees(active, Index(closed), id) {
        assert AgreeAt(Lookup(s, id), Lookup(client, id));
        FirstAt(active, closed, events, id);
      }
    } else {
      var id :| !AgreeAt(Lookup(s, id), Lookup(client, id));
      FirstAt(active, closed, events, id);
      assert !FirstAgrees(active, Index(closed), id);
    }
  }

  /** A connection closed between the two readings: the client shows it closed, the snapshots have it active. */
  lemma ClosedBetweenReadings(u: Usage)
    ensures var active, closed := map[1 := u], [Gone(1, u, Some(5))];
      var events := [New(1, Shown(u)), New(1, Shown(u).(closedAt := 5))];
      && (forall id :: About(events, id) == Greetings(active, id) + About(History(closed), id))
      && Late(active, Index(closed), 1)
      && Lookup(Refreshed(map[], active), 1).Some? && Lookup(Fold(map[], events), 1) == Some(Shown(u).(closedAt := 5))
      && !Agree(Refreshed(map[], active), Fold(map[], events))
  {
    var active, closed := map[1 := u], [Gone(1, u, Some(5))];
    var first, second := New(1, Shown(u)), New(1, Shown(u).(closedAt := 5));
    var events := [first, second];
    assert History(closed[..0]) == [] && Index(closed[..0]) == map[];
    assert History(closed) == [second] && Index(closed) == map[1 := closed[0]];
    forall id ensures About(events, id) == Greetings(active, id) + About(History(closed), id) {
      AboutOne(first, id);
      AboutOne(second, id);
      AboutPush([first], second, id);
      assert [first] + [second] == events;
    }
    FoldById(map[], events, 1);
    FirstAt(active, closed, events, 1);
    FirstBatch(active, closed, events);
    HistoryHeard(closed, Some(Shown(u)), 1);
    HeardConcat(None, Greetings(active, 1), About(History(closed), 1));
    HeardOne(None, first);
  }

  // ---- Notices ----

  /** A closing the client hears has a time it can tell from "open", unless it does not know the connection. */
  predicate NoticeOkAt(e: Option<Entry>, n: Notice, now: int, id: Id) {
    n.Ended? && n.id == id ==> ClosingTime(n.at, n.final, now) != 0 || (n.final.None? && e.None?)
  }

  lemma AboutOne(m: Message, id: Id)
    ensures About([m], id) == if m.id == id then [m] else []
  {
    assert [m][..0] == [];
  }

  lemma NoticeAt(s: Snapshots, client: Client, n: Notice, now: int, id: Id)
    ensures var e := Lookup(client, id);
      var s', e' := Lookup(Noted(s, n), id), HeardAll(e, About(Told(s, n, now), id));
      && (AgreeAt(Lookup(s, id), e) ==> (AgreeAt(s', e') <==> NoticeOkAt(e, n, now, id)))
      && (Overtaken(Lookup(s, id), e) ==>
            if n.Ended? && n.id == id then AgreeAt(s', e') <==> NoticeOkAt(e, n, now, id) else Overtaken(s', e'))
      && (RatedAt(Lookup(s, id), e) ==> RatedAt(s', e'))
  {
    HeardTold(s, Lookup(client, id), n, now, id);
    match n
    case Opened(_, u) => NotedOpened(s, n, id);
    case Ended(_, at, final) => NotedEnded(s, n, id);
    case Other =>
  }

  lemma NotedOpened(s: Snapshots, n: Notice, id: Id)
    requires n.Opened?
    ensures Lookup(Noted(s, n), id) ==
      if id == n.id && id !in s then Some(Snapshot(n.usage.up, n.usage.down, false)) else Lookup(s, id)
  {
  }

  lemma NotedEnded(s: Snapshots, n: Notice, id: Id)
    requires n.Ended?
    ensures Lookup(Noted(s, n), id) == if id == n.id then None else Lookup(s, id)
  {
  }

  /** At most one message comes of a notice. */
  lemma HeardTold(s: Snapshots, e: Option<Entry>, n: Notice, now: int, id: Id)
    ensures var told := Told(s, n, now);
      HeardAll(e, About(told, id)) == if |told| > 0 && told[0].id == id then Heard(e, told[0]) else e
  {
    var told := Told(s, n, now);
    if |told| > 0 {
      AboutOne(told[0], id);
      assert told == [told[0]];
      HeardOne(e, told[0]);
    }
  }

  /** Any notice, new, late, repeated or unknown, keeps a client in agreement, but for one: a closing at time 0 of
      a connection that the notice describes or the client shows. */
  lemma NoticeKeeps(s: Snapshots, client: Client, n: Notice, now: int)
    ensures Agree(s, client) ==>
      (Agree(Noted(s, n), Fold(client, Told(s, n, now)))
       <==> (n.Ended? ==> ClosingTime(n.at, n.final, now) != 0 || (n.final.None? && n.id !in client)))
    ensures Rated(s, client) ==> Rated(Noted(s, n), Fold(client, Told(s, n, now)))
  {
    var s', client' := Noted(s, n), Fold(client, Told(s, n, now));
    forall id
      ensures AgreeAt(Lookup(s, id), Lookup(client, id)) ==>
        (AgreeAt(Lookup(s', id), Lookup(client', id)) <==> NoticeOkAt(Lookup(client, id), n, now, id))
      ensures RatedAt(Lookup(s, id), Lookup(client, id)) ==> RatedAt(Lookup(s', id), Lookup(client', id))
    {
      NoticeAt(s, client, n, now, id);
      FoldById(client, Told(s, n, now), id);
    }
    if n.Ended? && Agree(s, client) && Agree(s', client') {
      assert AgreeAt(Lookup(s, n.id), Lookup(client, n.id)) && AgreeAt(Lookup(s', n.id), Lookup(client', n.id));
    }
  }

  // ---- Ticks ----

  /** The time a tick gives for the closing of a connection. */
  function ByeTime(index: map<Id, Gone>, now: int, id: Id): int {
    if id in index && index[id].closedAt.Some? then index[id].closedAt.value else now
  }

  /** A connection in agreement has not lost bytes, and one closed gets a time the client can tell from "open". */
  predicate TickOkAt(s: Option<Snapshot>, e: Option<Entry>, active: map<Id, Usage>, index: map<Id, Gone>, now: int,
                     id: Id) {
    if id in active then AgreeAt(s, e) ==> NotFallen(s, active[id])
    else s.Some? ==> ByeTime(index, now, id) != 0 || (id !in index && e.None?)
  }

  lemma TickAt(s: Snapshots, e: Option<Entry>, active: map<Id, Usage>, index: map<Id, Gone>, now: int, id: Id)
    ensures var was := Lookup(s, id);
      var s', e' := Lookup(Refreshed(s, active), id), HeardAll(e, Due(s, active, index, now, id));
      && (AgreeAt(was, e) ==> (AgreeAt(s', e') <==> TickOkAt(was, e, active, index, now, id)))
      && (Overtaken(was, e) ==>
            if id in active then Overtaken(s', e') else AgreeAt(s', e') <==> TickOkAt(was, e, active, index, now, id))
      && (RatedAt(was, e) ==> RatedAt(s', e'))
  {
    var due := Due(s, active, index, now, id);
    if due != [] { HeardOne(e, due[0]); assert due == [due[0]]; }
  }

  /** No counter of a connection told before has gone down, and no connection is closed at time 0. */
  ghost predicate TickOk(s: Snapshots, active: map<Id, Usage>, index: map<Id, Gone>, now: int) {
    && (forall id :: id in active ==> NotFallen(Lookup(s, id), active[id]))
    && (forall id :: id in s && id !in active ==> ByeTime(index, now, id) != 0)
  }

  /** A tick keeps a client in agreement exactly when no counter of a connection it knows has gone down and none
      that it closes gets the time 0. */
  lemma TickKeeps(s: Snapshots, client: Client, active: map<Id, Usage>, index: map<Id, Gone>, now: int,
                  events: seq<Message>)
    requires forall id :: About(events, id) == Due(s, active, index, now, id)
    ensures Agree(s, client) ==> (Agree(Refreshed(s, active), Fold(client, events)) <==> TickOk(s, active, index, now))
    ensures Rated(s, client) ==> Rated(Refreshed(s, active), Fold(client, events))
  {
    var s', client' := Refreshed(s, active), Fold(client, events);
    forall id
      ensures AgreeAt(Lookup(s, id), Lookup(client, id)) ==>
        (AgreeAt(Lookup(s', id), Lookup(client', id))
         <==> TickOkAt(Lookup(s, id), Lookup(client, id), active, index, now, id))
      ensures RatedAt(Lookup(s, id), Lookup(client, id)) ==> RatedAt(Lookup(s', id), Lookup(client', id))
    {
      FoldById(client, events, id);
      TickAt(s, Lookup(client, id), active, index, now, id);
    }
    if Agree(s, client) { TickOkById(s, client, active, index, now); }
  }

  lemma TickOkById(s: Snapshots, client: Client, active: map<Id, Usage>, index: map<Id, Gone>, now: int)
    requires Agree(s, client)
    ensures TickOk(s, active, index, now)
       <==> forall id :: TickOkAt(Lookup(s, id), Lookup(client, id), active, index, now, id)
  {
    forall id ensures TickOkAt(Lookup(s, id), Lookup(client, id), active, index, now, id) <==>
        (if id in active then NotFallen(Lookup(s, id), active[id]) else id in s ==> ByeTime(index, now, id) != 0)
    {
      assert AgreeAt(Lookup(s, id), Lookup(client, id));
    }
  }

  /** A tick sends at most one message per connection: NEW only about one the client does not show open,
      UPDATE and CLOSED only about one it does. */
  lemma TickAddresses(s: Snapshots, client: Client, active: map<Id, Usage>, index: map<Id, Gone>, now: int, id: Id)
    requires Agree(s, client)
    ensures var due := Due(s, active, index, now, id);
      && |due| <= 1
      && (|due| == 1 ==> due[0].id == id && (due[0].New? <==> !(id in client && client[id].closedAt == 0)))
  {
    assert AgreeAt(Lookup(s, id), Lookup(client, id));
  }

  /** The client shows the manager's connections open and no others, with its counters. */
  ghost predicate Shows(client: Client, active: map<Id, Usage>) {
    forall id :: AgreesWith(client, active, id)
  }

  predicate AgreesWith(client: Client, active: map<Id, Usage>, id: Id) {
    && (id in active <==> id in client && client[id].closedAt == 0)
    && (id in active ==> client[id].up == active[id].up && client[id].down == active[id].down)
  }

  /** So after a tick the client shows what the manager has, whatever notices were lost before, exactly when the
      tick met that condition. */
  lemma TickSettles(s: Snapshots, client: Client, active: map<Id, Usage>, index: map<Id, Gone>, now: int,
                    events: seq<Message>)
    requires Agree(s, client) && forall id :: About(events, id) == Due(s, active, index, now, id)
    ensures Shows(Fold(client, events), active) <==> TickOk(s, active, index, now)
  {
    TickKeeps(s, client, active, index, now, events);
    forall id ensures AgreesWith(Fold(client, events), active, id)
                 <==> AgreeAt(Lookup(Refreshed(s, active), id), Lookup(Fold(client, events), id))
    {
    }
  }

  /** Once the active connections stop changing, one tick brings the snapshots up to date, a second tells the client
      that nothing moves any more, and a third says nothing, whenever they come and whatever has closed. */
  lemma ThirdTickSilent(s: Snapshots, active: map<Id, Usage>, closed2: seq<Gone>, closed3: seq<Gone>, now2: int,
                        now3: int, id: Id)
    ensures var one := Refreshed(s, active);
      var two := Refreshed(one, active);
      && (Due(one, active, Index(closed2), now2, id) == []
        || Due(one, active, Index(closed2), now2, id) == [Update(id, 0, 0)])
      && Due(two, active, Index(closed3), now3, id) == []
      && Refreshed(two, active) == two
  {
  }

  // ---- Runs ----

  /** One step of the stream, or of the client's own housekeeping. */
  datatype Step =
    | Hear(notice: Notice, now: int)
    | Tick(active: map<Id, Usage>, closed: seq<Gone>, now: int)
    | Tidy(now: int)

  datatype World = World(snapshots: Snapshots, client: Client)

  /** The client after a tick, connection by connection: the order of the batch does not matter. */
  function TickClient(s: Snapshots, client: Client, active: map<Id, Usage>, index: map<Id, Gone>, now: int): Client {
    map id | id in client.Keys + s.Keys + active.Keys
      && HeardAll(Lookup(client, id), Due(s, active, index, now, id)).Some?
      :: HeardAll(Lookup(client, id), Due(s, active, index, now, id)).value
  }

  lemma AnyOrder(s: Snapshots, client: Client, active: map<Id, Usage>, index: map<Id, Gone>, now: int,
                 events: seq<Message>)
    requires forall id :: About(events, id) == Due(s, active, index, now, id)
    ensures Fold(client, events) == TickClient(s, client, active, index, now)
  {
    forall id ensures Lookup(Fold(client, events), id) == Lookup(TickClient(s, client, active, index, now), id) {
      FoldById(client, events, id);
    }
    SameMap(Fold(client, events), TickClient(s, client, active, index, now));
  }

  function Next(w: World, step: Step): World {
    match step
    case Hear(n, now) => World(Noted(w.snapshots, n), Fold(w.client, Told(w.snapshots, n, now)))
    case Tick(active, closed, now) =>
      World(Refreshed(w.snapshots, active), TickClient(w.snapshots, w.client, active, Index(closed), now))
    case Tidy(now) => World(w.snapshots, Evicted(w.client, now))
  }

  function After(w: World, steps: seq<Step>): World {
    if |steps| == 0 then w else Next(After(w, steps[..|steps| - 1]), steps[|steps| - 1])
  }

  lemma TickClientAt(w: World, active: map<Id, Usage>, index: map<Id, Gone>, now: int, id: Id)
    ensures Lookup(TickClient(w.snapshots, w.client, active, index, now), id)
         == HeardAll(Lookup(w.client, id), Due(w.snapshots, active, index, now, id))
  {
  }

  /** The step closes no connection at time 0, and finds no bytes lost. */
  predicate StepOkAt(w: World, step: Step, id: Id) {
    match step
    case Hear(n, now) => NoticeOkAt(Lookup(w.client, id), n, now, id)
    case Tick(active, closed, now) =>
      TickOkAt(Lookup(w.snapshots, id), Lookup(w.client, id), active, Index(closed), now, id)
    case Tidy(_) => true
  }

  /** Every step of the run is such. */
  ghost predicate Steady(w: World, steps: seq<Step>) {
    |steps| > 0 ==>
      var front, last := steps[..|steps| - 1], steps[|steps| - 1];
      Steady(w, front) && forall id :: StepOkAt(After(w, front), last, id)
  }

  /** The connection is reported closed, or a tick finds it inactive. */
  predicate Settles(step: Step, id: Id) {
    match step
    case Hear(n, _) => n.Ended? && n.id == id
    case Tick(active, _, _) => id !in active
    case Tidy(_) => false
  }

  predicate AgreesIn(w: World, id: Id) {
    AgreeAt(Lookup(w.snapshots, id), Lookup(w.client, id))
  }

  predicate OvertakenIn(w: World, id: Id) {
    Overtaken(Lookup(w.snapshots, id), Lookup(w.client, id))
  }

  /** One step and one connection: agreement stays exactly when the step is steady, and an overtaken connection
      comes back into agreement exactly when a steady step settles it. */
  lemma StepMoves(w: World, step: Step, id: Id)
    requires AgreesIn(w, id) || OvertakenIn(w, id)
    ensures AgreesIn(w, id) ==> (AgreesIn(Next(w, step), id) <==> StepOkAt(w, step, id))
    ensures StepOkAt(w, step, id) ==>
      if OvertakenIn(w, id) && !Settles(step, id) then OvertakenIn(Next(w, step), id) else AgreesIn(Next(w, step), id)
  {
    match step
    case Hear(n, now) =>
      NoticeAt(w.snapshots, w.client, n, now, id);
      FoldById(w.client, Told(w.snapshots, n, now), id);
    case Tick(active, closed, now) =>
      TickClientAt(w, active, Index(closed), now, id);
      TickAt(w.snapshots, Lookup(w.client, id), active, Index(closed), now, id);
    case Tidy(now) =>
  }

  lemma StepRated(w: World, step: Step)
    requires Rated(w.snapshots, w.client)
    ensures Rated(Next(w, step).snapshots, Next(w, step).client)
  {
    var v := Next(w, step);
    match step
    case Hear(n, now) => NoticeKeeps(w.snapshots, w.client, n, now);
    case Tick(active, closed, now) =>
      forall id ensures RatedAt(Lookup(v.snapshots, id), Lookup(v.client, id)) {
        assert RatedAt(Lookup(w.snapshots, id), Lookup(w.client, id));
        TickClientAt(w, active, Index(closed), now, id);
        TickAt(w.snapshots, Lookup(w.client, id), active, Index(closed), now, id);
      }
    case Tidy(now) =>
      forall id ensures RatedAt(Lookup(v.snapshots, id), Lookup(v.client, id)) {
        assert RatedAt(Lookup(w.snapshots, id), Lookup(w.client, id));
      }
  }

  /** On every run the snapshot's flag says whether the client shows a connection moving. */
  lemma {:induction false} RunsRated(w: World, steps: seq<Step>)
    requires Rated(w.snapshots, w.client)
    ensures Rated(After(w, steps).snapshots, After(w, steps).client)
  {
    if |steps| > 0 {
      RunsRated(w, steps[..|steps| - 1]);
      StepRated(After(w, steps[..|steps| - 1]), steps[|steps| - 1]);
    }
  }

  ghost predicate AgreeIn(w: World) {
    Agree(w.snapshots, w.client)
  }

  lemma StepAgrees(w: World, step: Step)
    requires AgreeIn(w)
    ensures AgreeIn(Next(w, step)) <==> forall id :: StepOkAt(w, step, id)
  {
    var v := Next(w, step);
    forall id ensures AgreeAt(Lookup(v.snapshots, id), Lookup(v.client, id)) <==> StepOkAt(w, step, id) {
      assert AgreeAt(Lookup(w.snapshots, id), Lookup(w.client, id));
      StepMoves(w, step, id);
    }
    if AgreeIn(v) {
      forall id ensures StepOkAt(w, step, id) {
        assert AgreeAt(Lookup(v.snapshots, id), Lookup(v.client, id));
      }
    }
  }

  /** Over every interleaving of notices, ticks and evictions the client's open connections and totals are the
      server's at every point exactly when the run is steady. */
  lemma {:induction false} RunsAgree(w: World, steps: seq<Step>)
    requires AgreeIn(w)
    ensures Throughout(w, steps) <==> Steady(w, steps)
  {
    if |steps| > 0 {
      var front, last := steps[..|steps| - 1], steps[|steps| - 1];
      RunsAgree(w, front);
      if AgreeIn(After(w, front)) { StepAgrees(After(w, front), last); }
      if Throughout(w, front) { AgreesNow(w, front); }
    }
  }

  /** Client and server agree at every point of the run. */
  ghost predicate Throughout(w: World, steps: seq<Step>) {
    AgreeIn(After(w, steps)) && (|steps| > 0 ==> Throughout(w, steps[..|steps| - 1]))
  }

  lemma AgreesNow(w: World, steps: seq<Step>)
    requires Throughout(w, steps)
    ensures AgreeIn(After(w, steps))
  {
  }

  // ---- From the first batch on ----

  /** The snapshots and the client after the first batch. */
  function First(active: map<Id, Usage>, events: seq<Message>): World {
    World(Refreshed(map[], active), Fold(map[], events))
  }

  predicate Unsettled(steps: seq<Step>, id: Id) {
    forall k :: 0 <= k < |steps| ==> !Settles(steps[k], id)
  }

  /** One connection on a steady run from the first batch: out of agreement exactly while it is one that closed
      between the two readings and has neither been reported closed nor been found inactive by a tick since. */
  lemma {:induction false} RunSettles(active: map<Id, Usage>, closed: seq<Gone>, events: seq<Message>,
                                      steps: seq<Step>, id: Id)
    requires About(events, id) == Greetings(active, id) + About(History(closed), id)
    requires FirstAgrees(active, Index(closed), id) || Late(active, Index(closed), id)
    requires Steady(First(active, events), steps)
    ensures var w := After(First(active, events), steps);
      if Late(active, Index(closed), id) && Unsettled(steps, id) then OvertakenIn(w, id) else AgreesIn(w, id)
  {
    if |steps| == 0 {
      FirstAt(active, closed, events, id);
    } else {
      var front, last := steps[..|steps| - 1], steps[|steps| - 1];
      RunSettles(active, closed, events, front, id);
      StepMoves(After(First(active, events), front), last, id);
      assert Unsettled(steps, id) <==> Unsettled(front, id) && !Settles(last, id) by {
        assert forall k :: 0 <= k < |front| ==> steps[k] == front[k];
      }
    }
  }

  /** From the first batch, over every steady interleaving, the client agrees with the server exactly when every
      connection that closed between the two readings has since been reported closed or found inactive by a tick:
      the first tick that no longer lists them restores agreement. */
  lemma FromFirstBatch(active: map<Id, Usage>, closed: seq<Gone>, events: seq<Message>, steps: seq<Step>)
    requires forall id :: About(events, id) == Greetings(active, id) + About(History(closed), id)
    requires forall id :: FirstAgrees(active, Index(closed), id) || Late(active, Index(closed), id)
    requires Steady(First(active, events), steps)
    ensures var w := After(First(active, events), steps);
      && (AgreeIn(w) <==> forall id :: Late(active, Index(closed), id) ==> !Unsettled(steps, id))
      && Rated(w.snapshots, w.client)
  {
    var w := After(First(active, events), steps);
    FirstBatch(active, closed, events);
    RunsRated(First(active, events), steps);
    forall id
      ensures AgreeAt(Lookup(w.snapshots, id), Lookup(w.client, id))
         <==> (Late(active, Index(closed), id) ==> !Unsettled(steps, id))
    {
      RunSettles(active, closed, events, steps, id);
    }
  }

  // ---- Idle connections go quiet ----

  function Sent(w: World, step: Step, id: Id): seq<Message> {
    match step
    case Hear(n, now) => About(Told(w.snapshots, n, now), id)
    case Tick(active, closed, now) => Due(w.snapshots, active, Index(closed), now, id)
    case Tidy(_) => []
  }

  /** All messages about one connection along a run. */
  function Stream(w: World, steps: seq<Step>, id: Id): seq<Message> {
    if |steps| == 0 then []
    else Stream(w, steps[..|steps| - 1], id) + Sent(After(w, steps[..|steps| - 1]), steps[|steps| - 1], id)
  }

  predicate ZeroUpdate(m: Message) {
    m.Update? && m.up == 0 && m.down == 0
  }

  predicate MovingUpdate(m: Message) {
    m.Update? && (m.up != 0 || m.down != 0)
  }

  /** A moving UPDATE has come since the last zero one. */
  predicate Armed(ms: seq<Message>, first: bool) {
    if |ms| == 0 then first
    else if MovingUpdate(ms[|ms| - 1]) then true
    else if ZeroUpdate(ms[|ms| - 1]) then false
    else Armed(ms[..|ms| - 1], first)
  }

  /** Every zero UPDATE comes while armed. */
  predicate Alternates(ms: seq<Message>, first: bool) {
    |ms| > 0 ==> Alternates(ms[..|ms| - 1], first) && (ZeroUpdate(ms[|ms| - 1]) ==> Armed(ms[..|ms| - 1], first))
  }

  predicate Flag(s: Snapshots, id: Id) {
    id in s && s[id].hadTraffic
  }

  lemma ToldOne(s: Snapshots, n: Notice, now: int, id: Id)
    ensures var ms := About(Told(s, n, now), id);
      && |ms| <= 1 && (|ms| == 1 ==> !ms[0].Update?)
      && (Flag(Noted(s, n), id) ==> Flag(s, id) && |ms| == 0)
  {
    var told := Told(s, n, now);
    if |told| > 0 {
      AboutOne(told[0], id);
      assert told == [told[0]];
    }
  }

  lemma SentOne(w: World, step: Step, id: Id)
    ensures var ms := Sent(w, step, id);
      && |ms| <= 1
      && (|ms| == 1 && ZeroUpdate(ms[0]) ==> Flag(w.snapshots, id) && !Flag(Next(w, step).snapshots, id))
      && (Flag(Next(w, step).snapshots, id) ==>
        (|ms| == 1 && MovingUpdate(ms[0])) || (Flag(w.snapshots, id) && |ms| == 0))
  {
    match step
    case Hear(n, now) => ToldOne(w.snapshots, n, now, id);
    case Tick(active, closed, now) =>
    case Tidy(_) =>
  }

  lemma {:induction false} StreamAlternates(w: World, steps: seq<Step>, id: Id)
    ensures Alternates(Stream(w, steps, id), Flag(w.snapshots, id))
    ensures Flag(After(w, steps).snapshots, id) ==> Armed(Stream(w, steps, id), Flag(w.snapshots, id))
  {
    if |steps| > 0 {
      var front, last := steps[..|steps| - 1], steps[|steps| - 1];
      StreamAlternates(w, front, id);
      SentOne(After(w, front), last, id);
      var before, ms := Stream(w, front, id), Sent(After(w, front), last, id);
      if |ms| == 1 { assert (before + ms)[..|before|] == before; } else { assert before + ms == before; }
    }
  }

  lemma {:induction false} ArmedSince(ms: seq<Message>, first: bool, i: nat) returns (k: nat)
    requires i < |ms| && ZeroUpdate(ms[i]) && Armed(ms, first)
    ensures i < k < |ms| && MovingUpdate(ms[k])
  {
    if MovingUpdate(ms[|ms| - 1]) { return |ms| - 1; }
    k := ArmedSince(ms[..|ms| - 1], first, i);
  }

  lemma {:induction false} AlternatesPrefix(ms: seq<Message>, first: bool, j: nat)
    requires Alternates(ms, first) && j < |ms| && ZeroUpdate(ms[j])
    ensures Armed(ms[..j], first)
  {
    if j < |ms| - 1 {
      AlternatesPrefix(ms[..|ms| - 1], first, j);
      assert ms[..|ms| - 1][..j] == ms[..j];
    }
  }

  /** On every run, between two zero-delta UPDATEs for a connection there is one that moves. */
  lemma QuietOnce(w: World, steps: seq<Step>, id: Id, i: nat, j: nat) returns (k: nat)
    requires i < j < |Stream(w, steps, id)| && ZeroUpdate(Stream(w, steps, id)[i])
      && ZeroUpdate(Stream(w, steps, id)[j])
    ensures i < k < j && MovingUpdate(Stream(w, steps, id)[k])
  {
    var ms := Stream(w, steps, id);
    StreamAlternates(w, steps, id);
    AlternatesPrefix(ms, Flag(w.snapshots, id), j);
    k := ArmedSince(ms[..j], Flag(w.snapshots, id), i);
  }
}
