/** The queue of changes waiting for the database, and how a new change rewrites it. */
module WorkQueue {
  import opened FileModel
  import opened Wrappers

  /** A queued change to a named file. */
  datatype Item<+B> = Item(name: string, act: Act<B>)

  // ---- The rewriting, from the newest item back ----

  /** A write joins the latest write to its file, if only writes and creations of other files come after it. */
  function MergeWrite<B>(q: seq<Item<B>>, name: string, parts: seq<Part>): Option<seq<Item<B>>> {
    if |q| == 0 then None
    else
      var last, front := q[|q| - 1], q[..|q| - 1];
      if last.act.Write? && last.name == name then
        Some(front + [Item(name, Write(last.act.base, last.act.parts + parts))])
      else if last.act.Write? || (last.act.Create? && last.name != name) then
        Followed(MergeWrite(front, name, parts), [last])
      else None
  }

  function Followed<T>(r: Option<seq<T>>, rest: seq<T>): Option<seq<T>> {
    match r
    case None => None
    case Some(s) => Some(s + rest)
  }

  lemma FollowedTwice<T>(r: Option<seq<T>>, x: T, rest: seq<T>)
    ensures Followed(r, []) == r
    ensures Followed(Followed(r, [x]), rest) == Followed(r, [x] + rest)
  {
    if r.Some? {
      assert r.value + [] == r.value;
      assert r.value + [x] + rest == r.value + ([x] + rest);
    }
  }

  function QueueWrite<B>(q: seq<Item<B>>, name: string, base: B, parts: seq<Part>): seq<Item<B>> {
    match MergeWrite(q, name, parts)
    case Some(r) => r
    case None => q + [Item(name, Write(base, parts))]
  }

  /** A deletion drops the pending writes to its file on the way back, and ends at the file's pending
      creation, which it cancels, at a pending deletion of it, or at a change of another kind.
      The flag says that nothing is left to queue. */
  function CancelDelete<B>(q: seq<Item<B>>, name: string): (seq<Item<B>>, bool) {
    if |q| == 0 then (q, false)
    else
      var last, front := q[|q| - 1], q[..|q| - 1];
      if last.act.Truncate? then (q, false)
      else if last.act.Delete? && last.name == name then (q, true)
      else if last.act.Create? && last.name == name then (front, true)
      else
        var (r, done) := CancelDelete(front, name);
        if last.act.Write? && last.name == name then (r, done) else (r + [last], done)
  }

  function QueueDelete<B>(q: seq<Item<B>>, name: string): seq<Item<B>> {
    var (r, done) := CancelDelete(q, name);
    if done then r else r + [Item(name, Delete)]
  }

  /** Creations and truncations go to the end. */
  function Queue<B>(q: seq<Item<B>>, item: Item<B>): seq<Item<B>> {
    match item.act
    case Write(base, parts) => QueueWrite(q, item.name, base, parts)
    case Delete => QueueDelete(q, item.name)
    case _ => q + [item]
  }

  /** The walk back at item `r`: the items kept so far follow whatever the rest of the walk leaves. */
  ghost predicate CancelAt<B>(all: seq<Item<B>>, name: string, r: nat, kept: seq<Item<B>>) {
    && r <= |all|
    && CancelDelete(all, name).0 == CancelDelete(all[..r], name).0 + kept
    && CancelDelete(all, name).1 == CancelDelete(all[..r], name).1
  }

  lemma CancelStart<B>(all: seq<Item<B>>, name: string)
    ensures CancelAt(all, name, |all|, [])
  {
    assert all[..|all|] == all;
  }

  lemma CancelStep<B>(all: seq<Item<B>>, name: string, r: nat, kept: seq<Item<B>>)
    requires r < |all| && CancelAt(all, name, r + 1, kept)
    ensures var item := all[r];
      && (item.act.Truncate? ==> CancelDelete(all, name) == (all[..r + 1] + kept, false))
      && (item.act.Delete? && item.name == name ==> CancelDelete(all, name) == (all[..r + 1] + kept, true))
      && (item.act.Create? && item.name == name ==> CancelDelete(all, name) == (all[..r] + kept, true))
      && (item.act.Write? && item.name == name ==> CancelAt(all, name, r, kept))
      && (!item.act.Truncate? && item.name != name ==> CancelAt(all, name, r, [item] + kept))
  {
    var front := all[..r + 1];
    assert front[..r] == all[..r] && front[r] == all[r];
    var q := CancelDelete(all[..r], name).0;
    assert q + [all[r]] + kept == q + ([all[r]] + kept);
  }

  /** What the walk has reached (`all` up to `r`) and what it has kept, with the item at `r` in place, taken out
      and passed over. */
  lemma Spot<B>(all: seq<Item<B>>, kept: seq<Item<B>>, r: nat)
    requires r < |all|
    ensures var items := all[..r + 1] + kept;
      && items[r] == all[r]
      && items[..r] + items[r + 1..] == all[..r] + kept
      && items == all[..r] + ([all[r]] + kept)
  {
    assert all[..r + 1] == all[..r] + [all[r]];
  }

  // ---- The queue itself ----

  /** The linked list of waiting items, oldest first. */
  class PendingList<B> {
    var items: seq<Item<B>>

    constructor ()
      ensures items == []
    {
      items := [];
    }

    method Append(item: Item<B>)
      modifies this
      ensures items == old(items) + [item]
    {
      items := items + [item];
    }

    method AddWrite(name: string, base: B, parts: seq<Part>)
      modifies this
      ensures items == QueueWrite(old(items), name, base, parts)
    {
      var r := |items| - 1;
      assert items[..|items|] == items && items[|items|..] == [];
      assert MergeWrite(items, name, parts) == Followed(MergeWrite(items, name, parts), []) by {
        FollowedTwice(MergeWrite(items, name, parts), Item(name, Create), []);
      }
      while r >= 0
        invariant -1 <= r < |items| && items == old(items)
        invariant MergeWrite(items, name, parts) == Followed(MergeWrite(items[..r + 1], name, parts), items[r + 1..])
        decreases r
      {
        var item := items[r];
        ghost var front, rest := items[..r + 1], items[r + 1..];
        assert front[..r] == items[..r] && front[r] == item && [item] + rest == items[r..];
        if item.act.Write? {
          if item.name == name {
            items := items[..r] + [Item(name, Write(item.act.base, item.act.parts + parts))] + items[r + 1..];
            return;
          }
        } else if item.act.Create? {
          if item.name == name { break; }
        } else {
          break;
        }
        FollowedTwice(MergeWrite(front[..r], name, parts), item, rest);
        r := r - 1;
      }
      Append(Item(name, Write(base, parts)));
    }

    method AddDelete(name: string)
      modifies this
      ensures items == QueueDelete(old(items), name)
    {
      var r := |items| - 1;
      ghost var all, kept: seq<Item<B>> := items, [];
      CancelStart(all, name);
      while r >= 0
        invariant -1 <= r < |all| && items == all[..r + 1] + kept
        invariant CancelAt(all, name, r + 1, kept)
        decreases r
      {
        var item := items[r];
        Spot(all, kept, r);
        CancelStep(all, name, r, kept);
        if item.act.Delete? {
          if item.name == name { return; }
        } else if item.act.Write? {
          if item.name == name {
            items := items[..r] + items[r + 1..];
            r := r - 1;
            continue;
          }
        } else if item.act.Create? {
          if item.name == name {
            items := items[..r] + items[r + 1..];
            return;
          }
        } else {
          break;
        }
        kept := [item] + kept;
        r := r - 1;
      }
      Append(Item(name, Delete));
    }

    /** The oldest item leaves the list to be carried out. */
    method TakeFirst() returns (item: Item<B>)
      requires |items| > 0
      modifies this
      ensures item == old(items)[0] && items == old(items)[1..]
    {
      item := items[0];
      items := items[1..];
    }
  }

  // ---- One file's share of the queue ----

  /** The changes queued for one file, in order. */
  function Project<B>(q: seq<Item<B>>, name: string): seq<Act<B>> {
    if |q| == 0 then []
    else
      var front := Project(q[..|q| - 1], name);
      if q[|q| - 1].name == name then front + [q[|q| - 1].act] else front
  }

  lemma ProjectPush<B>(q: seq<Item<B>>, item: Item<B>, name: string)
    ensures Project(q + [item], name) == if item.name == name then Project(q, name) + [item.act] else Project(q, name)
  {
    assert (q + [item])[..|q|] == q;
  }

  lemma {:induction false} ProjectFirst<B>(q: seq<Item<B>>, name: string)
    requires |q| > 0
    ensures Project(q, name) == (if q[0].name == name then [q[0].act] else []) + Project(q[1..], name)
  {
    if |q| > 1 {
      var front := q[..|q| - 1];
      ProjectFirst(front, name);
      assert q[1..][..|q| - 2] == front[1..];
    }
  }

  /** A write ends up last for its file: by itself, or as the tail of the file's last write. */
  ghost predicate WriteQueued<B>(ops: seq<Act<B>>, ops': seq<Act<B>>, base: B, parts: seq<Part>) {
    || ops' == ops + [Write(base, parts)]
    || (|ops| > 0 && ops[|ops| - 1].Write?
        && ops' == ops[..|ops| - 1] + [Write(ops[|ops| - 1].base, ops[|ops| - 1].parts + parts)])
  }

  lemma {:induction false} MergeProjection<B>(q: seq<Item<B>>, name: string, parts: seq<Part>, f: string)
    requires MergeWrite(q, name, parts).Some?
    ensures var q' := MergeWrite(q, name, parts).value;
      && (f != name ==> Project(q', f) == Project(q, f))
      && var ops := Project(q, name);
         |ops| > 0 && ops[|ops| - 1].Write?
         && Project(q', name) == ops[..|ops| - 1] + [Write(ops[|ops| - 1].base, ops[|ops| - 1].parts + parts)]
  {
    var last, front := q[|q| - 1], q[..|q| - 1];
    if last.act.Write? && last.name == name {
      ProjectPush(front, Item(name, Write(last.act.base, last.act.parts + parts)), f);
      ProjectPush(front, Item(name, Write(last.act.base, last.act.parts + parts)), name);
    } else {
      MergeProjection(front, name, parts, f);
      ProjectPush(MergeWrite(front, name, parts).value, last, f);
      ProjectPush(MergeWrite(front, name, parts).value, last, name);
    }
  }

  lemma WriteProjection<B>(q: seq<Item<B>>, name: string, base: B, parts: seq<Part>, f: string)
    ensures f != name ==> Project(QueueWrite(q, name, base, parts), f) == Project(q, f)
    ensures WriteQueued(Project(q, name), Project(QueueWrite(q, name, base, parts), name), base, parts)
  {
    if MergeWrite(q, name, parts).Some? {
      MergeProjection(q, name, parts, f);
    } else {
      ProjectPush(q, Item(name, Write(base, parts)), f);
      ProjectPush(q, Item(name, Write(base, parts)), name);
    }
  }

  /** A deletion drops trailing writes and then stands last, or goes away with the creation it cancels
      or with an equal deletion already there. */
  ghost predicate DeleteQueued<B>(ops: seq<Act<B>>, ops': seq<Act<B>>) {
    exists n: nat :: DeletedAt(ops, ops', n)
  }

  ghost predicate DeletedAt<B>(ops: seq<Act<B>>, ops': seq<Act<B>>, n: nat) {
    && n <= |ops| && (forall i :: n <= i < |ops| ==> ops[i].Write?)
    && (|| ops' == ops[..n] + [Delete]
        || (n > 0 && ops[n - 1].Create? && ops' == ops[..n - 1])
        || (n > 0 && ops[n - 1].Delete? && ops' == ops[..n]))
  }

  lemma {:induction false} CancelProjection<B>(q: seq<Item<B>>, name: string, f: string) returns (n: nat)
    ensures var (r, done) := CancelDelete(q, name);
      && (f != name ==> Project(r, f) == Project(q, f))
      && DeletedAt(Project(q, name), if done then Project(r, name) else Project(r, name) + [Delete], n)
  {
    var ops := Project(q, name);
    if |q| == 0 { return 0; }
    var last, front := q[|q| - 1], q[..|q| - 1];
    if last.act.Truncate? || ((last.act.Delete? || last.act.Create?) && last.name == name) {
      n := |ops|;
    } else {
      n := CancelProjection(front, name, f);
      var (r, done) := CancelDelete(front, name);
      if last.act.Write? && last.name == name {
        DeletedBeforeWrite(Project(front, name), if done then Project(r, name) else Project(r, name) + [Delete],
                           last.act, n);
      } else {
        ProjectPush(r, last, f);
        ProjectPush(r, last, name);
        assert last.name != name;
      }
    }
  }

  lemma DeletedBeforeWrite<B>(ops: seq<Act<B>>, ops': seq<Act<B>>, write: Act<B>, n: nat)
    requires DeletedAt(ops, ops', n) && write.Write?
    ensures DeletedAt(ops + [write], ops', n)
  {
    assert (ops + [write])[..n] == ops[..n];
    if n > 0 { assert (ops + [write])[..n - 1] == ops[..n - 1]; }
  }

  lemma DeleteProjection<B>(q: seq<Item<B>>, name: string, f: string)
    ensures f != name ==> Project(QueueDelete(q, name), f) == Project(q, f)
    ensures DeleteQueued(Project(q, name), Project(QueueDelete(q, name), name))
  {
    var n := CancelProjection(q, name, f);
    var (r, done) := CancelDelete(q, name);
    if !done {
      ProjectPush(r, Item(name, Delete), f);
      ProjectPush(r, Item(name, Delete), name);
    }
  }

  // ---- What the queue means ----

  /** A change on a plain file: there or not, and its bytes. */
  function Apply<B>(c: Act<B>, file: Option<seq<Byte>>): Option<seq<Byte>> {
    match c
    case Create => if file.None? then Some([]) else file
    case Delete => None
    case Write(_, parts) => if file.None? then None else Some(Patched(file.value, parts))
    case Truncate(size) => if file.None? then None else Some(Resized(file.value, size))
  }

  /** Files are created when absent; writing, truncating or deleting an absent file is a no-op. */
  predicate Legal<B>(c: Act<B>, file: Option<seq<Byte>>) {
    c.Create? ==> file.None?
  }

  function Run<B>(file: Option<seq<Byte>>, ops: seq<Act<B>>): Option<seq<Byte>> {
    if |ops| == 0 then file else Apply(ops[|ops| - 1], Run(file, ops[..|ops| - 1]))
  }

  predicate AllLegal<B>(file: Option<seq<Byte>>, ops: seq<Act<B>>) {
    |ops| > 0 ==> AllLegal(file, ops[..|ops| - 1]) && Legal(ops[|ops| - 1], Run(file, ops[..|ops| - 1]))
  }

  lemma RunPush<B>(file: Option<seq<Byte>>, ops: seq<Act<B>>, c: Act<B>)
    ensures Run(file, ops + [c]) == Apply(c, Run(file, ops))
    ensures AllLegal(file, ops + [c]) <==> AllLegal(file, ops) && Legal(c, Run(file, ops))
  {
    assert (ops + [c])[..|ops|] == ops;
  }

  lemma {:induction false} LegalPrefix<B>(file: Option<seq<Byte>>, ops: seq<Act<B>>, n: nat)
    requires AllLegal(file, ops) && n <= |ops|
    ensures AllLegal(file, ops[..n])
  {
    if n < |ops| {
      LegalPrefix(file, ops[..|ops| - 1], n);
      assert ops[..|ops| - 1][..n] == ops[..n];
    } else {
      assert ops[..n] == ops;
    }
  }

  lemma WriteQueuedMeans<B>(file: Option<seq<Byte>>, ops: seq<Act<B>>, ops': seq<Act<B>>, base: B, parts: seq<Part>)
    requires WriteQueued(ops, ops', base, parts) && AllLegal(file, ops + [Write(base, parts)])
    ensures Run(file, ops') == Run(file, ops + [Write(base, parts)]) && AllLegal(file, ops')
  {
    RunPush(file, ops, Write(base, parts));
    if ops' != ops + [Write(base, parts)] {
      var front, last := ops[..|ops| - 1], ops[|ops| - 1];
      RunPush(file, front, Write(last.base, last.parts + parts));
      if Run(file, front).Some? { PatchedConcat(Run(file, front).value, last.parts, parts); }
    }
  }

  lemma DeleteQueuedMeans<B>(file: Option<seq<Byte>>, ops: seq<Act<B>>, ops': seq<Act<B>>, n: nat)
    requires DeletedAt(ops, ops', n) && AllLegal(file, ops + [Delete])
    ensures Run(file, ops').None? && Run(file, ops + [Delete]).None? && AllLegal(file, ops')
  {
    RunPush(file, ops, Delete);
    LegalPrefix(file, ops, n);
    if ops' == ops[..n] + [Delete] {
      RunPush(file, ops[..n], Delete);
    } else {
      var front, c := ops[..n - 1], ops[n - 1];
      assert ops[..n] == front + [c];
      RunPush(file, front, c);
    }
  }

  // ---- All files at once ----

  type Files = map<string, seq<Byte>>

  function Lookup(files: Files, name: string): Option<seq<Byte>> {
    if name in files then Some(files[name]) else None
  }

  function Store(files: Files, name: string, file: Option<seq<Byte>>): Files {
    match file
    case Some(s) => files[name := s]
    case None => files - {name}
  }

  /** Items carried out in order. */
  function RunFiles<B>(files: Files, q: seq<Item<B>>): Files {
    if |q| == 0 then files
    else
      var before := RunFiles(files, q[..|q| - 1]);
      var item := q[|q| - 1];
      Store(before, item.name, Apply(item.act, Lookup(before, item.name)))
  }

  predicate LegalQueue<B>(files: Files, q: seq<Item<B>>) {
    |q| > 0 ==>
      && LegalQueue(files, q[..|q| - 1])
      && Legal(q[|q| - 1].act, Lookup(RunFiles(files, q[..|q| - 1]), q[|q| - 1].name))
  }

  /** Each file sees only its own changes. */
  lemma {:induction false} RunByFile<B>(files: Files, q: seq<Item<B>>, name: string)
    ensures Lookup(RunFiles(files, q), name) == Run(Lookup(files, name), Project(q, name))
    ensures LegalQueue(files, q) ==> AllLegal(Lookup(files, name), Project(q, name))
  {
    if |q| > 0 {
      var front, item := q[..|q| - 1], q[|q| - 1];
      RunByFile(files, front, name);
      RunPush(Lookup(files, name), Project(front, name), item.act);
    }
  }

  /** A queue is legal when every file's share of it is. */
  lemma {:induction false} LegalByFile<B>(files: Files, q: seq<Item<B>>)
    requires forall name :: AllLegal(Lookup(files, name), Project(q, name))
    ensures LegalQueue(files, q)
  {
    if |q| > 0 {
      var front, item := q[..|q| - 1], q[|q| - 1];
      forall name ensures AllLegal(Lookup(files, name), Project(front, name)) {
        assert AllLegal(Lookup(files, name), Project(q, name));
        RunPush(Lookup(files, name), Project(front, name), item.act);
      }
      LegalByFile(files, front);
      RunByFile(files, front, item.name);
      assert AllLegal(Lookup(files, item.name), Project(q, item.name));
      RunPush(Lookup(files, item.name), Project(front, item.name), item.act);
    }
  }

  lemma RewrittenFile<B>(files: Files, q: seq<Item<B>>, item: Item<B>, name: string)
    requires LegalQueue(files, q + [item])
    ensures Run(Lookup(files, name), Project(Queue(q, item), name))
      == Run(Lookup(files, name), Project(q + [item], name))
    ensures AllLegal(Lookup(files, name), Project(Queue(q, item), name))
  {
    RunByFile(files, q + [item], name);
    ProjectPush(q, item, name);
    match item.act
    case Write(base, parts) =>
      WriteProjection(q, item.name, base, parts, name);
      if name == item.name {
        WriteQueuedMeans(Lookup(files, name), Project(q, name), Project(Queue(q, item), name), base, parts);
      }
    case Delete =>
      DeleteProjection(q, item.name, name);
      if name == item.name {
        var n: nat :| DeletedAt(Project(q, name), Project(Queue(q, item), name), n);
        DeleteQueuedMeans(Lookup(files, name), Project(q, name), Project(Queue(q, item), name), n);
      }
    case _ =>
  }

  lemma SameFiles(a: Files, b: Files)
    requires forall name :: Lookup(a, name) == Lookup(b, name)
    ensures a == b
  {
    forall name | name in a ensures name in b && a[name] == b[name] {
      assert Lookup(a, name) == Lookup(b, name);
    }
    forall name | name in b ensures name in a {
      assert Lookup(a, name) == Lookup(b, name);
    }
  }

  /** The rewritten queue leaves the same named files with the same bytes as the queue with the new item at its end. */
  lemma QueueKeepsMeaning<B>(files: Files, q: seq<Item<B>>, item: Item<B>)
    requires LegalQueue(files, q + [item])
    ensures RunFiles(files, Queue(q, item)) == RunFiles(files, q + [item])
    ensures LegalQueue(files, Queue(q, item))
  {
    forall name ensures Lookup(RunFiles(files, Queue(q, item)), name) == Lookup(RunFiles(files, q + [item]), name)
                     && AllLegal(Lookup(files, name), Project(Queue(q, item), name))
    {
      RunByFile(files, Queue(q, item), name);
      RunByFile(files, q + [item], name);
      RewrittenFile(files, q, item, name);
    }
    SameFiles(RunFiles(files, Queue(q, item)), RunFiles(files, q + [item]));
    LegalByFile(files, Queue(q, item));
  }

  // ---- Runs ----

  datatype Event<+B> = Arrive(item: Item<B>) | Begin | Complete

  /** What has been carried out, the item under way, and the items waiting. */
  datatype State<+B> = State(done: Files, busy: seq<Item<B>>, waiting: seq<Item<B>>)

  function Step<B>(s: State<B>, e: Event<B>): State<B> {
    match e
    case Arrive(item) => s.(waiting := Queue(s.waiting, item))
    case Begin => if s.busy == [] && s.waiting != [] then State(s.done, [s.waiting[0]], s.waiting[1..]) else s
    case Complete => State(RunFiles(s.done, s.busy), [], s.waiting)
  }

  function After<B>(files: Files, events: seq<Event<B>>): State<B> {
    if |events| == 0 then State(files, [], []) else Step(After(files, events[..|events| - 1]), events[|events| - 1])
  }

  function Arrived<B>(events: seq<Event<B>>): seq<Item<B>> {
    if |events| == 0 then []
    else
      var e := events[|events| - 1];
      if e.Arrive? then Arrived(events[..|events| - 1]) + [e.item] else Arrived(events[..|events| - 1])
  }

  lemma {:induction false} RunFilesConcat<B>(files: Files, a: seq<Item<B>>, b: seq<Item<B>>)
    ensures RunFiles(files, a + b) == RunFiles(RunFiles(files, a), b)
    ensures LegalQueue(files, a + b) <==> LegalQueue(files, a) && LegalQueue(RunFiles(files, a), b)
  {
    if |b| == 0 {
      assert a + b == a;
    } else {
      var front := b[..|b| - 1];
      assert (a + b)[..|a + b| - 1] == a + front;
      RunFilesConcat(files, a, front);
    }
  }

  lemma RunFilesPush<B>(files: Files, q: seq<Item<B>>, item: Item<B>)
    ensures RunFiles(files, q + [item]) == RunFiles(RunFiles(files, q), [item])
    ensures LegalQueue(files, q + [item])
      <==> LegalQueue(files, q) && Legal(item.act, Lookup(RunFiles(files, q), item.name))
  {
    assert (q + [item])[..|q|] == q && [item][..0] == [];
  }

  /** For every run whose items are legal in the order they arrive, however arrivals, starts and completions
      interleave: what has been done, the item under way and the rewritten queue together mean exactly the
      items in order. */
  lemma {:induction false} RunsKeepMeaning<B>(files: Files, events: seq<Event<B>>)
    requires LegalQueue(files, Arrived(events))
    ensures var s := After(files, events);
      RunFiles(s.done, s.busy + s.waiting) == RunFiles(files, Arrived(events)) && LegalQueue(s.done, s.busy + s.waiting)
  {
    if |events| > 0 {
      var before, e := events[..|events| - 1], events[|events| - 1];
      if e.Arrive? { RunFilesPush(files, Arrived(before), e.item); }
      RunsKeepMeaning(files, before);
      StepKeepsMeaning(After(files, before), e, RunFiles(files, Arrived(before)));
    }
  }

  /** What one event leaves of the state's meaning: starting or completing an item changes nothing. */
  lemma StepKeepsMeaning<B>(s: State<B>, e: Event<B>, now: Files)
    requires RunFiles(s.done, s.busy + s.waiting) == now && LegalQueue(s.done, s.busy + s.waiting)
    requires e.Arrive? ==> Legal(e.item.act, Lookup(now, e.item.name))
    ensures var t := Step(s, e);
      RunFiles(t.done, t.busy + t.waiting) == (if e.Arrive? then RunFiles(now, [e.item]) else now)
      && LegalQueue(t.done, t.busy + t.waiting)
  {
    match e
    case Arrive(item) => ArrivalKeeps(s, item, now);
    case Begin => BeginKeeps(s);
    case Complete => CompleteKeeps(s);
  }

  lemma BeginKeeps<B>(s: State<B>)
    ensures Step(s, Begin).busy + Step(s, Begin).waiting == s.busy + s.waiting && Step(s, Begin).done == s.done
  {
    if s.busy == [] && s.waiting != [] { assert [s.waiting[0]] + s.waiting[1..] == s.waiting; }
  }

  lemma CompleteKeeps<B>(s: State<B>)
    ensures var t := Step(s, Complete);
      && RunFiles(t.done, t.busy + t.waiting) == RunFiles(s.done, s.busy + s.waiting)
      && (LegalQueue(s.done, s.busy + s.waiting) ==> LegalQueue(t.done, t.busy + t.waiting))
  {
    RunFilesConcat(s.done, s.busy, s.waiting);
    assert [] + s.waiting == s.waiting;
  }

  lemma ArrivalKeeps<B>(s: State<B>, item: Item<B>, now: Files)
    requires RunFiles(s.done, s.busy + s.waiting) == now && LegalQueue(s.done, s.busy + s.waiting)
    requires Legal(item.act, Lookup(now, item.name))
    ensures RunFiles(s.done, s.busy + Queue(s.waiting, item)) == RunFiles(now, [item])
    ensures LegalQueue(s.done, s.busy + Queue(s.waiting, item))
  {
    var mid := RunFiles(s.done, s.busy);
    RunFilesConcat(s.done, s.busy, s.waiting);
    RunFilesPush(mid, s.waiting, item);
    QueueKeepsMeaning(mid, s.waiting, item);
    RunFilesConcat(s.done, s.busy, Queue(s.waiting, item));
  }
}
