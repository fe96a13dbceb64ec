/** One file, in memory and in the database: what each change keeps between the two while items wait. */
module FileAgreement {
  import opened FileModel
  import opened WorkQueue
  import opened Wrappers

  /** The file the database will hold once `ops` are carried out is there when the in-memory one is,
      has its length, and is whole. */
  ghost predicate Pending(disk: Option<Durable>, ops: seq<Change>, file: Option<seq<Byte>>) {
    && AllFit(disk, ops) && (disk.Some? ==> disk.value.Valid())
    && Flush(disk, ops).Some? == file.Some?
    && (file.Some? ==> Flush(disk, ops).value.length == |file.value|)
  }

  /** A write still waiting at the end, applied to the content it carries, gives the in-memory file. */
  ghost predicate Mirrored(waiting: seq<Change>, file: Option<seq<Byte>>) {
    |waiting| > 0 && waiting[|waiting| - 1].Write? && file.Some? ==>
      var last := waiting[|waiting| - 1];
      Patched(last.base, last.parts) == file.value
  }

  /** And its bytes will be those in memory. */
  ghost predicate Agrees(disk: Option<Durable>, ops: seq<Change>, file: Option<seq<Byte>>) {
    file.Some? ==>
      Flush(disk, ops).Some? && forall p :: 0 <= p < |file.value| ==> Flush(disk, ops).value.Raw(p) == file.value[p]
  }

  /** Or those in memory but for some positions, where memory has zeros. */
  ghost predicate AgreesBut(disk: Option<Durable>, ops: seq<Change>, file: Option<seq<Byte>>, exposed: set<nat>) {
    file.Some? ==>
      && Flush(disk, ops).Some?
      && SameBut(Flush(disk, ops).value, file.value, exposed)
  }

  ghost predicate SameBut(d: Durable, file: seq<Byte>, exposed: set<nat>) {
    && (forall p :: 0 <= p < |file| && p !in exposed ==> d.Raw(p) == file[p])
    && (forall p :: p in exposed ==> p < |file| && file[p] == 0)
  }

  function Range(from: nat, to: nat): (r: set<nat>)
    ensures forall p: nat :: p in r <==> from <= p < to
  {
    if from >= to then {} else Range(from, to - 1) + {to - 1}
  }

  /** The positions a write leaves exposed: the gap before it is added, and the blocks it touches are made good. */
  function Uncovered(exposed: set<nat>, length: nat, w: Part): set<nat> {
    set p | p in exposed + Range(length, w.offset) && KeyOf(p) !in KeysOf(w)
  }

  /** The positions a truncation leaves exposed: what it adds to the file, and what it does not cut off. */
  function Recut(exposed: set<nat>, length: nat, size: nat): set<nat> {
    set p | p in exposed + Range(length, size) && p < size
  }

  // ---- A write in place also reaches the content earlier writes carry ----

  /** `b` is `a` after some bytes covered by `w` were overwritten. */
  ghost predicate Overwritten(a: seq<Byte>, b: seq<Byte>, w: Part) {
    |a| == |b| && forall p :: 0 <= p < |a| && !w.Covers(p) ==> a[p] == b[p]
  }

  ghost predicate RebasedChange(c: Change, d: Change, w: Part) {
    if c.Write? then d.Write? && d.parts == c.parts && Overwritten(c.base, d.base, w) else d == c
  }

  ghost predicate Rebased(ops: seq<Change>, ops': seq<Change>, w: Part) {
    |ops| == |ops'| && forall i :: 0 <= i < |ops| ==> RebasedChange(ops[i], ops'[i], w)
  }

  ghost predicate SameOutside(d: Option<Durable>, e: Option<Durable>, w: Part) {
    && d.Some? == e.Some?
    && (d.Some? ==>
          && d.value.length == e.value.length
          && forall p: nat :: !w.Covers(p) ==> d.value.Raw(p) == e.value.Raw(p))
  }

  lemma OverwrittenPatched(a: seq<Byte>, b: seq<Byte>, parts: seq<Part>, w: Part)
    requires Overwritten(a, b, w)
    ensures Overwritten(Patched(a, parts), Patched(b, parts), w)
  {
    PatchedFromEqual(a, b, parts, |a|);
    forall p | 0 <= p < |Patched(a, parts)| && !w.Covers(p) ensures Patched(a, parts)[p] == Patched(b, parts)[p] {
      PatchedFromEqual(a, b, parts, p);
    }
  }

  lemma RebasedExec(c: Change, c': Change, d: Option<Durable>, e: Option<Durable>, w: Part)
    requires RebasedChange(c, c', w) && SameOutside(d, e, w)
    requires d.Some? ==> d.value.blocks.Keys == e.value.blocks.Keys
    ensures SameOutside(Exec(c, d), Exec(c', e), w)
    ensures Exec(c, d).Some? ==> Exec(c, d).value.blocks.Keys == Exec(c', e).value.blocks.Keys
    ensures Fits(c, d) ==> Fits(c', e)
  {
    match c
    case Write(base, parts) =>
      if d.Some? {
        OverwrittenPatched(base, c'.base, parts, w);
        forall p: nat | !w.Covers(p) ensures Exec(c, d).value.Raw(p) == Exec(c', e).value.Raw(p) {
          WriteRaw(base, parts, d.value, p);
          WriteRaw(c'.base, parts, e.value, p);
        }
      }
    case Truncate(size) =>
      if d.Some? { RebasedTruncate(size, d.value, e.value, w); }
    case _ =>
  }

  lemma RebasedTruncate(size: nat, d: Durable, e: Durable, w: Part)
    requires SameOutside(Some(d), Some(e), w) && d.blocks.Keys == e.blocks.Keys
    ensures SameOutside(Exec(Truncate(size), Some(d)), Exec(Truncate(size), Some(e)), w)
    ensures Exec(Truncate(size), Some(d)).value.blocks.Keys == Exec(Truncate(size), Some(e)).value.blocks.Keys
  {
    var x, y := Exec(Truncate(size), Some(d)).value, Exec(Truncate(size), Some(e)).value;
    assert forall k :: k in x.blocks <==> k in y.blocks;
    forall p: nat | !w.Covers(p) ensures x.Raw(p) == y.Raw(p) {
      assert d.Raw(p) == e.Raw(p);
    }
  }

  lemma {:induction false} RebasedFlush(disk: Option<Durable>, ops: seq<Change>, ops': seq<Change>, w: Part)
    requires Rebased(ops, ops', w)
    ensures SameOutside(Flush(disk, ops), Flush(disk, ops'), w)
    ensures Flush(disk, ops).Some? ==> Flush(disk, ops).value.blocks.Keys == Flush(disk, ops').value.blocks.Keys
    ensures AllFit(disk, ops) ==> AllFit(disk, ops')
  {
    if |ops| > 0 {
      var n := |ops| - 1;
      RebasedFlush(disk, ops[..n], ops'[..n], w);
      RebasedExec(ops[n], ops'[n], Flush(disk, ops[..n]), Flush(disk, ops'[..n]), w);
    }
  }

  // ---- Writing ----

  lemma SpliceOverwritten(a: seq<Byte>, b: seq<Byte>, w: Part)
    requires Overwritten(a, b, w)
    ensures Splice(a, w) == Splice(b, w)
  {
  }

  /** Between the old end and a write that starts past it, every byte of a block no waiting write touches is zero. */
  ghost predicate GapClear(d: Durable, from: nat, w: Part, touched: set<nat>) {
    forall p :: from <= p < w.offset && KeyOf(p) !in touched ==> d.Raw(p) == 0
  }

  /** What a write does to the bytes the blocks will hold: those in a block it touches are the new file's. */
  ghost predicate Rewrites(before: Durable, after: Durable, file: seq<Byte>, touched: set<nat>) {
    forall p: nat :: after.Raw(p) == if KeyOf(p) in touched then ByteAt(file, p) else before.Raw(p)
  }

  /** The last change is a write that covers `w` and carries the whole new file; outside the blocks its parts touch
      the bytes are what all changes would have left. */
  lemma LastWriteShows(disk: Option<Durable>, front: seq<Change>, base: seq<Byte>, parts: seq<Part>, now: Durable,
                       file: seq<Byte>)
    requires Flush(disk, front).Some? && Patched(base, parts) == file
    requires forall p: nat :: KeyOf(p) !in TouchedKeys(parts) ==> Flush(disk, front).value.Raw(p) == now.Raw(p)
    ensures Flush(disk, front + [Write(base, parts)]).Some?
    ensures Rewrites(now, Flush(disk, front + [Write(base, parts)]).value, file, TouchedKeys(parts))
  {
    FlushPush(disk, front, Write(base, parts));
    var after := Flush(disk, front + [Write(base, parts)]).value;
    forall p: nat ensures after.Raw(p) == if KeyOf(p) in TouchedKeys(parts) then ByteAt(file, p) else now.Raw(p) {
      WriteRaw(base, parts, Flush(disk, front).value, p);
    }
  }

  /** A byte outside the blocks that are touched is outside the write. */
  lemma OutsideTouched(parts: seq<Part>, w: Part, p: nat)
    requires |parts| > 0 && parts[|parts| - 1] == w
    ensures KeysOf(w) <= TouchedKeys(parts)
    ensures w.Covers(p) ==> KeyOf(p) in TouchedKeys(parts)
  {
  }

  /** Bytes equal before a write stay so exactly when the gap it leaves is clear. */
  lemma GapDecides(before: Durable, after: Durable, m: seq<Byte>, w: Part, touched: set<nat>)
    requires Rewrites(before, after, Splice(m, w), touched) && KeysOf(w) <= touched
    requires forall p :: 0 <= p < |m| ==> before.Raw(p) == m[p]
    ensures (forall p :: 0 <= p < |Splice(m, w)| ==> after.Raw(p) == Splice(m, w)[p])
       <==> GapClear(before, |m|, w, touched)
  {
    var file := Splice(m, w);
    GapInFile(m, w);
    forall p | 0 <= p < |file| && !(|m| <= p < w.offset && KeyOf(p) !in touched) ensures after.Raw(p) == file[p] {
      if KeyOf(p) !in touched { assert !w.Covers(p); }
    }
    forall p | |m| <= p < w.offset && KeyOf(p) !in touched ensures after.Raw(p) == before.Raw(p) && file[p] == 0 {
    }
  }

  /** A write exposes the gap before it, and nothing in the blocks it touches. */
  lemma WriteExposes(before: Durable, after: Durable, m: seq<Byte>, w: Part, touched: set<nat>, exposed: set<nat>)
    requires Rewrites(before, after, Splice(m, w), touched) && KeysOf(w) <= touched && SameBut(before, m, exposed)
    ensures SameBut(after, Splice(m, w), Uncovered(exposed, |m|, w))
  {
    var file, e := Splice(m, w), Uncovered(exposed, |m|, w);
    GapInFile(m, w);
    forall p | 0 <= p < |file| && p !in e ensures after.Raw(p) == file[p] {
      if KeyOf(p) !in touched {
        assert !w.Covers(p);
        assert p !in exposed && p !in Range(|m|, w.offset);
      }
    }
    forall p | p in e ensures p < |file| && file[p] == 0 {
      assert !w.Covers(p);
      assert p in exposed || p in Range(|m|, w.offset);
    }
  }

  lemma TruncateExposes(before: Durable, after: Durable, m: seq<Byte>, size: nat, exposed: set<nat>)
    requires forall p :: 0 <= p < size ==> after.Raw(p) == before.Raw(p)
    requires SameBut(before, m, exposed)
    ensures SameBut(after, Resized(m, size), Recut(exposed, |m|, size))
  {
    forall p | 0 <= p < size && p !in Recut(exposed, |m|, size) ensures after.Raw(p) == Resized(m, size)[p] {
      assert p !in exposed && p !in Range(|m|, size);
    }
  }

  lemma GapInFile(m: seq<Byte>, w: Part)
    ensures forall p :: |m| <= p < w.offset ==> p < |Splice(m, w)| && Splice(m, w)[p] == 0
  {
    assert |Splice(m, w)| >= w.offset;
  }

  /** The write queued by itself after `ops`; `now` is what the waiting changes would have left. */
  lemma AppendedKeeps(disk: Option<Durable>, ops: seq<Change>, now: Option<Durable>, m: seq<Byte>, base: seq<Byte>,
                      w: Part)
    requires AllFit(disk, ops) && SameOutside(now, Flush(disk, ops), w)
    requires now.Some? && now.value.length == |m| == |base|
    requires disk.Some? ==> disk.value.Valid()
    requires Patched(base, [w]) == Splice(m, w)
    ensures Pending(disk, ops + [Write(base, [w])], Some(Splice(m, w)))
    ensures Rewrites(now.value, Flush(disk, ops + [Write(base, [w])]).value, Splice(m, w), TouchedKeys([w]))
  {
    AllFitPush(disk, ops, Write(base, [w]));
    FlushPush(disk, ops, Write(base, [w]));
    forall p: nat | KeyOf(p) !in TouchedKeys([w]) ensures Flush(disk, ops).value.Raw(p) == now.value.Raw(p) {
      OutsideTouched([w], w, p);
    }
    LastWriteShows(disk, ops, base, [w], now.value, Splice(m, w));
  }

  /** A write to the file in memory, done in place or not, and queued: `busy'` and `carried` are the change
      under way and the waiting ones as the memory write left the content they carry, `waiting'` what queuing
      made of them. */
  ghost predicate Queues(busy: seq<Change>, busy': seq<Change>, waiting: seq<Change>, carried: seq<Change>,
                         waiting': seq<Change>, base: seq<Byte>, w: Part) {
    Rebased(busy, busy', w) && Rebased(waiting, carried, w) && WriteQueued(carried, waiting', base, [w])
  }

  /** The blocks the last waiting write touches. */
  ghost function LastTouched(waiting: seq<Change>): set<nat> {
    if |waiting| > 0 && waiting[|waiting| - 1].Write? then TouchedKeys(waiting[|waiting| - 1].parts) else {}
  }

  lemma RebasedAll(disk: Option<Durable>, busy: seq<Change>, busy': seq<Change>, waiting: seq<Change>,
                   carried: seq<Change>, w: Part)
    requires Rebased(busy, busy', w) && Rebased(waiting, carried, w)
    ensures SameOutside(Flush(disk, busy + waiting), Flush(disk, busy' + carried), w)
    ensures AllFit(disk, busy + waiting) ==> AllFit(disk, busy' + carried)
  {
    assert Rebased(busy + waiting, busy' + carried, w);
    RebasedFlush(disk, busy + waiting, busy' + carried, w);
  }

  /** The last waiting change is a write that carries the whole new file and covers `w`. */
  ghost predicate Shows(before: Durable, disk: Option<Durable>, busy: seq<Change>, waiting: seq<Change>,
                        file: seq<Byte>, w: Part) {
    && Pending(disk, busy + waiting, Some(file)) && Mirrored(waiting, Some(file))
    && KeysOf(w) <= LastTouched(waiting)
    && Rewrites(before, Flush(disk, busy + waiting).value, file, LastTouched(waiting))
  }

  lemma AppendedShows(disk: Option<Durable>, busy: seq<Change>, carried: seq<Change>, now: Option<Durable>,
                      m: seq<Byte>, base: seq<Byte>, w: Part)
    requires AllFit(disk, busy + carried) && SameOutside(now, Flush(disk, busy + carried), w)
    requires now.Some? && now.value.length == |m| == |base|
    requires disk.Some? ==> disk.value.Valid()
    requires Patched(base, [w]) == Splice(m, w)
    ensures Shows(now.value, disk, busy, carried + [Write(base, [w])], Splice(m, w), w)
  {
    assert busy + (carried + [Write(base, [w])]) == (busy + carried) + [Write(base, [w])];
    AppendedKeeps(disk, busy + carried, now, m, base, w);
    OutsideTouched([w], w, 0);
  }

  /** It keeps presence and length together, and decides the bytes of the blocks its last waiting write touches. */
  lemma WriteShows(disk: Option<Durable>, busy: seq<Change>, busy': seq<Change>,
                   waiting: seq<Change>, carried: seq<Change>, waiting': seq<Change>,
                   m: seq<Byte>, base: seq<Byte>, w: Part)
    requires Pending(disk, busy + waiting, Some(m)) && Mirrored(waiting, Some(m))
    requires Queues(busy, busy', waiting, carried, waiting', base, w)
    requires |base| == |m| && Patched(base, [w]) == Splice(m, w)
    ensures Shows(Flush(disk, busy + waiting).value, disk, busy', waiting', Splice(m, w), w)
  {
    RebasedAll(disk, busy, busy', waiting, carried, w);
    if waiting' == carried + [Write(base, [w])] {
      AppendedShows(disk, busy', carried, Flush(disk, busy + waiting), m, base, w);
    } else {
      var n := |carried| - 1;
      MergedPatched(waiting[n], carried[n], m, w);
      MergedKeeps(disk, Flush(disk, busy + waiting), busy', carried, m, w);
    }
  }

  /** Bytes equal before it stay so exactly when the gap it leaves past the old end shows no stale byte. */
  lemma WriteKeeps(disk: Option<Durable>, busy: seq<Change>, busy': seq<Change>,
                   waiting: seq<Change>, carried: seq<Change>, waiting': seq<Change>,
                   m: seq<Byte>, base: seq<Byte>, w: Part)
    requires Pending(disk, busy + waiting, Some(m)) && Mirrored(waiting, Some(m))
    requires Queues(busy, busy', waiting, carried, waiting', base, w)
    requires |base| == |m| && Patched(base, [w]) == Splice(m, w)
    ensures Pending(disk, busy' + waiting', Some(Splice(m, w))) && Mirrored(waiting', Some(Splice(m, w)))
    ensures Agrees(disk, busy + waiting, Some(m)) ==>
      (Agrees(disk, busy' + waiting', Some(Splice(m, w)))
       <==> GapClear(Flush(disk, busy + waiting).value, |m|, w, LastTouched(waiting')))
  {
    WriteShows(disk, busy, busy', waiting, carried, waiting', m, base, w);
    if Agrees(disk, busy + waiting, Some(m)) {
      GapDecides(Flush(disk, busy + waiting).value, Flush(disk, busy' + waiting').value, m, w, LastTouched(waiting'));
    }
  }

  /** A write queued for a name the database will not have leaves it without one, however the queue was rewritten
      and whatever an overwritten buffer did to earlier writes. */
  lemma StrayWriteKeeps(disk: Option<Durable>, busy: seq<Change>, busy': seq<Change>,
                        waiting: seq<Change>, carried: seq<Change>, waiting': seq<Change>, base: seq<Byte>, w: Part)
    requires Pending(disk, busy + waiting, None)
    requires Queues(busy, busy', waiting, carried, waiting', base, w)
    ensures Pending(disk, busy' + waiting', None)
  {
    var ops := busy' + carried;
    RebasedAll(disk, busy, busy', waiting, carried, w);
    if waiting' == carried + [Write(base, [w])] {
      StrayPush(disk, busy', carried, Write(base, [w]));
    } else {
      var n := |carried| - 1;
      assert ops == (busy' + carried[..n]) + [carried[n]];
      StrayPop(disk, busy' + carried[..n], carried[n]);
      StrayPush(disk, busy', carried[..n], Write(carried[n].base, carried[n].parts + [w]));
    }
  }

  lemma StrayPop(disk: Option<Durable>, ops: seq<Change>, c: Change)
    requires Pending(disk, ops + [c], None) && c.Write?
    ensures Pending(disk, ops, None)
  {
    FlushPush(disk, ops, c);
    AllFitConcat(disk, ops, [c]);
  }

  /** A write or truncation that finds no file changes nothing. */
  lemma StrayPush(disk: Option<Durable>, busy: seq<Change>, waiting: seq<Change>, c: Change)
    requires Pending(disk, busy + waiting, None) && (c.Write? || c.Truncate?)
    ensures Pending(disk, busy + (waiting + [c]), None)
  {
    assert busy + (waiting + [c]) == (busy + waiting) + [c];
    AllFitPush(disk, busy + waiting, c);
    FlushPush(disk, busy + waiting, c);
  }

  /** The write joined to the last one, in terms of what the waiting changes would leave. */
  lemma MergedShows(disk: Option<Durable>, front: seq<Change>, base: seq<Byte>, parts: seq<Part>,
                    now: Option<Durable>, all: Option<Durable>, m: seq<Byte>, w: Part)
    requires Flush(disk, front).Some? && all == Exec(Write(base, parts), Flush(disk, front)) && SameOutside(now, all, w)
    requires Patched(base, parts + [w]) == Splice(m, w)
    ensures Flush(disk, front + [Write(base, parts + [w])]).Some?
    ensures Rewrites(now.value, Flush(disk, front + [Write(base, parts + [w])]).value, Splice(m, w),
                     TouchedKeys(parts + [w]))
  {
    var merged := parts + [w];
    assert merged[..|parts|] == parts;
    forall p: nat | KeyOf(p) !in TouchedKeys(merged) ensures Flush(disk, front).value.Raw(p) == now.value.Raw(p) {
      OutsideTouched(merged, w, p);
      WriteRaw(base, parts, Flush(disk, front).value, p);
    }
    LastWriteShows(disk, front, base, merged, now.value, Splice(m, w));
  }

  lemma MergedPatched(was: Change, last: Change, m: seq<Byte>, w: Part)
    requires was.Write? && last.Write? && RebasedChange(was, last, w) && Patched(was.base, was.parts) == m
    ensures Patched(last.base, last.parts + [w]) == Splice(m, w)
  {
    OverwrittenPatched(was.base, last.base, was.parts, w);
    PatchedPush(last.base, last.parts, w);
    SpliceOverwritten(m, Patched(last.base, last.parts), w);
  }

  lemma MergedPending(disk: Option<Durable>, front: seq<Change>, last: Change, merged: Change, file: seq<Byte>)
    requires AllFit(disk, front + [last]) && Flush(disk, front + [last]).Some? && (disk.Some? ==> disk.value.Valid())
    requires last.Write? && merged.Write? && merged.base == last.base && Patched(merged.base, merged.parts) == file
    ensures Flush(disk, front).Some? && Flush(disk, front + [last]) == Exec(last, Flush(disk, front))
    ensures Pending(disk, front + [merged], Some(file))
  {
    FlushPush(disk, front, last);
    FlushPush(disk, front, merged);
    AllFitConcat(disk, front, [last]);
    FlushOne(Flush(disk, front), last);
    AllFitPush(disk, front, merged);
  }

  lemma MergedKeeps(disk: Option<Durable>, now: Option<Durable>, busy: seq<Change>, carried: seq<Change>,
                    m: seq<Byte>, w: Part)
    requires |carried| > 0 && carried[|carried| - 1].Write?
    requires var last := carried[|carried| - 1]; Patched(last.base, last.parts + [w]) == Splice(m, w)
    requires AllFit(disk, busy + carried) && now.Some? && SameOutside(now, Flush(disk, busy + carried), w)
    requires disk.Some? ==> disk.value.Valid()
    ensures var last := carried[|carried| - 1];
      var waiting' := carried[..|carried| - 1] + [Write(last.base, last.parts + [w])];
      Shows(now.value, disk, busy, waiting', Splice(m, w), w)
  {
    var n := |carried| - 1;
    var last := carried[n];
    var front, merged := busy + carried[..n], Write(last.base, last.parts + [w]);
    assert busy + carried == front + [last];
    assert busy + (carried[..n] + [merged]) == front + [merged] && (carried[..n] + [merged])[n] == merged;
    MergedLast(disk, front, last, now, m, w);
  }

  lemma MergedLast(disk: Option<Durable>, front: seq<Change>, last: Change, now: Option<Durable>, m: seq<Byte>, w: Part)
    requires last.Write? && Patched(last.base, last.parts + [w]) == Splice(m, w)
    requires AllFit(disk, front + [last]) && now.Some? && SameOutside(now, Flush(disk, front + [last]), w)
    requires disk.Some? ==> disk.value.Valid()
    ensures var merged := Write(last.base, last.parts + [w]);
      && Pending(disk, front + [merged], Some(Splice(m, w))) && KeysOf(w) <= TouchedKeys(merged.parts)
      && Rewrites(now.value, Flush(disk, front + [merged]).value, Splice(m, w), TouchedKeys(merged.parts))
  {
    var merged := Write(last.base, last.parts + [w]);
    MergedPending(disk, front, last, merged, Splice(m, w));
    MergedShows(disk, front, last.base, last.parts, now, Flush(disk, front + [last]), m, w);
    OutsideTouched(merged.parts, w, 0);
  }

  // ---- The other changes ----

  lemma TruncateKeeps(disk: Option<Durable>, busy: seq<Change>, waiting: seq<Change>, m: seq<Byte>, size: nat)
    requires Pending(disk, busy + waiting, Some(m))
    ensures Pending(disk, busy + (waiting + [Truncate(size)]), Some(Resized(m, size)))
    ensures Mirrored(waiting + [Truncate(size)], Some(Resized(m, size)))
    ensures forall p :: 0 <= p < size ==>
      Flush(disk, busy + (waiting + [Truncate(size)])).value.Raw(p) == Flush(disk, busy + waiting).value.Raw(p)
    ensures Agrees(disk, busy + waiting, Some(m)) ==>
      (Agrees(disk, busy + (waiting + [Truncate(size)]), Some(Resized(m, size)))
       <==> forall p :: |m| <= p < size ==> Flush(disk, busy + waiting).value.Raw(p) == 0)
  {
    var ops := busy + waiting;
    var d := Flush(disk, ops).value;
    assert busy + (waiting + [Truncate(size)]) == ops + [Truncate(size)];
    AllFitPush(disk, ops, Truncate(size));
    FlushPush(disk, ops, Truncate(size));
    forall p | 0 <= p < size ensures Exec(Truncate(size), Some(d)).value.Raw(p) == d.Raw(p) {
      TruncateRaw(size, d, p);
    }
  }

  lemma CreateKeeps(disk: Option<Durable>, busy: seq<Change>, waiting: seq<Change>)
    requires Pending(disk, busy + waiting, None)
    ensures Pending(disk, busy + (waiting + [Create]), Some([])) && Mirrored(waiting + [Create], Some([]))
    ensures Agrees(disk, busy + (waiting + [Create]), Some([]))
  {
    assert busy + (waiting + [Create]) == (busy + waiting) + [Create];
    AllFitPush(disk, busy + waiting, Create);
    FlushPush(disk, busy + waiting, Create);
  }

  /** Cut back to `n`, and the item there kept or cancelled. */
  lemma CutBack(disk: Option<Durable>, busy: seq<Change>, waiting: seq<Change>, n: nat)
    requires AllFit(disk, busy + waiting) && n <= |waiting|
    ensures AllFit(disk, busy + waiting[..n])
    ensures n > 0 ==>
      AllFit(disk, busy + waiting[..n - 1]) && Fits(waiting[n - 1], Flush(disk, busy + waiting[..n - 1]))
      && Flush(disk, busy + waiting[..n]) == Exec(waiting[n - 1], Flush(disk, busy + waiting[..n - 1]))
  {
    var kept := busy + waiting[..n];
    assert busy + waiting == kept + waiting[n..];
    AllFitConcat(disk, kept, waiting[n..]);
    if n > 0 { assert kept[..|kept| - 1] == busy + waiting[..n - 1]; }
  }

  lemma DeleteKeeps(disk: Option<Durable>, busy: seq<Change>, waiting: seq<Change>, waiting': seq<Change>,
                    file: Option<seq<Byte>>)
    requires Pending(disk, busy + waiting, file) && DeleteQueued(waiting, waiting')
    ensures Pending(disk, busy + waiting', None) && Mirrored(waiting', None) && Agrees(disk, busy + waiting', None)
  {
    var n: nat :| DeletedAt(waiting, waiting', n);
    CutBack(disk, busy, waiting, n);
    if waiting' == waiting[..n] + [Delete] {
      DeleteLast(disk, busy, waiting[..n]);
    } else {
      assert waiting' == if waiting[n - 1].Delete? then waiting[..n] else waiting[..n - 1];
    }
    assert AllFit(disk, busy + waiting') && Flush(disk, busy + waiting').None?;
  }

  lemma DeleteLast(disk: Option<Durable>, busy: seq<Change>, waiting: seq<Change>)
    requires AllFit(disk, busy + waiting)
    ensures AllFit(disk, busy + (waiting + [Delete])) && Flush(disk, busy + (waiting + [Delete])).None?
  {
    assert busy + (waiting + [Delete]) == (busy + waiting) + [Delete];
    AllFitPush(disk, busy + waiting, Delete);
    FlushPush(disk, busy + waiting, Delete);
  }

  /** Carrying out the oldest change moves it from the list to the database. */
  lemma CommitKeeps(disk: Option<Durable>, c: Change, waiting: seq<Change>, file: Option<seq<Byte>>)
    requires Pending(disk, [c] + waiting, file)
    ensures Pending(Exec(c, disk), waiting, file)
    ensures Flush(disk, [c] + waiting) == Flush(Exec(c, disk), waiting)
    ensures Agrees(disk, [c] + waiting, file) ==> Agrees(Exec(c, disk), waiting, file)
  {
    AllFitConcat(disk, [c], waiting);
    FlushConcat(disk, [c], waiting);
    FlushOne(disk, c);
    ExecValid(c, disk);
  }

  lemma FlushOne(disk: Option<Durable>, c: Change)
    ensures Flush(disk, [c]) == Exec(c, disk) && (AllFit(disk, [c]) <==> Fits(c, disk))
  {
    assert [c][..0] == [];
    assert Flush(disk, [c][..0]) == disk;
  }

  // ---- Where the two part ----

  lemma FlushTwo(d: Option<Durable>, a: Change, b: Change)
    ensures Flush(d, [a, b]) == Exec(b, Exec(a, d))
  {
    FlushOne(d, a);
    FlushPush(d, [a], b);
    assert [a] + [b] == [a, b];
  }

  function OneByte(): Part { Part(0, [7]) }

  lemma OneBytePatched()
    ensures Patched([], [OneByte()]) == [7]
  {
    var parts := [OneByte()];
    assert parts[..0] == [];
    assert Splice([], OneByte()) == [7];
  }

  lemma OneByteTouched()
    ensures TouchedKeys([OneByte()]) == {0}
  {
    var parts := [OneByte()];
    assert parts[..0] == [];
    assert KeysOf(OneByte()) == {0} by { assert OneByte().Covers(0) && KeyOf(0) == 0; }
  }

  lemma OneByteFile()
    ensures Flush(None, [Create, Write([], [OneByte()])]) == Some(Durable(1, map[0 := BlockAt([7], 0)]))
  {
    FlushTwo(None, Create, Write([], [OneByte()]));
    OneBytePatched();
    OneByteTouched();
    var blocks := OverlayBlocks([], [OneByte()]);
    assert blocks == map[0 := BlockAt([7], 0)];
    assert map[] + blocks == blocks;
  }

  /** A truncation that grows a file shows again a byte an earlier one cut off: memory holds a zero there,
      the database the old byte. */
  lemma CutByteReturns()
    ensures Run(None, CutAndGrow()) == Some([0])
    ensures var d := Flush(None, CutAndGrow()); d.Some? && d.value.Content() == [7]
  {
    CutInMemory();
    CutInDatabase();
  }

  function CutAndGrow(): seq<Change> {
    [Create, Write([], [OneByte()])] + [Truncate(0), Truncate(1)]
  }

  lemma CutInDatabase()
    ensures var d := Flush(None, CutAndGrow()); d.Some? && d.value.Content() == [7]
  {
    var d := Durable(1, map[0 := BlockAt([7], 0)]);
    OneByteFile();
    FlushConcat(None, [Create, Write([], [OneByte()])], [Truncate(0), Truncate(1)]);
    FlushTwo(Some(d), Truncate(0), Truncate(1));
    var e := Exec(Truncate(1), Exec(Truncate(0), Some(d))).value;
    assert KeyOf(0) == 0 && e.blocks[0] == BlockAt([7], 0);
    assert e.Content() == [7];
  }

  lemma CutInMemory()
    ensures Run(None, CutAndGrow()) == Some([0])
  {
    var write: Change := Write([], [OneByte()]);
    RunTwo(Create, write, None);
    assert Splice([], OneByte()) == [7];
    PatchedPush([], [], OneByte());
    assert [] + [OneByte()] == [OneByte()];
    RunTwo(Truncate(0), Truncate(1), Some([7]));
    assert Resized(Resized([7], 0), 1) == [0];
    RunConcat(None, [Create, write], [Truncate(0), Truncate(1)]);
  }

  lemma RunTwo(a: Change, b: Change, file: Option<seq<Byte>>)
    ensures Run(file, [a, b]) == Apply(b, Apply(a, file))
  {
    RunPush(file, [], a);
    RunPush(file, [a], b);
    assert [] + [a] == [a] && [a] + [b] == [a, b];
  }

  lemma {:induction false} RunConcat(file: Option<seq<Byte>>, a: seq<Change>, b: seq<Change>)
    ensures Run(file, a + b) == Run(Run(file, a), b)
  {
    if |b| == 0 {
      assert a + b == a;
    } else {
      assert (a + b)[..|a + b| - 1] == a + b[..|b| - 1];
      RunConcat(file, a, b[..|b| - 1]);
    }
  }
}
