/** Changes as the memory holds them, with writes that refer to a buffer, and the same changes with its bytes. */
module FileViews {
  import opened FileModel
  import opened WorkQueue

  /** A change as the memory holds it: a write refers to the buffer the file had when it was queued. */
  type Waiter = Act<array<Byte>>

  ghost function ViewAct(a: Waiter): Change
    reads if a.Write? then {a.base} else {}
  {
    match a
    case Create => Create
    case Write(base, parts) => Write(base[..], parts)
    case Truncate(size) => Truncate(size)
    case Delete => Delete
  }

  ghost function Bases(ops: seq<Waiter>): set<array<Byte>> {
    set i | 0 <= i < |ops| && ops[i].Write? :: ops[i].base
  }

  /** The changes with the bytes their buffers hold now. */
  ghost function View(ops: seq<Waiter>): (r: seq<Change>)
    reads Bases(ops)
    ensures |r| == |ops| && forall i :: 0 <= i < |ops| ==> r[i] == ViewAct(ops[i])
  {
    seq(|ops|, i requires 0 <= i < |ops| reads Bases(ops) => ViewAct(ops[i]))
  }

  lemma ViewPush(ops: seq<Waiter>, c: Waiter)
    requires !c.Write?
    ensures Bases(ops + [c]) == Bases(ops) && View(ops + [c]) == View(ops) + [ViewAct(c)]
  {
    forall a | a in Bases(ops) ensures a in Bases(ops + [c]) {
      var i :| 0 <= i < |ops| && ops[i].Write? && ops[i].base == a;
      assert (ops + [c])[i] == ops[i];
    }
  }

  lemma ViewCons(c: Waiter, ops: seq<Waiter>)
    ensures View([c] + ops) == [ViewAct(c)] + View(ops)
    ensures Bases(ops) <= Bases([c] + ops)
    ensures c.Write? ==> c.base in Bases([c] + ops)
  {
    forall a | a in Bases(ops) ensures a in Bases([c] + ops) {
      var i :| 0 <= i < |ops| && ops[i].Write? && ops[i].base == a;
      assert ([c] + ops)[i + 1] == ops[i];
    }
    if c.Write? { assert ([c] + ops)[0] == c; }
  }

  /** The waiting changes of one file before and after the oldest item leaves. */
  ghost predicate Split(item: Item<array<Byte>>, before: seq<Waiter>, after: seq<Waiter>, f: string) {
    && Bases(after) <= Bases(before)
    && (f != item.name ==> before == after)
    && (f == item.name ==> before == [item.act] + after && (item.act.Write? ==> item.act.base in Bases(before)))
  }

  lemma FirstSplit(q: seq<Item<array<Byte>>>, f: string)
    requires |q| > 0
    ensures Split(q[0], Project(q, f), Project(q[1..], f), f)
  {
    ProjectFirst(q, f);
    var after := Project(q[1..], f);
    if q[0].name == f { ViewCons(q[0].act, after); } else { assert [] + after == after; }
  }

  lemma ViewWritten(ops: seq<Waiter>, ops': seq<Waiter>, base: array<Byte>, parts: seq<Part>)
    requires WriteQueued(ops, ops', base, parts)
    ensures Bases(ops') <= Bases(ops) + {base} && WriteQueued(View(ops), View(ops'), base[..], parts)
  {
    forall a | a in Bases(ops') ensures a in Bases(ops) + {base} {
      var i :| 0 <= i < |ops'| && ops'[i].Write? && ops'[i].base == a;
      if i < |ops| { assert ops[i].Write? && (ops[i].base == a); }
    }
    var v, v' := View(ops), View(ops');
    if ops' == ops + [Write(base, parts)] {
      assert v' == v + [Write(base[..], parts)];
    } else {
      assert v' == v[..|v| - 1] + [Write(v[|v| - 1].base, v[|v| - 1].parts + parts)];
    }
  }

  lemma ViewDeleted(ops: seq<Waiter>, ops': seq<Waiter>)
    requires DeleteQueued(ops, ops')
    ensures Bases(ops') <= Bases(ops) && DeleteQueued(View(ops), View(ops'))
  {
    var n: nat :| DeletedAt(ops, ops', n);
    forall a | a in Bases(ops') ensures a in Bases(ops) {
      var i :| 0 <= i < |ops'| && ops'[i].Write? && ops'[i].base == a;
      assert ops[i] == ops'[i];
    }
    var v, v' := View(ops), View(ops');
    if ops' == ops[..n] + [Delete] { assert v' == v[..n] + [Delete]; }
    assert DeletedAt(v, v', n);
  }

  // ---- Writes over a buffer ----

  lemma SpliceAgain(s: seq<Byte>, w: Part)
    ensures |Splice(s, w)| == |s| ==> Splice(Splice(s, w), w) == Splice(s, w)
  {
  }

  lemma PatchedOne(s: seq<Byte>, w: Part)
    ensures Patched(s, [w]) == Splice(s, w)
  {
    PatchedPush(s, [], w);
    assert [] + [w] == [w];
  }
}
