/** Files as byte strings, and the same files as the database keeps them: a length and 4096-byte blocks. */
module FileModel {
  import opened Wrappers

  type Byte = x: int | 0 <= x < 256

  // ---- Byte strings ----

  /** A byte of a file, zero past its end. */
  function ByteAt(s: seq<Byte>, p: nat): Byte {
    if p < |s| then s[p] else 0
  }

  /** One write: bytes and where they go. */
  datatype Part = Part(offset: nat, bytes: seq<Byte>) {
    function End(): nat { offset + |bytes| }

    predicate Covers(p: nat) { offset <= p < End() }
  }

  function Max(a: nat, b: nat): nat {
    if a < b then b else a
  }

  /** The file after a write; a write past the end leaves zeros between. */
  function Splice(s: seq<Byte>, w: Part): (r: seq<Byte>)
    ensures |r| == Max(|s|, w.End())
    ensures forall p :: 0 <= p < |r| ==> r[p] == if w.Covers(p) then w.bytes[p - w.offset] else ByteAt(s, p)
  {
    seq(Max(|s|, w.End()), p requires p >= 0 => if w.Covers(p) then w.bytes[p - w.offset] else ByteAt(s, p))
  }

  /** The file after a list of writes, in order. */
  function Patched(base: seq<Byte>, parts: seq<Part>): seq<Byte> {
    if |parts| == 0 then base else Splice(Patched(base, parts[..|parts| - 1]), parts[|parts| - 1])
  }

  /** A file cut or zero-extended to a size. */
  function Resized(s: seq<Byte>, size: nat): (r: seq<Byte>)
    ensures |r| == size && forall p :: 0 <= p < size ==> r[p] == ByteAt(s, p)
  {
    seq(size, p requires p >= 0 => ByteAt(s, p))
  }

  lemma PatchedPush(base: seq<Byte>, parts: seq<Part>, w: Part)
    ensures Patched(base, parts + [w]) == Splice(Patched(base, parts), w)
  {
    assert (parts + [w])[..|parts|] == parts;
  }

  lemma {:induction false} PatchedConcat(base: seq<Byte>, first: seq<Part>, second: seq<Part>)
    ensures Patched(base, first + second) == Patched(Patched(base, first), second)
  {
    if |second| == 0 {
      assert first + second == first;
    } else {
      var s := second[..|second| - 1];
      assert first + second == (first + s) + [second[|second| - 1]];
      PatchedPush(base, first + s, second[|second| - 1]);
      PatchedConcat(base, first, s);
    }
  }

  predicate CoveredBy(parts: seq<Part>, p: nat) {
    exists i :: 0 <= i < |parts| && parts[i].Covers(p)
  }

  /** A byte no write covers is the base's. */
  lemma {:induction false} PatchedOutside(base: seq<Byte>, parts: seq<Part>, p: nat)
    requires !CoveredBy(parts, p)
    ensures ByteAt(Patched(base, parts), p) == ByteAt(base, p)
  {
    if |parts| > 0 {
      var n := |parts| - 1;
      assert !parts[n].Covers(p);
      forall i | 0 <= i < n ensures !parts[..n][i].Covers(p) {
        assert parts[..n][i] == parts[i];
      }
      PatchedOutside(base, parts[..n], p);
    }
  }

  /** Bases of one length that agree at `p` give patched files that agree at `p`. */
  lemma {:induction false} PatchedFromEqual(a: seq<Byte>, b: seq<Byte>, parts: seq<Part>, p: nat)
    requires |a| == |b| && ByteAt(a, p) == ByteAt(b, p)
    ensures |Patched(a, parts)| == |Patched(b, parts)|
    ensures ByteAt(Patched(a, parts), p) == ByteAt(Patched(b, parts), p)
  {
    if |parts| > 0 { PatchedFromEqual(a, b, parts[..|parts| - 1], p); }
  }

  lemma {:induction false} PatchedLonger(base: seq<Byte>, parts: seq<Part>)
    ensures |Patched(base, parts)| >= |base|
    ensures forall i :: 0 <= i < |parts| ==> parts[i].End() <= |Patched(base, parts)|
  {
    if |parts| > 0 {
      var n := |parts| - 1;
      PatchedLonger(base, parts[..n]);
      forall i | 0 <= i < |parts| ensures parts[i].End() <= |Patched(base, parts)| {
        if i < n { assert parts[i] == parts[..n][i]; }
      }
    }
  }

  // ---- Blocks ----

  /** The key of the block that holds a byte. */
  function KeyOf(p: nat): (k: nat)
    ensures k % 4096 == 0 && k <= p < k + 4096
  {
    p / 4096 * 4096
  }

  lemma KeyUnique(k: nat, p: nat)
    requires k % 4096 == 0 && k <= p < k + 4096
    ensures KeyOf(p) == k && p - k == p % 4096
  {
  }

  /** The blocks a write touches. */
  function KeysOf(w: Part): (keys: set<nat>) {
    set p | w.offset <= p < w.End() :: KeyOf(p)
  }

  /** A byte of the write in a block it touches. */
  lemma TouchedBy(w: Part, k: nat) returns (p: nat)
    requires k in KeysOf(w)
    ensures w.Covers(p) && KeyOf(p) == k
  {
    p :| w.offset <= p < w.End() && KeyOf(p) == k;
  }

  function TouchedKeys(parts: seq<Part>): set<nat> {
    if |parts| == 0 then {} else TouchedKeys(parts[..|parts| - 1]) + KeysOf(parts[|parts| - 1])
  }

  lemma {:induction false} CoveredIsTouched(parts: seq<Part>, p: nat)
    ensures CoveredBy(parts, p) ==> KeyOf(p) in TouchedKeys(parts)
  {
    if |parts| > 0 {
      var n := |parts| - 1;
      CoveredIsTouched(parts[..n], p);
      if CoveredBy(parts, p) && !parts[n].Covers(p) {
        var i :| 0 <= i < |parts| && parts[i].Covers(p);
        assert parts[..n][i].Covers(p);
      }
    }
  }

  lemma {:induction false} TouchedKey(parts: seq<Part>, k: nat)
    requires k in TouchedKeys(parts)
    ensures k % 4096 == 0 && exists i :: 0 <= i < |parts| && k < parts[i].End()
  {
    var n := |parts| - 1;
    if k in KeysOf(parts[n]) {
      var p := TouchedBy(parts[n], k);
    } else {
      TouchedKey(parts[..n], k);
      var i :| 0 <= i < n && k < parts[..n][i].End();
      assert k < parts[i].End();
    }
  }

  /** The block of a file at a key, zero past the end. */
  function BlockAt(s: seq<Byte>, k: nat): (b: seq<Byte>)
    ensures |b| == 4096 && forall j :: 0 <= j < 4096 ==> b[j] == ByteAt(s, k + j)
  {
    seq<Byte>(4096, j requires j >= 0 => ByteAt(s, k + j))
  }

  /** What a batch of writes puts into the database: every touched block in full, taken from the patched file. */
  function OverlayBlocks(base: seq<Byte>, parts: seq<Part>): map<nat, seq<Byte>> {
    map k | k in TouchedKeys(parts) :: BlockAt(Patched(base, parts), k)
  }

  // ---- A file in the database ----

  datatype Durable = Durable(length: nat, blocks: map<nat, seq<Byte>>) {

    /** Blocks are whole, aligned, and none starts past the end. */
    ghost predicate Valid() {
      forall k :: k in blocks ==> k % 4096 == 0 && |blocks[k]| == 4096 && k <= length
    }

    /** The byte the blocks hold for a position, whether or not the file is long enough. */
    function Raw(p: nat): Byte {
      if KeyOf(p) in blocks then ByteAt(blocks[KeyOf(p)], p - KeyOf(p)) else 0
    }

    /** The file read back: blocks in place over zeros. */
    function Content(): seq<Byte> {
      seq(length, p requires p >= 0 => Raw(p))
    }
  }

  /** One queued change to a file. A write carries the content the file had when the write was queued. */
  datatype Act<+B> =
    | Create
    | Write(base: B, parts: seq<Part>)
    | Truncate(size: nat)
    | Delete

  type Change = Act<seq<Byte>>

  /** A change applied to the database's file; a change whose file is missing fails and changes nothing. */
  function Exec(c: Change, d: Option<Durable>): Option<Durable> {
    match c
    case Create => if d.None? then Some(Durable(0, map[])) else d
    case Delete => None
    case Write(base, parts) =>
      if d.None? then None
      else Some(Durable(|Patched(base, parts)|, d.value.blocks + OverlayBlocks(base, parts)))
    case Truncate(size) =>
      if d.None? then None
      else Some(Durable(size, if d.value.length > size then KeepUpTo(d.value.blocks, KeyOf(size)) else d.value.blocks))
  }

  /** A shrinking truncation drops the blocks past the one holding the new end, and keeps that one whole. */
  function KeepUpTo(blocks: map<nat, seq<Byte>>, last: nat): map<nat, seq<Byte>> {
    map k | k in blocks && k <= last :: blocks[k]
  }

  function Flush(d: Option<Durable>, ops: seq<Change>): Option<Durable> {
    if |ops| == 0 then d else Exec(ops[|ops| - 1], Flush(d, ops[..|ops| - 1]))
  }

  lemma FlushPush(d: Option<Durable>, ops: seq<Change>, c: Change)
    ensures Flush(d, ops + [c]) == Exec(c, Flush(d, ops))
  {
    assert (ops + [c])[..|ops|] == ops;
  }

  lemma {:induction false} FlushConcat(d: Option<Durable>, first: seq<Change>, second: seq<Change>)
    ensures Flush(d, first + second) == Flush(Flush(d, first), second)
  {
    if |second| == 0 {
      assert first + second == first;
    } else {
      var s := second[..|second| - 1];
      assert first + second == (first + s) + [second[|second| - 1]];
      FlushPush(d, first + s, second[|second| - 1]);
      FlushConcat(d, first, s);
    }
  }

  /** A change meets the file it was made for, or is a write or truncation that finds none and fails. */
  predicate Fits(c: Change, d: Option<Durable>) {
    match c
    case Create => d.None?
    case Write(base, _) => d.Some? ==> d.value.length == |base|
    case Truncate(_) => true
    case Delete => true
  }

  predicate AllFit(d: Option<Durable>, ops: seq<Change>) {
    |ops| > 0 ==> AllFit(d, ops[..|ops| - 1]) && Fits(ops[|ops| - 1], Flush(d, ops[..|ops| - 1]))
  }

  lemma AllFitPush(d: Option<Durable>, ops: seq<Change>, c: Change)
    requires AllFit(d, ops) && Fits(c, Flush(d, ops))
    ensures AllFit(d, ops + [c])
  {
    assert (ops + [c])[..|ops|] == ops;
  }

  lemma {:induction false} AllFitConcat(d: Option<Durable>, first: seq<Change>, second: seq<Change>)
    ensures AllFit(d, first + second) <==> AllFit(d, first) && AllFit(Flush(d, first), second)
  {
    if |second| == 0 {
      assert first + second == first;
    } else {
      var s := second[..|second| - 1];
      assert (first + second)[..|first + second| - 1] == first + s;
      AllFitConcat(d, first, s);
      FlushConcat(d, first, s);
    }
  }

  /** Fitting changes keep blocks whole, aligned and within the length, so reading back never runs off a block. */
  lemma ExecValid(c: Change, d: Option<Durable>)
    requires Fits(c, d) && (d.Some? ==> d.value.Valid())
    ensures Exec(c, d).Some? ==> Exec(c, d).value.Valid()
  {
    match c
    case Create =>
    case Delete =>
    case Truncate(size) =>
    case Write(base, parts) =>
      if d.Some? {
        var e := Exec(c, d).value;
        PatchedLonger(base, parts);
        forall k | k in e.blocks ensures k % 4096 == 0 && |e.blocks[k]| == 4096 && k <= e.length {
          if k in TouchedKeys(parts) { TouchedKey(parts, k); }
        }
      }
  }

  lemma {:induction false} FlushValid(d: Option<Durable>, ops: seq<Change>)
    requires AllFit(d, ops) && (d.Some? ==> d.value.Valid())
    ensures Flush(d, ops).Some? ==> Flush(d, ops).value.Valid()
  {
    if |ops| > 0 {
      FlushValid(d, ops[..|ops| - 1]);
      ExecValid(ops[|ops| - 1], Flush(d, ops[..|ops| - 1]));
    }
  }

  // ---- What a write and a truncation do to the bytes ----

  /** After a write, a byte in a touched block is the patched file's; any other is what the blocks held. */
  lemma WriteRaw(base: seq<Byte>, parts: seq<Part>, d: Durable, p: nat)
    ensures var e := Exec(Write(base, parts), Some(d)).value;
      e.Raw(p) == if KeyOf(p) in TouchedKeys(parts) then ByteAt(Patched(base, parts), p) else d.Raw(p)
  {
  }

  lemma TruncateRaw(size: nat, d: Durable, p: nat)
    requires p < size
    ensures Exec(Truncate(size), Some(d)).value.Raw(p) == d.Raw(p)
  {
    assert KeyOf(p) <= KeyOf(size);
  }
}
