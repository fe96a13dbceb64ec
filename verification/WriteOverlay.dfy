/** The block overlay a batch of writes is turned into before it reaches the database. */
module WriteOverlay {
  import opened FileModel

  /** A chunk inside one block: what writing it does to that block, to other blocks, and to the touched keys. */
  lemma ChunkKeys(w: Part, r: nat, m: nat, key: nat)
    requires r + m <= |w.bytes| && m > 0 && key == KeyOf(w.offset + r) && w.offset + r + m <= key + 4096
    ensures KeysOf(Part(w.offset, w.bytes[..r + m])) == KeysOf(Part(w.offset, w.bytes[..r])) + {key}
  {
    var a, b := Part(w.offset, w.bytes[..r]), Part(w.offset, w.bytes[..r + m]);
    forall k | k in KeysOf(b) ensures k in KeysOf(a) + {key} {
      var p := TouchedBy(b, k);
      if p >= w.offset + r { KeyUnique(key, p); } else { assert a.Covers(p); }
    }
    forall k | k in KeysOf(a) + {key} ensures k in KeysOf(b) {
      if k == key {
        assert b.Covers(w.offset + r);
      } else {
        var p := TouchedBy(a, k);
        assert b.Covers(p);
      }
    }
  }

  lemma ChunkBlock(s: seq<Byte>, w: Part, r: nat, m: nat, key: nat, k: nat)
    requires r + m <= |w.bytes| && m > 0 && key == KeyOf(w.offset + r) && w.offset + r + m <= key + 4096
    requires k % 4096 == 0
    ensures var before := BlockAt(Splice(s, Part(w.offset, w.bytes[..r])), k);
      var after := BlockAt(Splice(s, Part(w.offset, w.bytes[..r + m])), k);
      && (k != key ==> after == before)
      && (k == key ==>
          var o := w.offset + r - key;
          forall j :: 0 <= j < 4096 ==> after[j] == if o <= j < o + m then w.bytes[r + j - o] else before[j])
  {
    var a, b := Part(w.offset, w.bytes[..r]), Part(w.offset, w.bytes[..r + m]);
    var x, y := Splice(s, a), Splice(s, b);
    if k != key {
      forall j | 0 <= j < 4096 ensures BlockAt(y, k)[j] == BlockAt(x, k)[j] {
        KeyUnique(k, k + j);
        if w.offset + r <= k + j < w.offset + r + m { KeyUnique(key, k + j); }
      }
    }
  }

  lemma UntouchedBlock(base: seq<Byte>, parts: seq<Part>, k: nat)
    requires k % 4096 == 0 && k !in TouchedKeys(parts)
    ensures BlockAt(Patched(base, parts), k) == BlockAt(base, k)
  {
    var x := Patched(base, parts);
    forall j | 0 <= j < 4096 ensures BlockAt(x, k)[j] == BlockAt(base, k)[j] {
      KeyUnique(k, k + j);
      CoveredIsTouched(parts, k + j);
      PatchedOutside(base, parts, k + j);
    }
  }

  lemma PushPart(base: seq<Byte>, parts: seq<Part>, w: Part)
    ensures Patched(base, parts + [w]) == Splice(Patched(base, parts), w)
    ensures TouchedKeys(parts + [w]) == TouchedKeys(parts) + KeysOf(w)
  {
    PatchedPush(base, parts, w);
    assert (parts + [w])[..|parts|] == parts;
  }

  /** Blocks exactly where the writes touch, each holding its stretch of the patched file. */
  ghost predicate Holds(base: seq<Byte>, parts: seq<Part>, blocks: map<nat, seq<Byte>>) {
    blocks == OverlayBlocks(base, parts)
  }

  function Overwritten(s: seq<Byte>, at: nat, bytes: seq<Byte>): seq<Byte>
    requires at + |bytes| <= |s|
  {
    s[..at] + bytes + s[at + |bytes|..]
  }

  /** The blocks after a chunk is put into one of them, which starts as the file's. */
  function Chunked(base: seq<Byte>, blocks: map<nat, seq<Byte>>, key: nat, at: nat, bytes: seq<Byte>)
    : map<nat, seq<Byte>>
    requires key in blocks ==> |blocks[key]| == 4096
    requires at + |bytes| <= 4096
  {
    blocks[key := Overwritten(if key in blocks then blocks[key] else BlockAt(base, key), at, bytes)]
  }

  /** A chunk placed in its block gives the block of the longer write. */
  lemma ChunkPlaced(s: seq<Byte>, w: Part, r: nat, m: nat, key: nat, block: seq<Byte>)
    requires r + m <= |w.bytes| && m > 0 && key == KeyOf(w.offset + r) && w.offset + r + m <= key + 4096
    requires block == BlockAt(Splice(s, Part(w.offset, w.bytes[..r])), key)
    ensures Overwritten(block, w.offset + r - key, w.bytes[r..r + m])
         == BlockAt(Splice(s, Part(w.offset, w.bytes[..r + m])), key)
  {
    ChunkBlock(s, w, r, m, key, key);
  }

  /** A chunk placed in its block takes the overlay from `r` bytes of a write to `r + m`. */
  lemma ChunkDone(base: seq<Byte>, parts: seq<Part>, w: Part, r: nat, m: nat, key: nat, blocks: map<nat, seq<Byte>>)
    requires r + m <= |w.bytes| && m > 0 && key == KeyOf(w.offset + r) && w.offset + r + m <= key + 4096
    requires Holds(base, parts + [Part(w.offset, w.bytes[..r])], blocks)
    ensures key in blocks ==> |blocks[key]| == 4096
    ensures Holds(base, parts + [Part(w.offset, w.bytes[..r + m])],
                  Chunked(base, blocks, key, w.offset + r - key, w.bytes[r..r + m]))
  {
    ChunkInBlock(base, parts, w, r, m, key, blocks, if key in blocks then blocks[key] else BlockAt(base, key));
  }

  lemma ChunkInBlock(base: seq<Byte>, parts: seq<Part>, w: Part, r: nat, m: nat, key: nat,
                     blocks: map<nat, seq<Byte>>, block: seq<Byte>)
    requires r + m <= |w.bytes| && m > 0 && key == KeyOf(w.offset + r) && w.offset + r + m <= key + 4096
    requires Holds(base, parts + [Part(w.offset, w.bytes[..r])], blocks)
    requires block == if key in blocks then blocks[key] else BlockAt(base, key)
    ensures |block| == 4096
    ensures Holds(base, parts + [Part(w.offset, w.bytes[..r + m])],
                  blocks[key := Overwritten(block, w.offset + r - key, w.bytes[r..r + m])])
  {
    var s := Patched(base, parts);
    var a, b := Part(w.offset, w.bytes[..r]), Part(w.offset, w.bytes[..r + m]);
    PushPart(base, parts, a);
    PushPart(base, parts, b);
    if key !in blocks { UntouchedBlock(base, parts + [a], key); }
    ChunkPlaced(s, w, r, m, key, block);
    ChunkKeys(w, r, m, key);
    TouchedAligned(parts + [a]);
    OtherBlocks(s, w, r, m, key, blocks.Keys);
  }

  lemma OtherBlocks(s: seq<Byte>, w: Part, r: nat, m: nat, key: nat, keys: set<nat>)
    requires r + m <= |w.bytes| && m > 0 && key == KeyOf(w.offset + r) && w.offset + r + m <= key + 4096
    requires forall k :: k in keys ==> k % 4096 == 0
    ensures forall k :: k in keys && k != key ==>
      BlockAt(Splice(s, Part(w.offset, w.bytes[..r + m])), k) == BlockAt(Splice(s, Part(w.offset, w.bytes[..r])), k)
  {
    forall k | k in keys && k != key
      ensures BlockAt(Splice(s, Part(w.offset, w.bytes[..r + m])), k)
        == BlockAt(Splice(s, Part(w.offset, w.bytes[..r])), k)
    {
      ChunkBlock(s, w, r, m, key, k);
    }
  }

  lemma TouchedAligned(parts: seq<Part>)
    ensures forall k :: k in TouchedKeys(parts) ==> k % 4096 == 0
  {
    forall k | k in TouchedKeys(parts) ensures k % 4096 == 0 { TouchedKey(parts, k); }
  }

  lemma EmptyWrite(base: seq<Byte>, parts: seq<Part>, w: Part, blocks: map<nat, seq<Byte>>)
    requires Holds(base, parts, blocks) && w.bytes == []
    ensures Holds(base, parts + [w], blocks)
  {
    PushPart(base, parts, w);
    assert KeysOf(w) == {};
    var x, y := Patched(base, parts), Patched(base, parts + [w]);
    forall k | k in blocks ensures BlockAt(x, k) == BlockAt(y, k) {
      assert forall j :: 0 <= j < 4096 ==> BlockAt(x, k)[j] == BlockAt(y, k)[j];
    }
  }

  /** The block a write is at, and how much of the rest of the write goes into it. */
  method NextChunk(q: nat, n: nat) returns (key: nat, m: nat)
    requires n > 0
    ensures key == KeyOf(q) && 0 < m <= n && q + m <= key + 4096 && (m == n || q + m == key + 4096)
  {
    key := KeyOf(q);
    var o := q - key;
    m := if o != 0 then (if 4096 - o < n then 4096 - o else n) else (if 4096 < n then 4096 else n);
  }

  /** Blocks to be written over a file of which `original` is the in-memory array. */
  class Overlay {
    const original: array<Byte>
    var blocks: map<nat, seq<Byte>>
    var size: nat

    ghost predicate Valid(parts: seq<Part>)
      reads this, original
    {
      Holds(original[..], parts, blocks) && size == |Patched(original[..], parts)|
    }

    constructor (original: array<Byte>)
      ensures this.original == original && Valid([])
    {
      this.original := original;
      blocks := map[];
      size := original.Length;
    }

    /** Puts bytes into the block at `key`, which starts as a copy of the file's own bytes there, zero past its end. */
    method PutChunk(key: nat, at: nat, bytes: seq<Byte>)
      requires key in blocks ==> |blocks[key]| == 4096
      requires at + |bytes| <= 4096
      modifies this`blocks
      ensures blocks == Chunked(original[..], old(blocks), key, at, bytes)
    {
      if key !in blocks {
        var s := new Byte[4096](_ => 0);
        var q := original.Length;
        if q > key {
          var n := if q - key < 4096 then q - key else 4096;
          forall j | 0 <= j < n {
            s[j] := original[key + j];
          }
        }
        assert s[..] == BlockAt(original[..], key);
        blocks := blocks[key := s[..]];
      }
      blocks := blocks[key := Overwritten(blocks[key], at, bytes)];
    }

    /** The bytes of a write from `r` to `r + m`, which lie in one block. */
    method ApplyChunk(w: Part, r: nat, m: nat, key: nat, ghost base: seq<Byte>, ghost parts: seq<Part>)
      requires r + m <= |w.bytes| && m > 0 && key == KeyOf(w.offset + r) && w.offset + r + m <= key + 4096
      requires base == original[..] && Holds(base, parts + [Part(w.offset, w.bytes[..r])], blocks)
      modifies this`blocks
      ensures Holds(base, parts + [Part(w.offset, w.bytes[..r + m])], blocks)
    {
      ChunkDone(base, parts, w, r, m, key, blocks);
      PutChunk(key, w.offset + r - key, w.bytes[r..r + m]);
    }

    /** One write, cut at block boundaries. */
    method Apply(w: Part, ghost parts: seq<Part>)
      requires Valid(parts)
      modifies this
      ensures Valid(parts + [w])
    {
      ghost var base := original[..];
      EmptyWrite(base, parts, Part(w.offset, []), blocks);
      ApplyBytes(w, base, parts);
      size := Max(size, w.offset + |w.bytes|);
      PatchedPush(base, parts, w);
    }

    /** The bytes from `r` on that go into one block. */
    method ApplyNext(w: Part, r: nat, ghost base: seq<Byte>, ghost parts: seq<Part>) returns (m: nat)
      requires r < |w.bytes| && base == original[..] && Holds(base, parts + [Part(w.offset, w.bytes[..r])], blocks)
      modifies this`blocks
      ensures 0 < m <= |w.bytes| - r && Holds(base, parts + [Part(w.offset, w.bytes[..r + m])], blocks)
    {
      var key;
      key, m := NextChunk(w.offset + r, |w.bytes| - r);
      ApplyChunk(w, r, m, key, base, parts);
    }

    method ApplyBytes(w: Part, ghost base: seq<Byte>, ghost parts: seq<Part>)
      requires base == original[..] && Holds(base, parts + [Part(w.offset, [])], blocks)
      modifies this`blocks
      ensures Holds(base, parts + [w], blocks)
    {
      var s, r := |w.bytes|, 0;
      assert w.bytes[..0] == [];
      while r < s
        invariant 0 <= r <= s
        invariant Holds(base, parts + [Part(w.offset, w.bytes[..r])], blocks)
      {
        var m := ApplyNext(w, r, base, parts);
        r := r + m;
      }
      assert Part(w.offset, w.bytes[..s]) == w;
    }

    /** All the writes of a batch, in order. */
    method ApplyAll(batch: seq<Part>)
      requires Valid([])
      modifies this
      ensures blocks == OverlayBlocks(original[..], batch) && size == |Patched(original[..], batch)|
    {
      var o := 0;
      while o < |batch|
        invariant 0 <= o <= |batch| && Valid(batch[..o])
      {
        Apply(batch[o], batch[..o]);
        assert batch[..o + 1] == batch[..o] + [batch[o]];
        o := o + 1;
      }
      assert batch[..o] == batch;
    }
  }

  /** Block overlay equals plain byte writes: every byte below the final length, read from the touched
      block, else from the original, else zero, is the byte of the sequentially written file. */
  lemma OverlayReadsAsPatched(base: seq<Byte>, parts: seq<Part>, p: nat)
    ensures var blocks := OverlayBlocks(base, parts);
      && (forall k :: k in blocks ==> k % 4096 == 0 && |blocks[k]| == 4096)
      && ByteAt(Patched(base, parts), p)
         == if KeyOf(p) in blocks then blocks[KeyOf(p)][p - KeyOf(p)] else ByteAt(base, p)
  {
    forall k | k in OverlayBlocks(base, parts) ensures k % 4096 == 0 { TouchedKey(parts, k); }
    if KeyOf(p) !in TouchedKeys(parts) {
      CoveredIsTouched(parts, p);
      PatchedOutside(base, parts, p);
    }
  }
}
