/** The database: named files as lengths and blocks, changed one transaction at a time. */
module FileDatabase {
  import opened FileModel
  import opened Wrappers

  class Database {
    var files: map<string, Durable>

    constructor (files: map<string, Durable>)
      ensures this.files == files
    {
      this.files := files;
    }

    function Disk(name: string): Option<Durable>
      reads this
    {
      if name in files then Some(files[name]) else None
    }

    ghost predicate Whole()
      reads this
    {
      forall name :: name in files ==> files[name].Valid()
    }

    /** A new empty file; the name index refuses a second one. */
    method Create(name: string) returns (ok: bool)
      modifies this
      ensures Disk(name) == Exec(Act.Create, old(Disk(name))) && ok == old(Disk(name)).None?
      ensures forall f :: f != name ==> Disk(f) == old(Disk(f))
    {
      ok := name !in files;
      if ok { files := files[name := Durable(0, map[])]; }
    }

    /** Writes whole blocks in key order, then the length if it differs. */
    method Put(name: string, blocks: map<nat, seq<Byte>>, size: nat) returns (ok: bool)
      modifies this
      ensures ok == old(Disk(name)).Some?
      ensures Disk(name) == if ok then Some(Durable(size, old(Disk(name)).value.blocks + blocks)) else None
      ensures forall f :: f != name ==> Disk(f) == old(Disk(f))
    {
      ok := name in files;
      if !ok { return; }
      var length := files[name].length;
      var kept := PutAll(files[name].blocks, blocks);
      if size != length { length := size; }
      files := files[name := Durable(length, kept)];
    }

    /** Shrinking deletes the blocks past the one that holds the new end; the length is set either way. */
    method Resize(name: string, size: nat) returns (ok: bool)
      modifies this
      ensures ok == old(Disk(name)).Some? && Disk(name) == Exec(Truncate(size), old(Disk(name)))
      ensures forall f :: f != name ==> Disk(f) == old(Disk(f))
    {
      ok := name in files;
      if !ok { return; }
      var d := files[name];
      var blocks := d.blocks;
      if d.length > size {
        blocks := map k | k in blocks && !(k >= size / 4096 * 4096 + 1) :: blocks[k];
        assert blocks == KeepUpTo(d.blocks, KeyOf(size));
      }
      files := files[name := Durable(size, blocks)];
    }

    method Remove(name: string) returns (ok: bool)
      modifies this
      ensures ok == old(Disk(name)).Some? && Disk(name).None?
      ensures forall f :: f != name ==> Disk(f) == old(Disk(f))
    {
      ok := name in files;
      files := files - {name};
    }

    /** A file read back: its length in zeros, each block copied over its stretch of it. */
    method ReadBack(name: string) returns (a: array<Byte>)
      requires name in files && files[name].Valid()
      ensures fresh(a) && a[..] == files[name].Content()
    {
      var d := files[name];
      a := new Byte[d.length](_ => 0);
      var keys := d.blocks.Keys;
      while keys != {}
        invariant keys <= d.blocks.Keys
        invariant forall p :: 0 <= p < d.length ==> a[p] == if KeyOf(p) in keys then 0 else d.Raw(p)
        decreases |keys|
      {
        var k := Least(keys);
        var n := if 4096 < d.length - k then 4096 else d.length - k;
        ghost var was := a[..];
        forall j | 0 <= j < n {
          a[k + j] := d.blocks[k][j];
        }
        BlockCopied(d, keys, k, was, a[..]);
        keys := keys - {k};
      }
      assert a[..] == d.Content();
    }
  }

  /** Puts each new block, lowest key first. */
  method PutAll(blocks: map<nat, seq<Byte>>, news: map<nat, seq<Byte>>) returns (r: map<nat, seq<Byte>>)
    ensures r == blocks + news
  {
    r := blocks;
    var keys := news.Keys;
    while keys != {}
      invariant keys <= news.Keys && r.Keys == blocks.Keys + (news.Keys - keys)
      invariant forall k :: k in r ==> r[k] == if k in news && k !in keys then news[k] else blocks[k]
      decreases |keys|
    {
      var k := Least(keys);
      r := r[k := news[k]];
      keys := keys - {k};
    }
  }

  lemma BlockCopied(d: Durable, keys: set<nat>, k: nat, was: seq<Byte>, now: seq<Byte>)
    requires d.Valid() && k in keys && keys <= d.blocks.Keys && |was| == |now| == d.length
    requires forall p :: 0 <= p < d.length ==> was[p] == if KeyOf(p) in keys then 0 else d.Raw(p)
    requires forall p :: 0 <= p < d.length ==> now[p] == if k <= p < k + 4096 then d.blocks[k][p - k] else was[p]
    ensures forall p :: 0 <= p < d.length ==> now[p] == if KeyOf(p) in keys - {k} then 0 else d.Raw(p)
  {
    forall p | 0 <= p < d.length ensures now[p] == if KeyOf(p) in keys - {k} then 0 else d.Raw(p) {
      if k <= p < k + 4096 { KeyUnique(k, p); }
    }
  }

  /** The next key in order. */
  method Least(keys: set<nat>) returns (k: nat)
    requires keys != {}
    ensures k in keys && forall j :: j in keys ==> k <= j
  {
    k :| k in keys;
    var rest := keys - {k};
    while rest != {}
      invariant k in keys && rest <= keys && forall i :: i in keys && i !in rest ==> k <= i
      decreases |rest|
    {
      var j :| j in rest;
      if j < k { k := j; }
      rest := rest - {j};
    }
  }
}
