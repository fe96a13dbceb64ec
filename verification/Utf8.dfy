/** UTF-16 strings written as UTF-8 into a buffer of three bytes per code unit. */
module Utf8 {
  import opened Wrappers

  type Unit = x: int | 0 <= x < 0x1_0000
  type Byte = x: int | 0 <= x < 256

  const REPLACEMENT := 0xFFFD

  predicate High(u: Unit) { 0xD800 <= u < 0xDC00 }

  predicate Low(u: Unit) { 0xDC00 <= u < 0xE000 }

  /** A Unicode scalar value: a code point that is not a surrogate. */
  type CodePoint = c: int | 0 <= c < 0xD800 || 0xE000 <= c < 0x11_0000

  // ---- What a string means ----

  function Paired(h: Unit, l: Unit): CodePoint
    requires High(h) && Low(l)
  {
    0x1_0000 + h % 1024 * 1024 + l % 1024
  }

  /** The code points of a string, with U+FFFD for every surrogate without a partner. */
  function CodePoints(s: seq<Unit>): seq<CodePoint> {
    if |s| == 0 then []
    else if High(s[0]) && |s| > 1 && Low(s[1]) then [Paired(s[0], s[1])] + CodePoints(s[2..])
    else [if High(s[0]) || Low(s[0]) then REPLACEMENT else s[0]] + CodePoints(s[1..])
  }

  // ---- The same read the other way ----

  /** The UTF-16 form of one code point, by section 2.1 of RFC 2781. */
  function Units(c: CodePoint): seq<Unit> {
    if c < 0x1_0000 then [c] else [0xD800 + (c - 0x1_0000) / 1024, 0xDC00 + (c - 0x1_0000) % 1024]
  }

  function AllUnits(cs: seq<CodePoint>): seq<Unit> {
    if |cs| == 0 then [] else Units(cs[0]) + AllUnits(cs[1..])
  }

  /** A high surrogate without a low one after it, or a low one without a high one before it. */
  predicate Unpaired(s: seq<Unit>, i: nat)
    requires i < |s|
  {
    || (0xD800 <= s[i] < 0xDC00 && !(i + 1 < |s| && 0xDC00 <= s[i + 1] < 0xE000))
    || (0xDC00 <= s[i] < 0xE000 && !(i > 0 && 0xD800 <= s[i - 1] < 0xDC00))
  }

  /** The string with U+FFFD for each unpaired surrogate. */
  function Mended(s: seq<Unit>): (r: seq<Unit>)
    ensures |r| == |s| && forall i :: 0 <= i < |s| ==> r[i] == if Unpaired(s, i) then 0xFFFD else s[i]
  {
    seq(|s|, i requires 0 <= i < |s| => if Unpaired(s, i) then 0xFFFD else s[i])
  }

  /** The units of a string's code points are the string, mended; so the string itself if no surrogate is unpaired. */
  lemma {:induction false} UnitsBack(s: seq<Unit>)
    ensures AllUnits(CodePoints(s)) == Mended(s)
    ensures (forall i :: 0 <= i < |s| ==> !Unpaired(s, i)) ==> Mended(s) == s
  {
    if |s| > 0 {
      var k := if High(s[0]) && |s| > 1 && Low(s[1]) then 2 else 1;
      UnitsBack(s[k..]);
      assert CodePoints(s)[1..] == CodePoints(s[k..]);
      FirstUnits(s, k);
      MendedRest(s, k);
    }
  }

  lemma PairUnits(h: Unit, l: Unit)
    requires High(h) && Low(l)
    ensures Units(Paired(h, l)) == [h, l]
  {
    var a, b := h % 1024, l % 1024;
    assert h == 0xD800 + a && l == 0xDC00 + b;
    assert (a * 1024 + b) / 1024 == a && (a * 1024 + b) % 1024 == b;
  }

  lemma FirstUnits(s: seq<Unit>, k: nat)
    requires |s| > 0 && k == if High(s[0]) && |s| > 1 && Low(s[1]) then 2 else 1
    ensures Units(CodePoints(s)[0]) == Mended(s)[..k]
  {
    if k == 2 { PairUnits(s[0], s[1]); }
  }

  lemma MendedRest(s: seq<Unit>, k: nat)
    requires |s| > 0 && k == if High(s[0]) && |s| > 1 && Low(s[1]) then 2 else 1
    ensures Mended(s[k..]) == Mended(s)[k..]
  {
    forall i | 0 <= i < |s| - k ensures Unpaired(s[k..], i) <==> Unpaired(s, i + k) {
    }
  }

  /** The octets of one code point, by the table of section 3 of RFC 3629. */
  function Octets(c: CodePoint): seq<Byte> {
    if c < 0x80 then [Octet(c)]
    else if c < 0x800 then [Octet(0xC0 + c / 64), Octet(0x80 + c % 64)]
    else if c < 0x1_0000 then [Octet(0xE0 + c / 4096), Octet(0x80 + c / 64 % 64), Octet(0x80 + c % 64)]
    else [Octet(0xF0 + c / 262144), Octet(0x80 + c / 4096 % 64), Octet(0x80 + c / 64 % 64), Octet(0x80 + c % 64)]
  }

  function Octet(x: int): Byte
    requires 0 <= x < 256
  {
    x
  }

  function AllOctets(cs: seq<CodePoint>): seq<Byte> {
    if |cs| == 0 then [] else Octets(cs[0]) + AllOctets(cs[1..])
  }

  /** Examples of section 7 of RFC 3629. */
  lemma RfcExamples()
    ensures AllOctets([0x41, 0x2262, 0x391, 0x2E]) == [0x41, 0xE2, 0x89, 0xA2, 0xCE, 0x91, 0x2E]
    ensures Octets(0x233B4) == [0xF0, 0xA3, 0x8E, 0xB4]
  {
    assert AllOctets([0x2E]) == [0x2E];
    assert AllOctets([0x391, 0x2E]) == [0xCE, 0x91, 0x2E] by { assert [0x391, 0x2E][1..] == [0x2E]; }
    assert AllOctets([0x2262, 0x391, 0x2E]) == [0xE2, 0x89, 0xA2] + [0xCE, 0x91, 0x2E] by {
      assert [0x2262, 0x391, 0x2E][1..] == [0x391, 0x2E];
    }
    assert [0x41, 0x2262, 0x391, 0x2E][1..] == [0x2262, 0x391, 0x2E];
  }

  // ---- Reading it back ----

  predicate Continues(b: Byte) { b / 64 == 2 }

  /** The bits an octet carries. */
  function Payload(b: Byte, n: int): int
    requires n > 0
  {
    b as int % n
  }

  /** The code point at the front of a byte string and how many octets it takes, if they are well formed:
      no overlong form, no surrogate, nothing past U+10FFFF. */
  function FirstOf(b: seq<Byte>): Option<(CodePoint, nat)> {
    if |b| == 0 then None
    else if b[0] < 0x80 then Some((b[0], 1))
    else if b[0] / 32 == 6 then
      if |b| < 2 || !Continues(b[1]) then None
      else Checked(Payload(b[0], 32) * 64 + Payload(b[1], 64), 0x80, 2)
    else if b[0] / 16 == 14 then
      if |b| < 3 || !Continues(b[1]) || !Continues(b[2]) then None
      else Checked(Payload(b[0], 16) * 4096 + Payload(b[1], 64) * 64 + Payload(b[2], 64), 0x800, 3)
    else if b[0] / 8 == 30 then
      if |b| < 4 || !Continues(b[1]) || !Continues(b[2]) || !Continues(b[3]) then None
      else Checked(Payload(b[0], 8) * 262144 + Payload(b[1], 64) * 4096 + Payload(b[2], 64) * 64
        + Payload(b[3], 64), 0x1_0000, 4)
    else None
  }

  function Checked(c: int, least: int, n: nat): (r: Option<(CodePoint, nat)>)
    ensures r.Some? ==> r.value.1 == n
  {
    if c >= least && (0 <= c < 0xD800 || 0xE000 <= c < 0x11_0000) then Some((c, n)) else None
  }

  function Decoded(b: seq<Byte>): Option<seq<CodePoint>>
    decreases |b|
  {
    if |b| == 0 then Some([])
    else
      var f := FirstOf(b);
      if f.None? || f.value.1 == 0 || f.value.1 > |b| then None
      else
        var rest := Decoded(b[f.value.1..]);
        if rest.None? then None else Some([f.value.0] + rest.value)
  }

  lemma TwoParts(c: int)
    requires 0x80 <= c < 0x800
    ensures 2 <= c / 64 < 32 && (0xC0 + c / 64) / 32 == 6 && (0xC0 + c / 64) % 32 == c / 64
    ensures (0x80 + c % 64) / 64 == 2 && (0x80 + c % 64) % 64 == c % 64
  {
  }

  lemma Tail(x: int)
    requires 0 <= x < 64
    ensures (0x80 + x) / 64 == 2 && (0x80 + x) % 64 == x
  {
  }

  lemma FirstOctets(c: CodePoint, rest: seq<Byte>)
    ensures FirstOf(Octets(c) + rest) == Some((c, |Octets(c)|))
  {
    var b := Octets(c) + rest;
    Tail(c % 64);
    Tail(c / 64 % 64);
    Tail(c / 4096 % 64);
    if c < 0x80 {
      assert b[0] == c;
    } else if c < 0x800 {
      TwoParts(c);
      FirstTwo(b, c);
    } else if c < 0x1_0000 {
      ThreeParts(c);
      FirstThree(b, c);
    } else {
      FourParts(c);
      FirstFour(b, c);
    }
  }

  lemma FirstTwo(b: seq<Byte>, c: CodePoint)
    requires |b| >= 2 && b[0] / 32 == 6 && Continues(b[1]) && Payload(b[0], 32) * 64 + Payload(b[1], 64) == c >= 0x80
    ensures FirstOf(b) == Some((c, 2))
  {
  }

  lemma FirstThree(b: seq<Byte>, c: CodePoint)
    requires |b| >= 3 && b[0] / 16 == 14 && Continues(b[1]) && Continues(b[2])
    requires Payload(b[0], 16) * 4096 + Payload(b[1], 64) * 64 + Payload(b[2], 64) == c >= 0x800
    ensures FirstOf(b) == Some((c, 3))
  {
  }

  lemma FirstFour(b: seq<Byte>, c: CodePoint)
    requires |b| >= 4 && b[0] / 8 == 30 && Continues(b[1]) && Continues(b[2]) && Continues(b[3])
    requires Payload(b[0], 8) * 262144 + Payload(b[1], 64) * 4096 + Payload(b[2], 64) * 64 + Payload(b[3], 64)
      == c >= 0x1_0000
    ensures FirstOf(b) == Some((c, 4))
  {
  }

  lemma ThreeParts(c: int)
    requires 0x800 <= c < 0x1_0000
    ensures c / 4096 < 16 && (0xE0 + c / 4096) / 16 == 14 && (0xE0 + c / 4096) % 16 == c / 4096
    ensures c / 4096 * 4096 + c / 64 % 64 * 64 + c % 64 == c
  {
    Regroup(c, 64);
  }

  lemma FourParts(c: int)
    requires 0x1_0000 <= c < 0x11_0000
    ensures c / 262144 < 8 && (0xF0 + c / 262144) / 8 == 30 && (0xF0 + c / 262144) % 8 == c / 262144
    ensures c / 262144 * 262144 + c / 4096 % 64 * 4096 + c / 64 % 64 * 64 + c % 64 == c
  {
    Regroup(c, 64);
    Regroup(c, 4096);
  }

  lemma Regroup(c: int, n: int)
    requires c >= 0 && (n == 64 || n == 4096)
    ensures c / n / 64 == c / (n * 64) && c / n == c / (n * 64) * 64 + c / n % 64
  {
  }

  /** What is written reads back: the encoding is well formed and loses nothing. */
  lemma {:induction false} ReadsBack(cs: seq<CodePoint>)
    ensures Decoded(AllOctets(cs)) == Some(cs)
  {
    if |cs| > 0 {
      var rest := AllOctets(cs[1..]);
      FirstOctets(cs[0], rest);
      assert (Octets(cs[0]) + rest)[|Octets(cs[0])|..] == rest;
      ReadsBack(cs[1..]);
      assert [cs[0]] + cs[1..] == cs;
    }
  }

  // ---- The encoder ----

  function Encoding(s: seq<Unit>): seq<Byte> {
    AllOctets(CodePoints(s))
  }

  /** One step of the encoding, as the encoder takes it. */
  lemma EncodingSteps(s: seq<Unit>, q: nat)
    requires q < |s|
    ensures Encoding(s[q..]) ==
      if High(s[q]) && q + 1 < |s| && Low(s[q + 1]) then Octets(Paired(s[q], s[q + 1])) + Encoding(s[q + 2..])
      else Octets(if High(s[q]) || Low(s[q]) then REPLACEMENT else s[q]) + Encoding(s[q + 1..])
  {
    assert s[q..][1..] == s[q + 1..];
    if q + 1 < |s| { assert s[q..][2..] == s[q + 2..] && s[q..][1] == s[q + 1]; }
  }

  class Writer {
    const bytes: array<Byte>
    var at: nat

    constructor (capacity: nat)
      ensures fresh(bytes) && bytes.Length == capacity && at == 0
    {
      bytes := new Byte[capacity](_ => 0);
      at := 0;
    }

    ghost function Written(): seq<Byte>
      reads this, bytes
      requires at <= bytes.Length
    {
      bytes[..at]
    }

    method PutReplacement()
      requires at + 3 <= bytes.Length
      modifies `at, bytes
      ensures at == old(at) + 3 && Written() == old(Written()) + Octets(REPLACEMENT)
    {
      bytes[at] := 239;
      bytes[at + 1] := 191;
      bytes[at + 2] := 189;
      at := at + 3;
    }

    /** A high surrogate and the unit after it: four octets for a pair, else a replacement for the first. */
    method PutPair(h: Unit, l: Unit) returns (paired: bool)
      requires High(h) && at + 4 <= bytes.Length
      modifies `at, bytes
      ensures at == old(at) + (if paired then 4 else 3) && paired == Low(l)
      ensures Written() == old(Written()) + Octets(if paired then Paired(h, l) else REPLACEMENT)
    {
      if Low(l) {
        var s := 0x1_0000 + h % 1024 * 1024 + l % 1024;
        bytes[at] := 240 + s / 262144;
        bytes[at + 1] := 128 + s / 4096 % 64;
        bytes[at + 2] := 128 + s / 64 % 64;
        bytes[at + 3] := 128 + s % 64;
        at := at + 4;
        return true;
      }
      PutReplacement();
      return false;
    }

    /** A code unit below the surrogates or above them. */
    method PutUnit(p: Unit) returns (fits: bool)
      requires !High(p) && !Low(p) && at <= bytes.Length
      modifies `at, bytes
      ensures fits == (old(at) + |Octets(p)| <= bytes.Length)
      ensures at <= bytes.Length && at <= old(at) + 3
      ensures Written() == if fits then old(Written()) + Octets(p) else old(Written())
    {
      var o, r := at, bytes.Length;
      if p <= 127 {
        if o >= r { return false; }
        bytes[o] := p;
        at := o + 1;
      } else if p <= 2047 {
        if o + 1 >= r { return false; }
        bytes[o] := 192 + p / 64;
        bytes[o + 1] := 128 + p % 64;
        at := o + 2;
      } else {
        if o + 2 >= r { return false; }
        bytes[o] := 224 + p / 4096;
        bytes[o + 1] := 128 + p / 64 % 64;
        bytes[o + 2] := 128 + p % 64;
        at := o + 3;
      }
      return true;
    }

    /** The units from the start on, but for a high surrogate at the very end; it stops early only when
        there is no room for what the next unit may need. */
    method Fill(a: seq<Unit>) returns (q: nat)
      requires at == 0
      modifies `at, bytes
      ensures at <= bytes.Length && at <= 3 * q && q <= Usable(a)
      ensures q < Usable(a) ==> at + Need(a[q]) > bytes.Length
      ensures Written() + Encoding(a[q..]) == Encoding(a)
    {
      var c := |a|;
      if c != 0 && High(a[c - 1]) { c := c - 1; }
      assert c == Usable(a);
      q := 0;
      ghost var all := Encoding(a);
      assert Written() == [] && a[0..] == a;
      while q < c
        invariant q <= c && at <= 3 * q && at <= bytes.Length
        invariant Written() + Encoding(a[q..]) == all
      {
        var n := PutNext(a, q, all);
        if n == 0 { break; }
        q := q + n;
      }
    }

    /** What starts at unit `q`, and how many units it took: none if there is no room. */
    method PutNext(a: seq<Unit>, q: nat, ghost all: seq<Byte>) returns (n: nat)
      requires q < Usable(a) && at <= 3 * q && at <= bytes.Length
      requires Written() + Encoding(a[q..]) == all
      modifies `at, bytes
      ensures at <= bytes.Length && q + n <= Usable(a) && at <= 3 * (q + n)
      ensures n == 0 ==> at + Need(a[q]) > bytes.Length
      ensures Written() + Encoding(a[q + n..]) == all
    {
      ghost var before := Written();
      var p := a[q];
      n := 1;
      if High(p) {
        PairEnds(a, q);
        if at + 4 > bytes.Length { return 0; }
        var paired := PutPair(p, a[q + 1]);
        if paired { n := 2; }
        Advance(a, q, n, before, Octets(if paired then Paired(p, a[q + 1]) else REPLACEMENT));
      } else if Low(p) {
        if at + 3 > bytes.Length { return 0; }
        PutReplacement();
        Advance(a, q, n, before, Octets(REPLACEMENT));
      } else {
        var fits := PutUnit(p);
        if !fits { return 0; }
        Advance(a, q, n, before, Octets(p));
      }
    }
  }

  /** A high surrogate that is not left out has a unit after it, and its pair is not left out either. */
  lemma PairEnds(a: seq<Unit>, q: nat)
    requires q < Usable(a) && High(a[q])
    ensures q + 1 < |a| && (Low(a[q + 1]) ==> q + 2 <= Usable(a))
  {
  }

  /** What one step writes, and what is left to write. */
  lemma Advance(a: seq<Unit>, q: nat, n: nat, before: seq<Byte>, o: seq<Byte>)
    requires q < |a| && n == (if High(a[q]) && q + 1 < |a| && Low(a[q + 1]) then 2 else 1)
    requires o
      == Octets(if n == 2 then Paired(a[q], a[q + 1]) else if High(a[q]) || Low(a[q]) then REPLACEMENT else a[q])
    ensures (before + o) + Encoding(a[q + n..]) == before + Encoding(a[q..])
  {
    EncodingSteps(a, q);
    Reassociate(before, o, Encoding(a[q + n..]));
  }

  /** All units but a high surrogate at the end. */
  function Usable(a: seq<Unit>): nat {
    if |a| > 0 && High(a[|a| - 1]) then |a| - 1 else |a|
  }

  /** The room asked for before a unit is written, at most. */
  function Need(u: Unit): nat {
    if High(u) then 4 else 3
  }

  /** Three bytes per unit always leave room for the next one. */
  lemma RoomForAll(a: seq<Unit>, q: nat, at: nat)
    requires at <= 3 * q && q <= Usable(a)
    ensures q < Usable(a) ==> at + Need(a[q]) <= 3 * |a|
  {
    if q < Usable(a) && q == |a| - 1 { assert !High(a[q]); }
  }

  lemma Reassociate(a: seq<Byte>, b: seq<Byte>, c: seq<Byte>)
    ensures (a + b) + c == a + (b + c)
  {
  }

  /** A string's UTF-8 form: the octets, in order, of its code points. */
  method Encode(a: seq<Unit>) returns (r: array<Byte>)
    ensures fresh(r) && r[..] == Encoding(a) && Decoded(r[..]) == Some(CodePoints(a))
    ensures AllUnits(Decoded(r[..]).value) == Mended(a)
  {
    ReadsBack(CodePoints(a));
    UnitsBack(a);
    var n := |a|;
    if n == 0 {
      r := new Byte[0];
      return;
    }
    var w := new Writer(n * 3);
    var q := w.Fill(a);
    RoomForAll(a, q, w.at);
    if q != n {
      EncodingSteps(a, q);
      assert a[q + 1..] == [];
      w.PutReplacement();
    } else {
      assert a[q..] == [];
    }
    assert w.Written() == Encoding(a);
    r := Taken(w.bytes, w.at);
  }

  method Taken(bytes: array<Byte>, n: nat) returns (r: array<Byte>)
    requires n <= bytes.Length
    ensures fresh(r) && r[..] == bytes[..n]
  {
    r := new Byte[n](_ => 0);
    forall i | 0 <= i < n {
      r[i] := bytes[i];
    }
  }
}
