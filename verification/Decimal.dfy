/** Text of big integers: printing by repeated division by 10000, parsing decimal and hexadecimal by chunks of four
    digits. */
module Decimal {
  import opened Digits
  import opened LongDivision
  import opened BigIntegers
  import opened Wrappers

  // ---- What decimal text means ----

  predicate IsDigits(s: string) {
    forall i :: 0 <= i < |s| ==> '0' <= s[i] <= '9'
  }

  function DigitValue(c: char): (d: nat)
    requires '0' <= c <= '9'
    ensures d < 10
  {
    c as int - 48
  }

  function DigitChar(d: nat): (c: char)
    requires d < 10
    ensures '0' <= c <= '9' && DigitValue(c) == d
  {
    (d + 48) as char
  }

  /** The number a digit string denotes, any leading zeros included. */
  function DigitsValue(s: string): nat
    requires IsDigits(s)
  {
    if |s| == 0 then 0 else 10 * DigitsValue(s[..|s| - 1]) + DigitValue(s[|s| - 1])
  }

  /** The usual decimal text of a number. */
  function NatText(v: nat): (s: string)
    ensures |s| > 0 && IsDigits(s)
  {
    if v < 10 then [DigitChar(v)] else NatText(v / 10) + [DigitChar(v % 10)]
  }

  function Text(v: int): string {
    if v < 0 then "-" + NatText(-v) else NatText(v)
  }

  lemma {:induction false} NatTextValue(v: nat)
    ensures DigitsValue(NatText(v)) == v
  {
    if v >= 10 {
      NatTextValue(v / 10);
      assert NatText(v)[..|NatText(v)| - 1] == NatText(v / 10);
    } else {
      assert NatText(v)[..0] == [];
    }
  }

  // ---- Printing ----

  /** The text of a number below 10000, padded to four digits. */
  function Padded(v: nat): string
    requires v < 10000
  {
    Zeroed(NatText(v))
  }

  function Zeroed(p: string): string {
    (if |p| == 1 then "000" else if |p| == 2 then "00" else if |p| == 3 then "0" else "") + p
  }

  lemma AppendDigit(x: nat, t: nat)
    requires t < 10
    ensures NatText(10 * x + t) == if x == 0 then [DigitChar(t)] else NatText(x) + [DigitChar(t)]
  {
  }

  /** A digit in front of text that may be empty. */
  function Lead(text: string, d: nat): string
    requires d < 10
  {
    if text == "" && d == 0 then "" else text + [DigitChar(d)]
  }

  /** The text of a number, none for zero. */
  function NonZeroText(v: nat): string {
    if v == 0 then "" else NatText(v)
  }

  lemma LeadDigit(x: nat, t: nat, v: nat)
    requires t < 10 && v == 10 * x + t
    ensures NonZeroText(v) == Lead(NonZeroText(x), t)
    ensures NatText(v) == NonZeroText(x) + [DigitChar(t)]
  {
    AppendDigit(x, t);
  }

  lemma FourDigits(a: nat, b: nat, c: nat, d: nat, x: nat, y: nat, v: nat)
    requires a < 10 && b < 10 && c < 10 && d < 10 && x == 10 * a + b && y == 10 * x + c && v == 10 * y + d
    ensures v < 10000 && Padded(v) == [DigitChar(a), DigitChar(b), DigitChar(c), DigitChar(d)]
  {
    ThreeDigits(a, b, c, x, y);
    LeadDigit(y, d, v);
    PaddedLead(a, b, c, NonZeroText(y) + [DigitChar(d)]);
  }

  lemma ThreeDigits(a: nat, b: nat, c: nat, x: nat, y: nat)
    requires a < 10 && b < 10 && c < 10 && x == 10 * a + b && y == 10 * x + c
    ensures NonZeroText(y) == Lead(Lead(Lead("", a), b), c)
  {
    LeadDigit(0, a, a);
    LeadDigit(a, b, x);
    LeadDigit(x, c, y);
  }

  lemma PaddedLead(a: nat, b: nat, c: nat, p: string)
    requires a < 10 && b < 10 && c < 10 && |p| > 0 && p[..|p| - 1] == Lead(Lead(Lead("", a), b), c)
    ensures Zeroed(p) == [DigitChar(a), DigitChar(b), DigitChar(c), p[|p| - 1]]
  {
  }

  /** Text splits at any four digits. */
  lemma TextByTenThousands(v: nat)
    requires v >= 10000
    ensures NatText(v) == NatText(v / 10000) + Padded(v % 10000)
  {
    var x, r := v / 10000, v % 10000;
    var a, b, c, d := CutFour(r);
    FourDigits(a, b, c, d, 10 * a + b, 10 * (10 * a + b) + c, r);
    FourMore(x, a, b, c, d);
  }

  lemma CutFour(r: nat) returns (a: nat, b: nat, c: nat, d: nat)
    requires r < 10000
    ensures a < 10 && b < 10 && c < 10 && d < 10 && r == 10 * (10 * (10 * a + b) + c) + d
  {
    var q := r / 10;
    var p := q / 10;
    a, b, c, d := p / 10, p % 10, q % 10, r % 10;
  }

  lemma FourMore(x: nat, a: nat, b: nat, c: nat, d: nat)
    requires x > 0 && a < 10 && b < 10 && c < 10 && d < 10
    ensures NatText(10 * (10 * (10 * (10 * x + a) + b) + c) + d)
         == NatText(x) + [DigitChar(a), DigitChar(b), DigitChar(c), DigitChar(d)]
  {
    var y := 10 * (10 * x + a) + b;
    TwoMore(x, a, b, y);
    TwoMore(y, c, d, 10 * (10 * y + c) + d);
    JoinTwos(NatText(x), NatText(y), NatText(10 * (10 * y + c) + d), DigitChar(a), DigitChar(b), DigitChar(c),
             DigitChar(d));
  }

  lemma JoinTwos(x: string, y: string, z: string, a: char, b: char, c: char, d: char)
    requires y == x + [a, b] && z == y + [c, d]
    ensures z == x + [a, b, c, d]
  {
  }

  lemma TwoMore(x: nat, a: nat, b: nat, y: nat)
    requires x > 0 && a < 10 && b < 10 && y == 10 * (10 * x + a) + b
    ensures NatText(y) == NatText(x) + [DigitChar(a), DigitChar(b)] && y > 0
  {
    AppendDigit(x, a);
    AppendDigit(10 * x + a, b);
    JoinOnes(NatText(x), NatText(10 * x + a), NatText(y), DigitChar(a), DigitChar(b));
  }

  lemma JoinOnes(x: string, y: string, z: string, a: char, b: char)
    requires y == x + [a] && z == y + [b]
    ensures z == x + [a, b]
  {
  }

  /** The parts joined last to first. */
  function JoinReversed(parts: seq<string>): string {
    if |parts| == 0 then "" else parts[|parts| - 1] + JoinReversed(parts[..|parts| - 1])
  }

  lemma JoinPush(parts: seq<string>, p: string)
    ensures JoinReversed(parts + [p]) == p + JoinReversed(parts)
  {
    assert (parts + [p])[..|parts|] == parts;
  }

  lemma JoinFour(head: string, parts: seq<string>, part: string, zeros: string)
    ensures head + JoinReversed(parts + [part] + [zeros]) == head + (zeros + part) + JoinReversed(parts)
  {
    JoinPush(parts, part);
    JoinPush(parts + [part], zeros);
  }

  /** A magnitude of at most one digit. */
  method SmallText(x: BigInt) returns (s: string)
    requires x.Valid() && x.used <= 1
    ensures s == Text(x.Value())
  {
    if x.used == 0 {
      assert x.digits[..0] == [];
      return "0";
    }
    assert x.digits[..1] == [x.digits[0]] && Val([x.digits[0]]) == x.digits[0];
    s := Text(Signed(x.negative, x.digits[0]));
  }

  /** Four more digits of the text, lowest first. */
  method TakeFour(d: Division, r: BigInt, tenThousand: BigInt) returns (rest: BigInt, part: string, zeros: string)
    requires d.Valid() && r.Valid() && !r.negative && r.used > 1
    requires tenThousand.Valid() && tenThousand.Value() == 10000
    modifies d
    ensures d.Valid() && rest.Valid() && !rest.negative
    ensures 10000 <= r.Value() && rest.Value() == r.Value() / 10000
    ensures zeros + part == Padded(r.Value() % 10000)
  {
    AtLeastTwoDigits(r);
    TenThousandFloor(r.Value());
    var low := d.Remainder(r, tenThousand);
    OneDigit(low);
    part := SmallText(low);
    zeros := if |part| == 1 then "000" else if |part| == 2 then "00" else if |part| == 3 then "0" else "";
    rest := d.Quotient(r, tenThousand);
    SignOf(rest);
  }

  lemma AtLeastTwoDigits(r: BigInt)
    requires r.Valid() && !r.negative && r.used > 1
    ensures r.Value() >= 65536
  {
    var s := r.digits[..r.used];
    ValTop(s);
    PowMonotone(1, |s| - 1);
    assert Pow(1) == 65536;
    MulLe(1, s[|s| - 1], Pow(|s| - 1));
  }

  lemma OneDigit(x: BigInt)
    requires x.Valid() && 0 <= x.Value() < 65536
    ensures x.used <= 1
  {
    SignOf(x);
    if x.used > 1 { AtLeastTwoDigits(x); }
  }

  lemma TenThousandFloor(v: nat)
    ensures TruncQuot(v, 10000) == v / 10000 && TruncRem(v, 10000) == v % 10000
  {
    var q := Quot(v, 10000);
    assert q == v / 10000;
  }

  method Print(d: Division, x: BigInt) returns (text: string)
    requires d.Valid() && x.Valid()
    modifies d
    ensures d.Valid() && text == Text(x.Value())
  {
    if x.used <= 1 {
      text := SmallText(x);
      return;
    }
    SignOf(x);
    var r := x;
    if x.negative { r := Negated(x); }
    text := PrintLong(d, r, x.negative);
  }

  /** The text of a positive number, under a sign. */
  method PrintLong(d: Division, x: BigInt, negative: bool) returns (text: string)
    requires d.Valid() && x.Valid() && x.Value() > 0
    modifies d
    ensures d.Valid() && text == (if negative then "-" else "") + NatText(old(x.Value()))
  {
    ghost var v := x.Value();
    var r, parts := PrintParts(d, x);
    FirstPart(r, parts, v);
    parts := parts + [Text(r.digits[0])];
    if negative {
      JoinPush(parts, "-");
      parts := parts + ["-"];
    }
    text := JoinReversed(parts);
  }

  /** Four digits at a time, lowest first, until one digit of the magnitude is left. */
  method PrintParts(d: Division, x: BigInt) returns (r: BigInt, parts: seq<string>)
    requires d.Valid() && x.Valid() && x.Value() > 0
    modifies d
    ensures d.Valid() && r.Valid() && r.used <= 1 && r.Value() > 0
    ensures NatText(x.Value()) == NatText(r.Value()) + JoinReversed(parts)
  {
    SignOf(x);
    r, parts := x, [];
    ghost var v := x.Value();
    var tenThousand := FromInt(10000);
    while r.used > 1
      invariant d.Valid() && r.Valid() && !r.negative && tenThousand.Valid() && tenThousand.Value() == 10000
      invariant r.Value() > 0 && NatText(v) == NatText(r.Value()) + JoinReversed(parts)
      decreases r.Value()
    {
      ghost var was := r.Value();
      var part, zeros;
      r, part, zeros := TakeFour(d, r, tenThousand);
      TextByTenThousands(was);
      JoinFour(NatText(r.Value()), parts, part, zeros);
      parts := parts + [part] + [zeros];
    }
  }

  lemma FirstPart(r: BigInt, parts: seq<string>, v: nat)
    requires r.Valid() && r.used <= 1 && r.Value() > 0 && NatText(v) == NatText(r.Value()) + JoinReversed(parts)
    ensures r.used == 1 && JoinReversed(parts + [Text(r.digits[0])]) == NatText(v)
  {
    SignOf(r);
    assert r.digits[..1] == [r.digits[0]] && Val([r.digits[0]]) == r.digits[0];
    JoinPush(parts, Text(r.digits[0]));
  }

  // ---- Parsing ----

  function Ten(n: nat): nat {
    if n == 0 then 1 else 10 * Ten(n - 1)
  }

  /** Text read so far: a number `q` and a chunk of `o` digits worth `s` after it. */
  ghost predicate Read(text: string, q: int, o: nat, s: int) {
    IsDigits(text) && DigitsValue(text) == q * Ten(o) + s && (o == 0 ==> s == 0)
  }

  /** Digits in chunks of four, the first chunk taking what is left over. */
  method ParseDigits(a: string, negative: bool) returns (q: BigInt)
    requires IsDigits(a)
    ensures q.Valid() && q.Value() == Signed(negative, DigitsValue(a))
  {
    var p := |a|;
    var o := 4 - p % 4;
    if o == 4 { o := 0; }
    ghost var start, chunks := o, 0;
    q := FromInt(0);
    var tenThousand := FromInt(10000);
    var s, r := 0, 0;
    while r < p
      invariant 0 <= r <= p && 0 <= o < 4 && o + 4 * chunks == start + r
      invariant q.Valid() && tenThousand.Valid() && tenThousand.Value() == 10000
      invariant DigitsSoFar(a[..r], q.Value(), o, s, r)
    {
      assert a[..r + 1] == a[..r] + [a[r]];
      ghost var was := o;
      q, o, s := ReadDigit(q, tenThousand, a[r], o, s, a[..r], r);
      if was == 3 { chunks := chunks + 1; }
      r := r + 1;
    }
    WholeChunks(p, start, o, chunks);
    assert a[..p] == a;
    if negative { q := Negated(q); }
  }

  method ReadDigit(q: BigInt, tenThousand: BigInt, c: char, o: nat, s: int, ghost text: string, ghost r: nat)
    returns (q': BigInt, o': nat, s': int)
    requires q.Valid() && tenThousand.Valid() && tenThousand.Value() == 10000
    requires '0' <= c <= '9' && o < 4 && DigitsSoFar(text, q.Value(), o, s, r)
    ensures q'.Valid() && o' == (if o == 3 then 0 else o + 1) && Read(text + [c], q'.Value(), o', s')
  {
    NextDigit(text, c, q.Value(), o, s, r);
    q', o', s' := q, o + 1, s * 10 + DigitValue(c);
    if o' == 4 {
      q' := AppendChunk(q, tenThousand, s');
      o', s' := 0, 0;
    }
  }

  /** Nothing read is nothing; and otherwise the text is a number and the chunk after it. */
  ghost predicate DigitsSoFar(text: string, q: int, o: nat, s: int, r: nat) {
    Read(text, q, o, s) || (r == 0 && text == "" && q == 0 && s == 0)
  }

  lemma WholeChunks(p: nat, start: nat, o: nat, chunks: int)
    requires o + 4 * chunks == start + p && o < 4 && start == (if p % 4 == 0 then 0 else 4 - p % 4)
    ensures o == 0
  {
    assert (start + p) % 4 == 0;
  }

  method AppendChunk(q: BigInt, tenThousand: BigInt, s: int) returns (r: BigInt)
    requires q.Valid() && tenThousand.Valid() && tenThousand.Value() == 10000
    ensures r.Valid() && r.Value() == q.Value() * 10000 + s
  {
    var shifted := Times(q, tenThousand);
    var chunk := FromInt(s);
    r := Plus(shifted, chunk);
  }

  /** A digit joins the chunk; four digits make it whole. */
  lemma NextDigit(text: string, c: char, q: int, o: nat, s: int, r: nat)
    requires DigitsSoFar(text, q, o, s, r) && '0' <= c <= '9'
    ensures Read(text + [c], q, o + 1, s * 10 + DigitValue(c))
    ensures o == 3 ==> Read(text + [c], q * 10000 + (s * 10 + DigitValue(c)), 0, 0)
  {
    assert (text + [c])[..|text|] == text;
    if text == "" {
      assert q * Ten(o) == 0 || Read(text, q, o, s);
    }
    Horner(10, q, Ten(o), s, DigitsValue(text), DigitValue(c));
    if o == 3 { assert Ten(1) == 10 && Ten(2) == 100 && Ten(3) == 1000; }
  }

  /** One digit more, in any base. */
  lemma Horner(base: int, q: int, t: int, s: int, v: int, d: int)
    requires v == q * t + s
    ensures base * v + d == q * (base * t) + (s * base + d)
  {
    Distribute(base, q * t, s);
    Reassociate(q, base, t);
  }

  // ---- Hexadecimal ----

  predicate IsHexDigit(c: char) {
    '0' <= c <= '9' || 'a' <= c <= 'f' || 'A' <= c <= 'F'
  }

  predicate IsHex(s: string) {
    forall i :: 0 <= i < |s| ==> IsHexDigit(s[i])
  }

  /** Letters count from ten in either case. */
  function HexDigitValue(c: char): (d: nat)
    requires IsHexDigit(c)
    ensures d < 16
  {
    if c <= '9' then c as int - 48 else (if c <= 'F' then c as int + 32 else c as int) - 97 + 10
  }

  function HexValue(s: string): nat
    requires IsHex(s)
  {
    if |s| == 0 then 0 else 16 * HexValue(s[..|s| - 1]) + HexDigitValue(s[|s| - 1])
  }

  function Sixteen(n: nat): nat {
    if n == 0 then 1 else 16 * Sixteen(n - 1)
  }

  /** Text that is a number `before` followed by `n` digits worth `r`. */
  ghost predicate Follows(text: string, before: nat, n: nat, r: nat) {
    IsHex(text) && HexValue(text) == before * Sixteen(n) + r && r < Sixteen(n)
  }

  lemma FollowsOn(text: string, c: char, before: nat, n: nat, r: nat)
    requires Follows(text, before, n, r) && IsHexDigit(c)
    ensures Follows(text + [c], before, n + 1, r * 16 + HexDigitValue(c))
  {
    assert (text + [c])[..|text|] == text;
    Horner(16, before, Sixteen(n), r, HexValue(text), HexDigitValue(c));
  }

  /** A chunk of `n` digits from `s` on, worth `r`. */
  method HexChunk(a: string, from: nat, s: nat, n: nat, ghost before: nat) returns (r: nat)
    requires from <= s && s + n <= |a| && IsHex(a[from..]) && n <= 4
    requires Follows(a[from..s], before, 0, 0)
    ensures Follows(a[from..s + n], before, n, r)
  {
    r := 0;
    var q := 0;
    while q < n
      invariant 0 <= q <= n && Follows(a[from..s + q], before, q, r)
    {
      r := HexDigit(a, from, s + q, before, q, r);
      q := q + 1;
    }
  }

  method HexDigit(a: string, from: nat, s: nat, ghost before: nat, ghost n: nat, r: nat) returns (r': nat)
    requires from <= s < |a| && IsHex(a[from..]) && Follows(a[from..s], before, n, r)
    ensures Follows(a[from..s + 1], before, n + 1, r')
  {
    assert a[from..][s - from] == a[s];
    FollowsOn(a[from..s], a[s], before, n, r);
    assert a[from..s] + [a[s]] == a[from..s + 1];
    r' := r * 16 + HexDigitValue(a[s]);
  }

  lemma SmallSixteen(n: nat)
    requires n <= 4
    ensures Sixteen(n) <= 65536 && (n == 4 ==> Sixteen(n) == 65536)
  {
    assert Sixteen(1) == 16 && Sixteen(2) == 256 && Sixteen(3) == 4096;
  }

  /** Digits from position `b` on, four to a digit of the result, the first chunk taking what is left over. */
  method ParseHex(a: string, b: nat, negative: bool) returns (q: BigInt)
    requires b < |a| && IsHex(a[b..])
    ensures q.Valid() && q.Value() == Signed(negative, HexValue(a[b..]))
  {
    var k := |a| - b;
    var j := (k + 3) / 4;
    var i := new Digit[j](_ => 0);
    var h := j - 1;
    var g := k - h * 4;
    SmallSixteen(g);
    assert a[b..b] == [];
    var r := HexChunk(a, b, b, g, 0);
    i[h] := r;
    assert i[h..] == [i[h]] && Val([i[h]]) == r;
    HexChunks(a, b, b + g, i, h);
    assert i[..] == i[..j];
    if j == 1 && i[0] == 0 {
      assert i[..1] == [0] && Val([0]) == 0;
      q := FromInt(0);
      return;
    }
    q := Make(negative, j, i);
  }

  /** The chunks from `from` to the end, into the digits below `h`, highest first. */
  method HexChunks(a: string, b: nat, from: nat, i: array<Digit>, h: nat)
    requires b <= from <= |a| && |a| - from == 4 * h && h <= i.Length && IsHex(a[b..])
    requires Follows(a[b..from], Above(i, h), 0, 0)
    modifies i
    ensures HexValue(a[b..]) == Val(i[..])
  {
    var s, n := from, h;
    while s < |a|
      invariant 0 <= n <= h && b <= s && |a| - s == 4 * n
      invariant Follows(a[b..s], Above(i, n), 0, 0)
      decreases |a| - s
    {
      var r := HexChunk(a, b, s, 4, Above(i, n));
      n := n - 1;
      StoreChunk(i, n, r, a[b..s + 4]);
      s := s + 4;
    }
    assert a[b..s] == a[b..] && i[0..] == i[..];
  }

  /** The number the digits from `m` up stand for. */
  ghost function Above(i: array<Digit>, m: nat): nat
    requires m <= i.Length
    reads i
  {
    Val(i[m..])
  }

  method StoreChunk(i: array<Digit>, m: nat, r: nat, ghost text: string)
    requires m < i.Length && Follows(text, Above(i, m + 1), 4, r)
    modifies i
    ensures Follows(text, Above(i, m), 0, 0)
  {
    SmallSixteen(4);
    ghost var high := i[m + 1..];
    i[m] := r;
    assert i[m..] == [i[m]] + high;
    HexUnfold(r, high);
  }

  lemma HexUnfold(lo: Digit, high: seq<Digit>)
    ensures Val([lo] + high) == Val(high) * 65536 + lo
  {
    assert ([lo] + high)[1..] == high;
  }

  // ---- Any text ----

  /** White space as regular expressions of the language have it. */
  predicate IsSpace(c: char) {
    var u := c as int;
    9 <= u <= 13 || u == 32 || u == 0xA0 || u == 0x1680 || 0x2000 <= u <= 0x200A || u == 0x2028 || u == 0x2029
    || u == 0x202F || u == 0x205F || u == 0x3000 || u == 0xFEFF
  }

  /** What a text denotes: white space around an optional sign and decimal digits, or 0x and hexadecimal ones. */
  function Denotes(s: string): Option<int> {
    if |s| > 0 && IsSpace(s[0]) then Denotes(s[1..])
    else if |s| > 0 && IsSpace(s[|s| - 1]) then Denotes(s[..|s| - 1])
    else if |s| > 0 && s[0] == '-' then Unsigned(s[1..], true)
    else if |s| > 0 && s[0] == '+' then Unsigned(s[1..], false)
    else Unsigned(s, false)
  }

  function Unsigned(s: string, negative: bool): Option<int> {
    if |s| > 2 && s[0] == '0' && (s[1] == 'x' || s[1] == 'X') && IsHex(s[2..]) then
      Some(Signed(negative, HexValue(s[2..])))
    else if |s| > 0 && IsDigits(s) then Some(Signed(negative, DigitsValue(s)))
    else None
  }

  lemma {:induction false} DigitsAreNotSpace(s: string)
    requires |s| > 0 && IsDigits(s)
    ensures !IsSpace(s[0]) && !IsSpace(s[|s| - 1])
  {
    assert '0' <= s[0] <= '9' && '0' <= s[|s| - 1] <= '9';
  }

  /** Text of any integer denotes that integer. */
  lemma RoundTrip(v: int)
    ensures Denotes(Text(v)) == Some(v)
  {
    var n: nat := if v < 0 then -v else v;
    NatTextValue(n);
    DigitsAreNotSpace(NatText(n));
    NotHex(NatText(n), v < 0);
    if v < 0 { SignedText(NatText(n)); }
  }

  lemma NotHex(s: string, negative: bool)
    requires |s| > 0 && IsDigits(s)
    ensures Unsigned(s, negative) == Some(Signed(negative, DigitsValue(s)))
    ensures s[0] != '-' && s[0] != '+'
  {
    if |s| > 1 { assert '0' <= s[1] <= '9'; }
    assert '0' <= s[0] <= '9';
  }

  lemma SignedText(s: string)
    requires |s| > 0 && !IsSpace(s[|s| - 1])
    ensures Denotes("-" + s) == Unsigned(s, true)
  {
    var t := "-" + s;
    assert t[0] == '-' && t[1..] == s && t[|t| - 1] == s[|s| - 1];
  }

  /** White space taken off both ends. */
  method Strip(text: string) returns (s: string)
    ensures Denotes(s) == Denotes(text) && (|s| > 0 ==> !IsSpace(s[0]) && !IsSpace(s[|s| - 1]))
  {
    s := text;
    while |s| > 0 && IsSpace(s[0])
      invariant Denotes(s) == Denotes(text)
      decreases |s|
    {
      s := s[1..];
    }
    while |s| > 0 && IsSpace(s[|s| - 1])
      invariant Denotes(s) == Denotes(text) && (|s| > 0 ==> !IsSpace(s[0]))
      decreases |s|
    {
      ghost var was := s;
      s := s[..|s| - 1];
      if |s| > 0 { assert s[0] == was[0]; }
    }
  }

  /** Any text: the number it denotes, or nothing. */
  method Parse(text: string) returns (q: Option<BigInt>)
    ensures q.Some? <==> Denotes(text).Some?
    ensures q.Some? ==> q.value.Valid() && q.value.Value() == Denotes(text).value
  {
    var s := Strip(text);
    var negative := |s| > 0 && s[0] == '-';
    var body := if |s| > 0 && (s[0] == '-' || s[0] == '+') then s[1..] else s;
    assert Denotes(text) == Unsigned(body, negative);
    if |body| > 2 && body[0] == '0' && (body[1] == 'x' || body[1] == 'X') && IsHex(body[2..]) {
      var r := ParseHex(body, 2, negative);
      return Some(r);
    }
    if |body| > 0 && IsDigits(body) {
      var r := ParseDigits(body, negative);
      return Some(r);
    }
    return None;
  }

  /** Printing any big integer and parsing the text gives an equal one back. */
  method PrintThenParse(d: Division, x: BigInt) returns (text: string, y: Option<BigInt>)
    requires d.Valid() && x.Valid()
    modifies d
    ensures d.Valid() && text == Text(x.Value()) && y.Some? && y.value.Valid() && y.value.Value() == x.Value()
  {
    RoundTrip(x.Value());
    text := Print(d, x);
    y := Parse(text);
  }
}
