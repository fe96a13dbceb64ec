/** Little-endian magnitudes in base 65536, as the worker's big integers keep them in Uint16Arrays:
    what the in-place digit loops compute, and what number the result stands for. */
module Digits {

  /** One Uint16Array cell. */
  type Digit = x: int | 0 <= x < 65536

  /** The number a digit sequence stands for, lowest digit first. */
  function Val(s: seq<Digit>): nat {
    if |s| == 0 then 0 else s[0] + 65536 * Val(s[1..])
  }

  function Pow(n: nat): (p: nat)
    ensures p > 0
  {
    if n == 0 then 1 else 65536 * Pow(n - 1)
  }

  /** What a Uint16Array cell keeps of a number. */
  function Low16(t: int): Digit {
    t % 65536
  }

  // ---- Values of digit sequences ----

  lemma MulLe(a: int, b: int, p: nat)
    requires a <= b
    ensures a * p <= b * p
  {
  }

  lemma Distribute(p: int, a: int, b: int)
    ensures p * (a + b) == p * a + p * b
  {
  }

  lemma Reassociate(a: int, b: int, c: int)
    ensures a * (b * c) == (a * b) * c == b * (a * c)
  {
  }

  lemma {:induction false} ValBound(s: seq<Digit>)
    ensures Val(s) < Pow(|s|)
  {
    if |s| > 0 { ValBound(s[1..]); }
  }

  lemma {:induction false} ValConcat(a: seq<Digit>, b: seq<Digit>)
    ensures Val(a + b) == Val(a) + Pow(|a|) * Val(b)
  {
    if |a| == 0 {
      assert a + b == b;
    } else {
      assert (a + b)[1..] == a[1..] + b;
      ValConcat(a[1..], b);
      Reassociate(65536, Pow(|a| - 1), Val(b));
    }
  }

  lemma {:induction false} PowAdd(a: nat, b: nat)
    ensures Pow(a + b) == Pow(a) * Pow(b)
  {
    if a > 0 {
      PowAdd(a - 1, b);
      Reassociate(65536, Pow(a - 1), Pow(b));
    }
  }

  lemma {:induction false} PowMonotone(a: nat, b: nat)
    requires a <= b
    ensures Pow(a) <= Pow(b)
  {
    if a < b { PowMonotone(a, b - 1); }
  }

  lemma {:induction false} ValZeros(s: seq<Digit>)
    requires forall i :: 0 <= i < |s| ==> s[i] == 0
    ensures Val(s) == 0
  {
    if |s| > 0 { ValZeros(s[1..]); }
  }

  lemma ValPush(low: seq<Digit>, d: Digit)
    ensures Val(low + [d]) == Val(low) + Pow(|low|) * d
  {
    ValConcat(low, [d]);
    assert Val([d]) == d;
  }

  /** The top digit decides within one power. */
  lemma ValTop(s: seq<Digit>)
    requires |s| > 0
    ensures s[|s| - 1] * Pow(|s| - 1) <= Val(s) < s[|s| - 1] * Pow(|s| - 1) + Pow(|s| - 1)
  {
    var low, d := s[..|s| - 1], s[|s| - 1];
    assert s == low + [d];
    ValPush(low, d);
    ValBound(low);
    Between(Val(low), Pow(|low|), d, Val(s));
  }

  lemma Between(low: nat, unit: nat, v: nat, x: nat)
    requires x == low + unit * v && low < unit
    ensures v * unit <= x < v * unit + unit
  {
  }

  /** Quotient and remainder by a positive unit are unique. */
  lemma SplitUnique(unit: nat, a0: nat, a1: int, b0: nat, b1: int)
    requires a0 < unit && b0 < unit
    requires a0 + unit * a1 == b0 + unit * b1
    ensures a0 == b0 && a1 == b1
  {
    if a1 < b1 {
      MulLe(a1 + 1, b1, unit);
      Distribute(unit, a1, 1);
    } else if b1 < a1 {
      MulLe(b1 + 1, a1, unit);
      Distribute(unit, b1, 1);
    }
  }

  // ---- Trimming, comparing, moving ----

  /** Drops leading zero digits. */
  method Trim(n: nat, d: array<Digit>) returns (used: nat)
    requires n <= d.Length
    ensures used <= n && (used > 0 ==> d[used - 1] != 0)
    ensures Val(d[..used]) == Val(d[..n])
  {
    used := n;
    while used > 0 && d[used - 1] == 0
      invariant used <= n
      invariant Val(d[..used]) == Val(d[..n])
    {
      assert d[..used] == d[..used - 1] + [0];
      ValPush(d[..used - 1], 0);
      used := used - 1;
    }
  }

  /** Three-way comparison: by length, then from the top digit down. */
  method Compare(a: array<Digit>, n: nat, c: array<Digit>, m: nat) returns (r: int)
    requires n <= a.Length && m <= c.Length
    requires n == m || ((n > 0 ==> a[n - 1] != 0) && (m > 0 ==> c[m - 1] != 0))
    ensures r < 0 <==> Val(a[..n]) < Val(c[..m])
    ensures r == 0 <==> Val(a[..n]) == Val(c[..m])
  {
    r := n - m;
    if r == 0 {
      var s := n;
      while s > 0
        invariant 0 <= s <= n
        invariant a[s..n] == c[s..n]
      {
        s := s - 1;
        r := a[s] as int - c[s] as int;
        if r != 0 {
          CompareAt(a[..n], c[..n], s);
          return;
        }
      }
      r := 0;
      assert a[..n] == a[0..n] && c[..n] == c[0..n];
    } else if n < m {
      LongerIsLarger(a[..n], c[..m]);
    } else {
      LongerIsLarger(c[..m], a[..n]);
    }
  }

  lemma LongerIsLarger(a: seq<Digit>, c: seq<Digit>)
    requires |a| < |c| && c[|c| - 1] != 0
    ensures Val(a) < Val(c)
  {
    ValBound(a);
    ValTop(c);
    PowMonotone(|a|, |c| - 1);
    MulLe(1, c[|c| - 1], Pow(|c| - 1));
  }

  lemma CompareAt(a: seq<Digit>, c: seq<Digit>, s: nat)
    requires |a| == |c| && s < |a| && a[s] != c[s] && a[s + 1..] == c[s + 1..]
    ensures Val(a) < Val(c) <==> a[s] < c[s]
    ensures Val(a) != Val(c)
  {
    var x, y, z := a[..s + 1], c[..s + 1], a[s + 1..];
    assert a == x + z && c == y + z;
    ValConcat(x, z);
    ValConcat(y, z);
    TopDecides(x, y);
  }

  lemma TopDecides(x: seq<Digit>, y: seq<Digit>)
    requires |x| == |y| > 0 && x[|x| - 1] != y[|x| - 1]
    ensures Val(x) < Val(y) <==> x[|x| - 1] < y[|x| - 1]
    ensures Val(x) != Val(y)
  {
    var s := |x| - 1;
    ValTop(x);
    ValTop(y);
    if x[s] < y[s] {
      MulLe(x[s] + 1, y[s], Pow(s));
    } else {
      MulLe(y[s] + 1, x[s], Pow(s));
    }
  }

  function Zeros(k: nat): seq<Digit> {
    seq(k, _ => 0)
  }

  /** Copies `n` digits of `p` up by `k` places and clears the places below. */
  method ShiftDigits(p: array<Digit>, n: nat, k: nat, d: array<Digit>) returns (used: nat)
    requires n <= p.Length && n + k <= d.Length && p != d
    modifies d
    ensures used == (if n == 0 then 0 else n + k)
    ensures n > 0 ==> d[..used] == Zeros(k) + p[..n]
    ensures forall i :: used <= i < d.Length ==> d[i] == old(d[i])
  {
    if n == 0 { return 0; }
    var s := n;
    while s > 0
      invariant 0 <= s <= n
      invariant forall i :: s <= i < n ==> d[i + k] == p[i]
      invariant forall i :: n + k <= i < d.Length ==> d[i] == old(d[i])
    {
      s := s - 1;
      d[s + k] := p[s];
    }
    s := k;
    while s > 0
      invariant 0 <= s <= k
      invariant forall i :: s <= i < k ==> d[i] == 0
      invariant forall i :: 0 <= i < n ==> d[i + k] == p[i]
      invariant forall i :: n + k <= i < d.Length ==> d[i] == old(d[i])
    {
      s := s - 1;
      d[s] := 0;
    }
    used := n + k;
    assert d[k..used] == p[..n];
    assert d[..used] == d[..k] + d[k..used];
  }

  lemma ShiftedValue(k: nat, s: seq<Digit>)
    ensures Val(Zeros(k) + s) == Pow(k) * Val(s)
  {
    ValConcat(Zeros(k), s);
    ValZeros(Zeros(k));
  }

  // ---- Addition and subtraction ----

  function SumDigits(a: seq<Digit>, c: seq<Digit>, s: nat): (e: seq<Digit>)
    requires |c| <= |a| && s <= 1
    ensures |e| == |a| + 1
  {
    if |a| == 0 then [s]
    else
      var t := s + a[0] + if |c| == 0 then 0 else c[0];
      [Low16(t)] + SumDigits(a[1..], if |c| == 0 then [] else c[1..], t / 65536)
  }

  lemma {:induction false} SumValue(a: seq<Digit>, c: seq<Digit>, s: nat)
    requires |c| <= |a| && s <= 1
    ensures Val(SumDigits(a, c, s)) == Val(a) + Val(c) + s
  {
    if |a| > 0 {
      var t := s + a[0] + if |c| == 0 then 0 else c[0];
      SumValue(a[1..], if |c| == 0 then [] else c[1..], t / 65536);
    }
  }

  /** The adding loop at digit `r`: the digits of the sum below it, carry `s`. */
  ghost predicate SumAt(a: seq<Digit>, c: seq<Digit>, e: seq<Digit>, r: nat, s: nat) {
    && r <= |a| < |e| && |c| <= |a| && s <= 1
    && e[..r] + SumDigits(a[r..], if r < |c| then c[r..] else [], s) == SumDigits(a, c, 0)
  }

  lemma SumStep(a: seq<Digit>, c: seq<Digit>, e: seq<Digit>, r: nat, s: nat, t: nat)
    requires SumAt(a, c, e, r, s) && r < |a| && t == s + a[r] + if r < |c| then c[r] else 0
    ensures SumAt(a, c, e[r := Low16(t)], r + 1, t / 65536)
  {
    assert a[r..][1..] == a[r + 1..];
    if r < |c| { assert c[r..][1..] == c[r + 1..]; }
    assert e[r := Low16(t)][..r + 1] == e[..r] + [Low16(t)];
  }

  /** One cell: `d` is the digit added there, if any. */
  method AddCell(a: array<Digit>, d: Digit, e: array<Digit>, r: nat, s: nat, ghost a0: seq<Digit>, ghost c0: seq<Digit>)
    returns (carry: nat)
    requires SumAt(a0, c0, e[..], r, s) && r < |a0| && r < a.Length && a[r] == a0[r]
    requires d == if r < |c0| then c0[r] else 0
    modifies e
    ensures SumAt(a0, c0, e[..], r + 1, carry)
  {
    ghost var was := e[..];
    var t: nat := s + a[r] + d;
    SumStep(a0, c0, was, r, s, t);
    e[r] := Low16(t);
    assert e[..] == was[r := Low16(t)];
    carry := t / 65536;
  }

  /** `e := a + c` digit by digit; the last carry becomes digit `n`. */
  method Add(a: array<Digit>, n: nat, c: array<Digit>, m: nat, e: array<Digit>)
    requires m <= n <= a.Length && n < e.Length && m <= c.Length && c != e && a != e
    modifies e
    ensures e[..n + 1] == SumDigits(a[..n], c[..m], 0)
  {
    ghost var a0, c0 := a[..n], c[..m];
    var s: nat, r := 0, 0;
    SumStart(a0, c0, e[..]);
    while r < m
      invariant 0 <= r <= m
      invariant SumAt(a0, c0, e[..], r, s)
    {
      s := AddCell(a, c[r], e, r, s, a0, c0);
      r := r + 1;
    }
    while r < n
      invariant m <= r <= n
      invariant SumAt(a0, c0, e[..], r, s)
    {
      s := AddCell(a, 0, e, r, s, a0, c0);
      r := r + 1;
    }
    e[n] := s;
    assert e[..n + 1] == e[..][..n] + [s];
  }

  lemma SumStart(a: seq<Digit>, c: seq<Digit>, e: seq<Digit>)
    requires |c| <= |a| < |e|
    ensures SumAt(a, c, e, 0, 0)
  {
    assert a[0..] == a && c[0..] == c;
  }

  /** The borrow out of a digit total in [-65536, 65535]: bit 16 of its two's complement, negated. */
  function Borrow(t: int): int {
    if t < 0 then -1 else 0
  }

  function Lowest(c: seq<Digit>): Digit { if |c| == 0 then 0 else c[0] }

  function Higher(c: seq<Digit>): seq<Digit> { if |c| == 0 then [] else c[1..] }

  function DifferenceDigits(a: seq<Digit>, c: seq<Digit>, s: int): (e: seq<Digit>)
    requires |c| <= |a| && -1 <= s <= 0
    ensures |e| == |a|
  {
    if |a| == 0 then []
    else
      var t := s + a[0] - Lowest(c);
      [Low16(t)] + DifferenceDigits(a[1..], Higher(c), Borrow(t))
  }

  function Wrap(d: int, p: nat): int {
    if d >= 0 then d else d + p
  }

  /** The loop computes the difference modulo a power of the base, so exactly when it is not negative. */
  lemma {:induction false} DifferenceValue(a: seq<Digit>, c: seq<Digit>, s: int)
    requires |c| <= |a| && -1 <= s <= 0
    ensures Val(DifferenceDigits(a, c, s)) == Wrap(Val(a) - Val(c) + s, Pow(|a|))
  {
    if |a| > 0 {
      var t := s + a[0] - Lowest(c);
      var d := Val(a[1..]) - Val(Higher(c));
      DifferenceUnfold(a, c, s, t);
      DifferenceValue(a[1..], Higher(c), Borrow(t));
      DifferenceDigit(Val(a) - Val(c) + s, t, d, Pow(|a| - 1));
    }
  }

  /** So it is the difference itself when that is not negative. */
  lemma DifferenceFits(a: seq<Digit>, c: seq<Digit>, s: int)
    requires |c| <= |a| && -1 <= s <= 0 && Val(a) - Val(c) + s >= 0
    ensures Val(DifferenceDigits(a, c, s)) == Val(a) - Val(c) + s
  {
    DifferenceValue(a, c, s);
    var v, d := Val(DifferenceDigits(a, c, s)), Val(a) - Val(c) + s;
    NoWrap(v, d, Pow(|a|));
  }

  lemma NoWrap(v: int, d: nat, p: nat)
    requires v == Wrap(d, p)
    ensures v == d
  {
  }

  lemma DifferenceUnfold(a: seq<Digit>, c: seq<Digit>, s: int, t: int)
    requires |c| <= |a| && |a| > 0 && -1 <= s <= 0 && t == s + a[0] - Lowest(c)
    ensures Val(DifferenceDigits(a, c, s)) == Low16(t) + 65536 * Val(DifferenceDigits(a[1..], Higher(c), Borrow(t)))
    ensures Val(a) - Val(c) + s == t + 65536 * (Val(a[1..]) - Val(Higher(c)))
  {
    var e := DifferenceDigits(a, c, s);
    assert e[1..] == DifferenceDigits(a[1..], Higher(c), Borrow(t));
  }

  lemma BorrowedDigit(t: int)
    requires -65536 <= t < 65536
    ensures Low16(t) == t - 65536 * Borrow(t)
  {
  }

  /** One digit of a difference `x`, whose higher digits differ by `d`. */
  lemma DifferenceDigit(x: int, t: int, d: int, p: nat)
    requires x == t + 65536 * d && -65536 <= t < 65536
    ensures Low16(t) + 65536 * Wrap(d + Borrow(t), p) == Wrap(x, 65536 * p)
  {
    BorrowedDigit(t);
    WrapStep(d + Borrow(t), Low16(t), p);
  }

  lemma WrapStep(d: int, lo: Digit, p: nat)
    ensures lo + 65536 * Wrap(d, p) == Wrap(65536 * d + lo, 65536 * p)
  {
  }

  /** The borrowing loop at digit `r`: the digits of the difference below it, those it started from above. */
  ghost predicate DifferenceAt(a: seq<Digit>, c: seq<Digit>, e0: seq<Digit>, e: seq<Digit>, r: nat, s: int) {
    && r <= |a| <= |e| && |e| == |e0| && |c| <= |a| && -1 <= s <= 0 && e[r..] == e0[r..]
    && e[..r] + DifferenceDigits(a[r..], From(c, r), s) == DifferenceDigits(a, c, 0)
  }

  function From(c: seq<Digit>, r: nat): seq<Digit> { if r < |c| then c[r..] else [] }

  lemma DifferenceStart(a: seq<Digit>, c: seq<Digit>, e: seq<Digit>)
    requires |c| <= |a| <= |e|
    ensures DifferenceAt(a, c, e, e, 0, 0)
  {
    assert a[0..] == a && c[0..] == c;
  }

  lemma DifferenceStep(a: seq<Digit>, c: seq<Digit>, e0: seq<Digit>, e: seq<Digit>, r: nat, s: int, t: int)
    requires DifferenceAt(a, c, e0, e, r, s) && r < |a| && t == s + a[r] - if r < |c| then c[r] else 0
    ensures DifferenceAt(a, c, e0, e[r := Low16(t)], r + 1, Borrow(t))
  {
    DifferenceNext(a, c, r, s, t);
    DigitJoined(e, r, Low16(t), DifferenceDigits(a[r + 1..], From(c, r + 1), Borrow(t)));
    PutDigit(e0, e, 0, r, Low16(t));
  }

  lemma DigitJoined(e: seq<Digit>, r: nat, d: Digit, rest: seq<Digit>)
    requires r < |e|
    ensures e[..r] + ([d] + rest) == e[r := d][..r + 1] + rest
  {
    assert e[r := d][..r + 1] == e[..r] + [d];
  }

  lemma DifferenceNext(a: seq<Digit>, c: seq<Digit>, r: nat, s: int, t: int)
    requires r < |a| && |c| <= |a| && -1 <= s <= 0 && t == s + a[r] - if r < |c| then c[r] else 0
    ensures DifferenceDigits(a[r..], From(c, r), s)
         == [Low16(t)] + DifferenceDigits(a[r + 1..], From(c, r + 1), Borrow(t))
  {
    assert a[r..][1..] == a[r + 1..];
    assert Higher(From(c, r)) == From(c, r + 1);
  }

  lemma DifferenceEnd(a: seq<Digit>, c: seq<Digit>, e0: seq<Digit>, e: seq<Digit>, s: int)
    requires DifferenceAt(a, c, e0, e, |a|, s)
    ensures e[..|a|] == DifferenceDigits(a, c, 0) && e[|a|..] == e0[|a|..]
  {
  }

  /** One cell: `d` is the digit taken away there, if any. */
  method SubtractCell(a: array<Digit>, d: int, e: array<Digit>, r: nat, s: int, ghost a0: seq<Digit>,
                      ghost c0: seq<Digit>, ghost e0: seq<Digit>)
    returns (borrow: int)
    requires DifferenceAt(a0, c0, e0, e[..], r, s) && r < |a0| && r < a.Length && a[r] == a0[r]
    requires d == if r < |c0| then c0[r] else 0
    modifies e
    ensures DifferenceAt(a0, c0, e0, e[..], r + 1, borrow)
    ensures forall i :: 0 <= i < e.Length && i != r ==> e[i] == old(e[i])
  {
    ghost var was := e[..];
    var t := s + a[r] - d;
    DifferenceStep(a0, c0, e0, was, r, s, t);
    e[r] := Low16(t);
    assert e[..] == was[r := Low16(t)];
    borrow := Borrow(t);
  }

  /** `e := a - c` digit by digit with a borrow; `e` may be `a` itself. */
  method Subtract(a: array<Digit>, n: nat, c: array<Digit>, m: nat, e: array<Digit>)
    requires m <= n <= a.Length && n <= e.Length && m <= c.Length && c != e
    modifies e
    ensures e[..n] == DifferenceDigits(old(a[..n]), c[..m], 0)
    ensures e[n..] == old(e[n..])
  {
    ghost var a0, c0, e0 := a[..n], c[..m], e[..];
    DifferenceStart(a0, c0, e0);
    var s := TakeAway(a, c, m, e, a0, e0);
    s := BorrowUp(a, m, n, s, e, a0, c0, e0);
    DifferenceEnd(a0, c0, e0, e[..], s);
    assert e[..][..n] == e[..n] && e[..][n..] == e[n..];
  }

  /** The digits that have one to take away. */
  method TakeAway(a: array<Digit>, c: array<Digit>, m: nat, e: array<Digit>, ghost a0: seq<Digit>, ghost e0: seq<Digit>)
    returns (s: int)
    requires m <= |a0| <= a.Length && m <= c.Length && c != e && a0 == a[..|a0|]
    requires DifferenceAt(a0, c[..m], e0, e[..], 0, 0)
    modifies e
    ensures DifferenceAt(a0, c[..m], e0, e[..], m, s)
    ensures forall i :: m <= i < |a0| ==> a[i] == a0[i]
  {
    ghost var c0 := c[..m];
    s := 0;
    for r := 0 to m
      invariant DifferenceAt(a0, c0, e0, e[..], r, s)
      invariant forall i :: r <= i < |a0| ==> a[i] == a0[i]
    {
      s := SubtractCell(a, c[r], e, r, s, a0, c0, e0);
    }
  }

  /** The digits above them. */
  method BorrowUp(a: array<Digit>, m: nat, n: nat, borrow: int, e: array<Digit>, ghost a0: seq<Digit>,
                  ghost c0: seq<Digit>, ghost e0: seq<Digit>)
    returns (s: int)
    requires m == |c0| <= n == |a0| <= a.Length && DifferenceAt(a0, c0, e0, e[..], m, borrow)
    requires forall i :: m <= i < |a0| ==> a[i] == a0[i]
    modifies e
    ensures DifferenceAt(a0, c0, e0, e[..], |a0|, s)
  {
    s := borrow;
    for r := m to n
      invariant DifferenceAt(a0, c0, e0, e[..], r, s)
      invariant forall i :: r <= i < |a0| ==> a[i] == a0[i]
    {
      s := SubtractCell(a, 0, e, r, s, a0, c0, e0);
    }
  }

  // ---- Multiply and add ----

  /** The carry loop: adds `s` at the bottom digit and ripples. */
  function CarryDigits(w: seq<Digit>, s: nat): (e: seq<Digit>)
    ensures |e| == |w|
  {
    if |w| == 0 || s == 0 then w
    else [Low16(w[0] + s)] + CarryDigits(w[1..], (w[0] + s) / 65536)
  }

  function MulAddDigits(x: Digit, b: seq<Digit>, w: seq<Digit>, s: nat): (e: seq<Digit>)
    requires |b| <= |w|
    ensures |e| == |w|
  {
    if |b| == 0 then CarryDigits(w, s)
    else
      var q := x * b[0] + w[0] + s;
      [Low16(q)] + MulAddDigits(x, b[1..], w[1..], q / 65536)
  }

  lemma {:induction false} CarryValue(w: seq<Digit>, s: nat)
    requires Val(w) + s < Pow(|w|)
    ensures Val(CarryDigits(w, s)) == Val(w) + s
  {
    if |w| > 0 && s > 0 {
      CarryValue(w[1..], (w[0] + s) / 65536);
    }
  }

  /** While the total fits, no carry is lost at the top. */
  lemma {:induction false} MulAddValue(x: Digit, b: seq<Digit>, w: seq<Digit>, s: nat)
    requires |b| <= |w| && Val(w) + x * Val(b) + s < Pow(|w|)
    ensures Val(MulAddDigits(x, b, w, s)) == Val(w) + x * Val(b) + s
  {
    if |b| == 0 {
      CarryValue(w, s);
    } else {
      var q := x * b[0] + w[0] + s;
      MulAddUnroll(x, b, w, s, q % 65536, q / 65536);
      MulAddValue(x, b[1..], w[1..], q / 65536);
    }
  }

  /** One digit peeled off the total `w + x * b + s`. */
  lemma MulAddUnroll(x: int, b: seq<Digit>, w: seq<Digit>, s: int, lo: int, hi: int)
    requires 0 < |b| <= |w| && lo + 65536 * hi == x * b[0] + w[0] + s
    ensures Val(w) + x * Val(b) + s == lo + 65536 * (Val(w[1..]) + x * Val(b[1..]) + hi)
  {
    MulUnfold(x, Val(b), b[0], Val(b[1..]));
  }

  lemma MulUnfold(x: int, v: int, low: int, high: int)
    requires v == low + 65536 * high
    ensures x * v == x * low + 65536 * (x * high)
  {
    Distribute(x, low, 65536 * high);
    Reassociate(x, 65536, high);
  }

  lemma DigitProduct(x: Digit, b: Digit, d: Digit, s: nat)
    requires s < 65536
    ensures x * b + d + s < 65536 * 65536
  {
    MulLe(x, 65535, b);
  }

  /** The multiply-add loop at digit `c` of window [pos, top): below it the digits of the answer,
      above it the digits it started from, and `s` carried between. */
  ghost predicate MulAddAt(x: Digit, b: seq<Digit>, acc0: seq<Digit>, acc: seq<Digit>,
                           pos: nat, top: nat, c: nat, s: nat)
  {
    && |acc| == |acc0| && c <= |b| && pos + |b| <= top <= |acc| && s < 65536
    && acc[..pos] == acc0[..pos] && acc[pos + c..] == acc0[pos + c..]
    && acc[pos..pos + c] + MulAddDigits(x, b[c..], acc0[pos + c..top], s) == MulAddDigits(x, b, acc0[pos..top], 0)
    && Val(acc0[pos + c..top]) + x * Val(b[c..]) + s < Pow(top - pos - c)
  }

  lemma MulAddStep(x: Digit, b: seq<Digit>, acc0: seq<Digit>, acc: seq<Digit>,
                   pos: nat, top: nat, c: nat, s: nat, lo: Digit, hi: nat)
    requires c < |b| && MulAddAt(x, b, acc0, acc, pos, top, c, s)
    requires lo + 65536 * hi == x * b[c] + acc[pos + c] + s
    ensures MulAddAt(x, b, acc0, acc[pos + c := lo], pos, top, c + 1, hi)
  {
    var e := pos + c;
    var w := acc0[e..top];
    assert acc[e] == acc[e..][0] == acc0[e..][0] == w[0];
    assert b[c..][1..] == b[c + 1..] && w[1..] == acc0[e + 1..top];
    CarryBound(x, b[c], w[0], s, lo, hi);
    MulAddRoom(x, b[c..], w, s, lo, hi);
    PutDigit(acc0, acc, pos, e, lo);
    MulAddDigitsUnroll(acc[pos..e], x, b[c..], w, s, lo, hi);
  }

  lemma CarryBound(x: Digit, b: Digit, d: Digit, s: nat, lo: Digit, hi: nat)
    requires s < 65536 && lo + 65536 * hi == x * b + d + s
    ensures hi < 65536
  {
    DigitProduct(x, b, d, s);
  }

  lemma PutDigit(acc0: seq<Digit>, acc: seq<Digit>, pos: nat, e: nat, d: Digit)
    requires pos <= e < |acc| == |acc0|
    requires acc[e..] == acc0[e..]
    ensures acc[e := d][..pos] == acc[..pos]
    ensures acc[e := d][pos..e + 1] == acc[pos..e] + [d]
    ensures acc[e := d][e + 1..] == acc0[e + 1..]
  {
    assert acc[e + 1..] == acc[e..][1..] && acc0[e + 1..] == acc0[e..][1..];
  }

  lemma MulAddDigitsUnroll(done: seq<Digit>, x: Digit, b: seq<Digit>, w: seq<Digit>, s: nat, lo: Digit, hi: nat)
    requires 0 < |b| <= |w| && lo + 65536 * hi == x * b[0] + w[0] + s
    ensures done + MulAddDigits(x, b, w, s) == done + [lo] + MulAddDigits(x, b[1..], w[1..], hi)
  {
  }

  /** What is left after one digit still fits in one place less. */
  lemma MulAddRoom(x: int, b: seq<Digit>, w: seq<Digit>, s: int, lo: Digit, hi: int)
    requires 0 < |b| <= |w| && lo + 65536 * hi == x * b[0] + w[0] + s
    requires Val(w) + x * Val(b) + s < Pow(|w|)
    ensures Val(w[1..]) + x * Val(b[1..]) + hi < Pow(|w| - 1)
  {
    MulAddUnroll(x, b, w, s, lo, hi);
  }

  /** One digit of the multiplicand: its cell and the carry out. */
  method MulAddCell(x: Digit, d: Digit, acc: array<Digit>, e: nat, s: nat, ghost b: seq<Digit>, ghost acc0: seq<Digit>,
                    ghost pos: nat, ghost top: nat, ghost c: nat) returns (carry: nat)
    requires c < |b| && d == b[c] && e == pos + c && MulAddAt(x, b, acc0, acc[..], pos, top, c, s)
    modifies acc
    ensures MulAddAt(x, b, acc0, acc[..], pos, top, c + 1, carry)
  {
    var q := ProductTotal(x, d, acc[e], s);
    ghost var was := acc[..];
    MulAddStep(x, b, acc0, was, pos, top, c, s, Low16(q), q / 65536);
    acc[e] := Low16(q);
    assert acc[..] == was[e := Low16(q)];
    carry := q / 65536;
  }

  /** `acc += x * src` at place `pos`; the digits from `top` on are out of the carry's reach. */
  method MulAdd(x: Digit, src: array<Digit>, acc: array<Digit>, pos: nat, n: nat, ghost top: nat)
    requires n <= src.Length && pos + n <= top <= acc.Length && src != acc
    requires Val(acc[pos..top]) + x * Val(src[..n]) < Pow(top - pos)
    modifies acc
    ensures Val(acc[pos..top]) == old(Val(acc[pos..top])) + x * Val(src[..n])
    ensures acc[..pos] == old(acc[..pos]) && acc[top..] == old(acc[top..])
  {
    if x == 0 { return; }
    ghost var acc0 := acc[..];
    assert acc0[pos..top] == acc[pos..top];
    MulAddStart(x, src[..n], acc0, pos, top);
    MulAddRun(x, src, acc, pos, n, top);
  }

  /** The digits one by one, then the carry. */
  method MulAddRun(x: Digit, src: array<Digit>, acc: array<Digit>, pos: nat, n: nat, ghost top: nat)
    requires n <= src.Length && pos + n <= top <= acc.Length && src != acc
    requires MulAddAt(x, src[..n], acc[..], acc[..], pos, top, 0, 0)
    modifies acc
    ensures acc[pos..top] == MulAddDigits(x, src[..n], old(acc[..])[pos..top], 0)
    ensures acc[..pos] == old(acc[..pos]) && acc[top..] == old(acc[top..])
  {
    ghost var b, acc0 := src[..n], acc[..];
    var s: nat, c, e, f := 0, 0, pos, n - 1;
    while f >= 0
      invariant 0 <= c <= n && f == n - 1 - c && e == pos + c
      invariant MulAddAt(x, b, acc0, acc[..], pos, top, c, s)
    {
      s := MulAddCell(x, src[c], acc, e, s, b, acc0, pos, top, c);
      c, e, f := c + 1, e + 1, f - 1;
    }
    ghost var all := MulAddDigits(x, b, acc0[pos..top], 0);
    MulAddEnd(x, b, acc0, acc[..], pos, top, e, s, all);
    CarryUp(acc, e, s, top, pos, all, acc0);
  }

  /** After the digits, only the carry is left to place. */
  lemma MulAddEnd(x: Digit, b: seq<Digit>, acc0: seq<Digit>, acc: seq<Digit>, pos: nat, top: nat, e: nat, s: nat,
                  all: seq<Digit>)
    requires e == pos + |b| && MulAddAt(x, b, acc0, acc, pos, top, |b|, s)
    requires all == MulAddDigits(x, b, acc0[pos..top], 0)
    ensures CarryAt(acc0, acc, all, pos, top, e, s)
  {
    assert b[|b|..] == [];
  }

  /** The carry loop after a multiply-add. */
  method CarryUp(acc: array<Digit>, at: nat, carry: nat, ghost top: nat, ghost pos: nat, ghost all: seq<Digit>,
                 ghost acc0: seq<Digit>)
    requires CarryAt(acc0, acc[..], all, pos, top, at, carry)
    modifies acc
    ensures acc[pos..top] == all && acc[..pos] == acc0[..pos] && acc[top..] == acc0[top..]
  {
    var s: nat, e := carry, at;
    while s != 0
      invariant pos <= e <= top
      invariant CarryAt(acc0, acc[..], all, pos, top, e, s)
      decreases top - e
    {
      ghost var was := acc[..];
      CarryStep(acc0, was, all, pos, top, e, s);
      var o := acc[e] + s;
      acc[e] := Low16(o);
      assert acc[..] == was[e := Low16(o)];
      s := o / 65536;
      e := e + 1;
    }
    CarryEnd(acc0, acc[..], all, pos, top, e);
    assert acc[..][pos..top] == acc[pos..top] && acc[..][..pos] == acc[..pos] && acc[..][top..] == acc[top..];
  }

  lemma MulAddStart(x: Digit, b: seq<Digit>, acc: seq<Digit>, pos: nat, top: nat)
    requires pos + |b| <= top <= |acc| && Val(acc[pos..top]) + x * Val(b) < Pow(top - pos)
    ensures MulAddAt(x, b, acc, acc, pos, top, 0, 0)
    ensures Val(MulAddDigits(x, b, acc[pos..top], 0)) == Val(acc[pos..top]) + x * Val(b)
  {
    MulAddValue(x, b, acc[pos..top], 0);
    assert b[0..] == b;
  }

  function ProductTotal(x: Digit, b: Digit, d: Digit, s: nat): nat {
    x * b + d + s
  }

  /** The carry loop at digit `e` of window [pos, top). */
  ghost predicate CarryAt(acc0: seq<Digit>, acc: seq<Digit>, all: seq<Digit>, pos: nat, top: nat, e: nat, s: nat) {
    && |acc| == |acc0| && pos <= e <= top <= |acc|
    && acc[..pos] == acc0[..pos] && acc[e..] == acc0[e..]
    && acc[pos..e] + CarryDigits(acc0[e..top], s) == all
    && Val(acc0[e..top]) + s < Pow(top - e)
  }

  lemma CarryStep(acc0: seq<Digit>, acc: seq<Digit>, all: seq<Digit>, pos: nat, top: nat, e: nat, s: nat)
    requires CarryAt(acc0, acc, all, pos, top, e, s) && s > 0
    ensures e < top
    ensures var o := acc[e] + s;
      CarryAt(acc0, acc[e := Low16(o)], all, pos, top, e + 1, o / 65536)
  {
    var w := acc0[e..top];
    assert |w| > 0;
    assert acc[e] == acc[e..][0] == acc0[e..][0] == w[0];
    assert w[1..] == acc0[e + 1..top];
    var lo := Low16(acc[e] + s);
    PutDigit(acc0, acc, pos, e, lo);
    var rest := CarryDigits(w[1..], (acc[e] + s) / 65536);
    assert acc[pos..e] + ([lo] + rest) == acc[pos..e] + [lo] + rest;
  }

  lemma CarryEnd(acc0: seq<Digit>, acc: seq<Digit>, all: seq<Digit>, pos: nat, top: nat, e: nat)
    requires CarryAt(acc0, acc, all, pos, top, e, 0)
    ensures acc[pos..top] == all && acc[..pos] == acc0[..pos] && acc[top..] == acc0[top..]
  {
    assert acc[e..top] == acc[e..][..top - e] == acc0[e..][..top - e] == acc0[e..top];
    assert acc[pos..top] == acc[pos..e] + acc[e..top];
    assert acc[top..] == acc[e..][top - e..] && acc0[top..] == acc0[e..][top - e..];
  }
}
