/** Normalised long division in base 65536. The divisor is kept negated, so that one multiply-add both
    subtracts its multiple from the running remainder and drops the quotient digit above it. */
module LongDivision {
  import opened Digits
  import opened Shifts

  // ---- One quotient digit ----

  /** The floor of a quotient. */
  function Quot(w: nat, p: nat): (q: nat)
    requires p > 0
    ensures q * p <= w < q * p + p
  {
    w / p
  }

  /** Two adjacent digits as one number. */
  function Head(t: Digit, u: Digit): nat {
    Val([u, t])
  }

  lemma HeadValue(t: Digit, u: Digit)
    ensures Head(t, u) == 65536 * t + u
  {
    ValPush([u], t);
    assert [u] + [t] == [u, t] && Val([u]) == u && Pow(1) == 65536;
  }

  /** The digit guessed from the top digit `a` of the divisor and the top two of the window. */
  function Estimate(a: Digit, t: Digit, u: Digit): Digit
    requires a > 0
  {
    if t == a then 65535
    else
      var s := Quot(Head(t, u), a);
      if s > 65535 then 65535 else s
  }

  lemma ProductSplit(e: int, l: int, d: nat, p: int)
    requires 0 <= e && p < l * d + d
    ensures e * p <= (e * l) * d + e * d
  {
    MulLe(p, l * d + d, e);
    Distribute(e, l * d, d);
    Reassociate(e, l, d);
  }

  /** The guess is never too small. */
  lemma EstimateNotSmall(w: nat, p: nat, d: nat, l: Digit, head: nat, q: nat, e: nat)
    requires p > 0 && q * p <= w && w < head * d + d && l * d <= p
    requires head < (e + 1) * l
    ensures q <= e
  {
    if q > e {
      MulLe(e + 1, q, p);
      MulLe(l * d, p, e + 1);
      Reassociate(e + 1, l, d);
      MulLe(head + 1, (e + 1) * l, d);
      Distribute(d, head, 1);
    }
  }

  /** With the divisor's top bit set, the guess is at most two too large. */
  lemma EstimateNotLarge(w: nat, p: nat, d: nat, l: Digit, head: nat, q: nat, e: nat)
    requires d > 0 && l >= 32768 && l * d <= p < l * d + d && head * d <= w < q * p + p
    requires e * l <= head && e <= 65535
    ensures e <= q + 2
  {
    ProductSplit(e, l, d, p);
    MulLe(e * l, head, d);
    MulLe(e, 2 * l, d);
    Reassociate(2, l, d);
    if e > q + 2 {
      MulLe(q + 3, e, p);
      Distribute(p, q, 3);
    }
  }

  /** What the window and the divisor share with their top digits. */
  ghost predicate TopDigits(w: nat, p: nat, d: nat, l: Digit, t: Digit, u: Digit) {
    && d > 0 && l * d <= p < l * d + d && l >= 32768
    && Head(t, u) * d <= w < Head(t, u) * d + d
    && w < 65536 * p
  }

  lemma EstimateBounds(w: nat, p: nat, d: nat, l: Digit, t: Digit, u: Digit, q: nat)
    requires TopDigits(w, p, d, l, t, u) && q * p <= w < q * p + p
    ensures q <= Estimate(l, t, u) <= q + 2
  {
    var e := Estimate(l, t, u);
    var head := Head(t, u);
    HeadValue(t, u);
    if q > 65535 { MulLe(65536, q, p); }
    if t != l && Quot(head, l) <= 65535 {
      EstimateNotSmall(w, p, d, l, head, q, e);
    }
    if t == l || Quot(head, l) > 65535 {
      MulLe(65535, Quot(head, l), l);
    }
    EstimateNotLarge(w, p, d, l, head, q, e);
  }

  /** The window after adding `e` negated divisors: `e` above, the remainder less `e` divisors below. */
  function Offset(w: int, p: int, e: int, unit: int): int {
    e * unit + w - e * p
  }

  lemma OffsetIsAdded(w: int, p: int, e: int, unit: int)
    ensures w + e * (unit - p) == Offset(w, p, e, unit)
    ensures Offset(w, p, e, unit) - (unit - p) == Offset(w, p, e - 1, unit)
  {
    Distribute(e, unit, 0 - p);
    Distribute(unit, e, -1);
    Distribute(p, e, -1);
  }

  lemma OffsetFits(w: nat, p: nat, e: nat, unit: nat, q: nat)
    requires p < unit && q * p <= w < q * p + p && q <= e <= 65535
    ensures 0 <= Offset(w, p, e, unit) < 65536 * unit
    ensures e > q ==> Offset(w, p, e, unit) >= unit - p
  {
    MulLe(e, 65535, unit);
    MulLe(q, e, p);
    MulLe(0, e, unit - p);
    Distribute(e, unit, 0 - p);
    if e > q {
      MulLe(1, e, unit - p);
      MulLe(q + 1, e, p);
      Distribute(p, q, 1);
    }
  }

  /** The digit above the window reads `e` exactly when the remainder below did not go negative. */
  lemma DigitTest(w: nat, p: nat, e: nat, unit: nat, q: nat, low: nat, d: nat)
    requires p < unit && q * p <= w < q * p + p && q <= e
    requires low < unit && low + unit * d == Offset(w, p, e, unit)
    ensures d < e <==> q < e
    ensures e == q ==> d == q && low == w - q * p
  {
    if e == q {
      SplitUnique(unit, low, d, w - q * p, q);
    } else {
      MulLe(q + 1, e, p);
      Distribute(p, q, 1);
      if d >= e { MulLe(e, d, unit); }
    }
  }

  // ---- Segments of the working array ----

  /** The working array cut at places `lo` and `hi`. */
  lemma Segments(s: seq<Digit>, lo: nat, hi: nat)
    requires lo <= hi <= |s|
    ensures Val(s) == Val(s[..lo]) + Pow(lo) * Val(s[lo..])
    ensures Val(s[lo..]) == Val(s[lo..hi]) + Pow(hi - lo) * Val(s[hi..])
    ensures Val(s[..lo]) < Pow(lo) && Val(s[lo..hi]) < Pow(hi - lo)
  {
    assert s == s[..lo] + s[lo..] && s[lo..] == s[lo..hi] + s[hi..];
    ValConcat(s[..lo], s[lo..]);
    ValConcat(s[lo..hi], s[hi..]);
    ValBound(s[..lo]);
    ValBound(s[lo..hi]);
  }

  /** The working array's value in three segments: below `lo`, [lo, hi) and above. */
  ghost predicate Cut(s: seq<Digit>, lo: nat, hi: nat, low: nat, mid: int, high: nat) {
    lo <= hi <= |s| && Val(s[..lo]) == low && Val(s[lo..hi]) == mid && Val(s[hi..]) == high
  }

  /** Taking `g` away at place `lo` changes only the middle segment, while that holds at least `g`. */
  lemma SegmentSubtract(s: seq<Digit>, s': seq<Digit>, lo: nat, hi: nat, g: nat, low: nat, mid: nat, high: nat)
    requires Cut(s, lo, hi, low, mid, high) && |s| == |s'| && g <= mid
    requires Val(s') == Val(s) - Pow(lo) * g
    ensures Cut(s', lo, hi, low, mid - g, high)
  {
    Segments(s, lo, hi);
    Segments(s', lo, hi);
    SplitLess(Pow(lo), Val(s'[..lo]), Val(s'[lo..]), low, Val(s[lo..]), g);
    SplitUnique(Pow(hi - lo), Val(s'[lo..hi]), Val(s'[hi..]), mid - g, high);
  }

  lemma SplitLess(unit: nat, a0: nat, a1: int, b0: nat, b1: int, g: int)
    requires a0 < unit && b0 < unit && a0 + unit * a1 == b0 + unit * b1 - unit * g
    ensures a0 == b0 && a1 == b1 - g
  {
    Distribute(unit, b1, 0 - g);
    SplitUnique(unit, a0, a1, b0, b1 - g);
  }

  lemma SegmentCovers(s: seq<Digit>, lo: nat, hi: nat, g: nat, low: nat, mid: nat, high: nat)
    requires Cut(s, lo, hi, low, mid, high) && g <= mid
    ensures Pow(lo) * g <= Val(s)
  {
    Segments(s, lo, hi);
    UpperAtLeast(Pow(hi - lo), high, mid, Val(s[lo..]));
    CoveredBy(Pow(lo), g, Val(s[lo..]), low, Val(s));
  }

  lemma UpperAtLeast(unit: nat, high: nat, mid: int, upper: int)
    requires upper == mid + unit * high
    ensures upper >= mid
  {
    MulLe(0, high, unit);
  }

  lemma CoveredBy(unit: nat, g: int, upper: int, low: nat, v: int)
    requires v == low + unit * upper && g <= upper
    ensures unit * g <= v
  {
    MulLe(g, upper, unit);
  }

  /** One correction: subtract the shifted negated divisor from the whole working array. */
  method TakeBack(n: array<Digit>, h: nat, j: array<Digit>, i: nat, ghost lo: nat, ghost hi: nat, ghost g: nat,
                  ghost low: nat, ghost mid: int, ghost high: nat)
    requires n != j && i <= h <= n.Length && i <= j.Length
    requires Val(j[..i]) == Pow(lo) * g && g <= mid
    requires Cut(n[..h], lo, hi, low, mid, high)
    modifies n
    ensures Cut(n[..h], lo, hi, low, mid - g, high)
  {
    ghost var s := n[..h];
    SegmentCovers(s, lo, hi, g, low, mid, high);
    DifferenceValue(s, j[..i], 0);
    Subtract(n, h, j, i, n);
    SegmentSubtract(s, n[..h], lo, hi, g, low, mid, high);
  }

  /** The guess: `e` negated divisors added to the window in one pass. */
  method AddNegated(n: array<Digit>, h: nat, g: array<Digit>, e: Digit, k: nat, o: nat, ghost p: nat,
                    ghost low: nat, ghost w: nat, ghost high: nat)
    requires n != g && o <= g.Length && k + o < h <= n.Length
    requires p < Pow(o) && Val(g[..o]) == Pow(o) - p
    requires Cut(n[..h], k, k + o + 1, low, w, high)
    requires Offset(w, p, e, Pow(o)) < 65536 * Pow(o)
    modifies n
    ensures Cut(n[..h], k, k + o + 1, low, Offset(w, p, e, Pow(o)), high)
  {
    var f1 := k + o + 1;
    OffsetIsAdded(w, p, e, Pow(o));
    ghost var s := n[..];
    assert s[..h] == n[..h] && s[k..f1] == n[k..f1];
    OutsideWindow(s, s, h, k, f1);
    MulAdd(e, g, n, k, o, f1);
    ghost var t := n[..];
    assert t[..h] == n[..h] && t[..k] == n[..k] && t[k..f1] == n[k..f1] && t[f1..] == n[f1..];
    OutsideWindow(s, t, h, k, f1);
  }

  /** Digits outside a window of the first `h` are those outside it of all. */
  lemma OutsideWindow(s: seq<Digit>, t: seq<Digit>, h: nat, k: nat, f: nat)
    requires k <= f <= h <= |s| == |t| && t[..k] == s[..k] && t[f..] == s[f..]
    ensures t[..h][..k] == s[..h][..k] && t[..h][f..] == s[..h][f..] && t[..h][k..f] == t[k..f]
  {
    assert t[..h][..k] == t[..k] && s[..h][..k] == s[..k];
    assert t[..h][f..] == t[f..][..h - f] && s[..h][f..] == s[f..][..h - f];
  }

  /** The window with `e` negated divisors added, `q` being the true quotient digit: the digit above the
      window tells whether `e` is still too large, and once it is not, the window holds the remainder. */
  ghost predicate Guessed(s: seq<Digit>, k: nat, o: nat, p: nat, w: nat, e: int, q: nat, low: nat, high: nat) {
    && k + o < |s| && q <= e <= 65535 && 0 < p < Pow(o) && q * p <= w < q * p + p
    && Cut(s, k, k + o + 1, low, Offset(w, p, e, Pow(o)), high)
    && (s[k + o] < e <==> q < e)
    && (e == q ==> Cut(s, k, k + o, low, w - q * p, q + 65536 * high))
  }

  /** A correction lowers the guess by one. */
  method Correct(n: array<Digit>, h: nat, j: array<Digit>, i: nat, ghost k: nat, ghost o: nat, ghost p: nat,
                 ghost w: nat, ghost e: nat, ghost q: nat, ghost low: nat, ghost high: nat)
    requires n != j && i <= h <= n.Length && i <= j.Length
    requires Guessed(n[..h], k, o, p, w, e, q, low, high) && q < e
    requires Val(j[..i]) == Pow(k) * (Pow(o) - p)
    modifies n
    ensures Guessed(n[..h], k, o, p, w, e - 1, q, low, high)
  {
    ghost var unit := Pow(o);
    OffsetFits(w, p, e, unit, q);
    OffsetIsAdded(w, p, e, unit);
    TakeBack(n, h, j, i, k, k + o + 1, unit - p, low, Offset(w, p, e, unit), high);
    OffsetFits(w, p, e - 1, unit, q);
    WindowDigit(n[..h], k, o, p, w, e - 1, q, low, high);
  }

  /** One quotient digit: the window [k, k + o] becomes its remainder by the divisor `p`, in the digits
      below place k + o, and the quotient digit at it. `g` is the negated divisor, `j` scratch. */
  method DivideStep(n: array<Digit>, g: array<Digit>, j: array<Digit>, l: Digit, k: nat, o: nat, h: nat, ghost p: nat,
                    ghost low: nat, ghost w: nat, ghost high: nat)
    requires n != g && n != j && g != j
    requires 1 <= o <= g.Length && k + o < h <= n.Length && k + o <= j.Length
    requires 0 < p < Pow(o) && Val(g[..o]) == Pow(o) - p
    requires l >= 32768 && l * Pow(o - 1) <= p < l * Pow(o - 1) + Pow(o - 1)
    requires Cut(n[..h], k, k + o + 1, low, w, high) && w < 65536 * p
    modifies n, j
    ensures Cut(n[..h], k, k + o, low, w - Quot(w, p) * p, Quot(w, p) + 65536 * high)
  {
    var f := k + o;
    ghost var q := Quot(w, p);
    WindowTop(n[..h][k..f + 1], p, l);
    var e := Estimate(l, n[f], n[f - 1]);
    EstimateBounds(w, p, Pow(o - 1), l, n[f], n[f - 1], q);
    OffsetFits(w, p, e, Pow(o), q);
    AddNegated(n, h, g, e, k, o, p, low, w, high);
    WindowDigit(n[..h], k, o, p, w, e, q, low, high);
    if n[f] < e {
      var i := ShiftDigits(g, o, k, j);
      ShiftedValue(k, g[..o]);
      Corrections(n, h, j, i, e, f, k, o, p, w, q, low, high);
    }
  }

  /** Once for sure, and again while the guess is still too large. */
  method Corrections(n: array<Digit>, h: nat, j: array<Digit>, i: nat, guess: Digit, f: nat, ghost k: nat, ghost o: nat,
                     ghost p: nat, ghost w: nat, ghost q: nat, ghost low: nat, ghost high: nat)
    requires n != j && i <= h <= n.Length && i <= j.Length && f == k + o < h
    requires Guessed(n[..h], k, o, p, w, guess, q, low, high) && q < guess
    requires Val(j[..i]) == Pow(k) * (Pow(o) - p)
    modifies n
    ensures Guessed(n[..h], k, o, p, w, q, q, low, high)
  {
    var e := guess - 1;
    Correct(n, h, j, i, k, o, p, w, guess, q, low, high);
    while n[f] < e
      invariant Guessed(n[..h], k, o, p, w, e, q, low, high)
      decreases e
    {
      Correct(n, h, j, i, k, o, p, w, e, q, low, high);
      e := e - 1;
    }
  }

  lemma WindowTop(s: seq<Digit>, p: nat, l: Digit)
    requires |s| >= 2 && Val(s) < 65536 * p
    requires l >= 32768 && l * Pow(|s| - 2) <= p < l * Pow(|s| - 2) + Pow(|s| - 2)
    ensures TopDigits(Val(s), p, Pow(|s| - 2), l, s[|s| - 1], s[|s| - 2])
  {
    TopPair(s);
  }

  lemma TopPair(s: seq<Digit>)
    requires |s| >= 2
    ensures var d, head := Pow(|s| - 2), Head(s[|s| - 1], s[|s| - 2]);
      head * d <= Val(s) < head * d + d
  {
    var m := |s| - 2;
    var pair := [s[m], s[m + 1]];
    TopSplit(s[..m], pair);
    assert s == s[..m] + pair;
  }

  lemma TopSplit(low: seq<Digit>, top: seq<Digit>)
    ensures Val(top) * Pow(|low|) <= Val(low + top) < Val(top) * Pow(|low|) + Pow(|low|)
  {
    ValConcat(low, top);
    ValBound(low);
    Between(Val(low), Pow(|low|), Val(top), Val(low + top));
  }

  /** Reading the digit above the window tells whether the guess still stands too high; when it does not,
      the window holds the remainder and that digit is the quotient digit. */
  lemma WindowDigit(s: seq<Digit>, k: nat, o: nat, p: nat, w: nat, e: nat, q: nat, low: nat, high: nat)
    requires q <= e <= 65535 && 0 < p < Pow(o) && q * p <= w < q * p + p
    requires Offset(w, p, e, Pow(o)) >= 0
    requires Cut(s, k, k + o + 1, low, Offset(w, p, e, Pow(o)), high)
    ensures Guessed(s, k, o, p, w, e, q, low, high)
  {
    var f := k + o;
    assert s[k..f + 1] == s[k..f] + [s[f]];
    ValPush(s[k..f], s[f]);
    ValBound(s[k..f]);
    DigitTest(w, p, e, Pow(o), q, Val(s[k..f]), s[f]);
    assert s[f..] == [s[f]] + s[f + 1..];
  }

  // ---- Normalising ----

  /** `d := a << c`, cleared below; gives the digits used. */
  method ShiftMagnitude(a: array<Digit>, b: nat, c: nat, d: array<Digit>) returns (used: nat)
    requires 0 < b <= a.Length && c / 16 + b < d.Length && a != d
    modifies d
    ensures b + c / 16 <= used <= b + c / 16 + 1 && (used == b + c / 16 + 1 ==> d[used - 1] != 0)
    ensures Val(d[..used]) == Pow(c / 16) * (Pow2(c % 16) * Val(a[..b]))
  {
    var p := c / 16;
    if c % 16 == 0 {
      used := ShiftDigits(a, b, p, d);
      ShiftedValue(p, a[..b]);
      return;
    }
    ShiftAcross(a, b, c, d);
    WordSplit(c % 16);
    ShiftedUpNumber(a[..b], ShiftedUp(a[..b], 0, Pow2(16 - c % 16), Pow2(c % 16)), p, c % 16);
    used := UsedDigits(d, b + p + 1);
  }

  /** A shift that is not by whole digits needs one cell more. */
  method ShiftAcross(a: array<Digit>, b: nat, c: nat, d: array<Digit>)
    requires 0 < b <= a.Length && c / 16 + b < d.Length && a != d && c % 16 > 0
    modifies d
    ensures (WordSplit(c % 16);
             d[..b + c / 16 + 1] == Zeros(c / 16) + ShiftedUp(a[..b], 0, Pow2(16 - c % 16), Pow2(c % 16)))
  {
    var p, s := c / 16, b + c / 16 + 1;
    ShiftLeft(a, b, c, d);
    ghost var up := d[p..s];
    ClearLow(d, p);
    assert d[p..s] == up;
    assert d[..s] == Zeros(p) + up;
  }

  method UsedDigits(d: array<Digit>, s: nat) returns (used: nat)
    requires 0 < s <= d.Length
    ensures s - 1 <= used <= s && (used == s ==> d[used - 1] != 0) && Val(d[..used]) == Val(d[..s])
  {
    used := if d[s - 1] == 0 then s - 1 else s;
    if d[s - 1] == 0 {
      assert d[..s] == d[..s - 1] + [0];
      ValPush(d[..s - 1], 0);
    }
  }

  /** Cells below the shifted number are cleared. */
  method ClearLow(d: array<Digit>, p: nat)
    requires p <= d.Length
    modifies d
    ensures d[..p] == Zeros(p) && d[p..] == old(d[p..])
    ensures forall i :: p <= i < d.Length ==> d[i] == old(d[i])
  {
    var r := p;
    while r > 0
      invariant 0 <= r <= p
      invariant forall i :: r <= i < p ==> d[i] == 0
      invariant forall i :: p <= i < d.Length ==> d[i] == old(d[i])
    {
      r := r - 1;
      d[r] := 0;
    }
  }

  lemma ShiftedUpNumber(a: seq<Digit>, up: seq<Digit>, p: nat, bits: nat)
    requires 0 < bits < 16
    requires (WordSplit(bits); up == ShiftedUp(a, 0, Pow2(16 - bits), Pow2(bits)))
    ensures Val(Zeros(p) + up) == Pow(p) * (Pow2(bits) * Val(a))
  {
    WordSplit(bits);
    MulLe(1, Pow2(16 - bits), Pow2(bits));
    MulLe(1, Pow2(bits), Pow2(16 - bits));
    ShiftedUpValue(a, 0, Pow2(16 - bits), Pow2(bits));
    ShiftedValue(p, up);
  }

  function BitLength(x: nat): (b: nat)
    ensures x < Pow2(b) && (x > 0 ==> b > 0 && Pow2(b - 1) <= x)
  {
    if x == 0 then 0 else 1 + BitLength(x / 2)
  }

  lemma {:induction false} BitLengthBound(x: nat, n: nat)
    requires x < Pow2(n)
    ensures BitLength(x) <= n
  {
    if x > 0 && n > 0 { BitLengthBound(x / 2, n - 1); }
  }

  lemma DigitBits(x: Digit)
    requires x > 0
    ensures 1 <= BitLength(x) <= 16
  {
    WordSplit(0);
    BitLengthBound(x, 16);
  }

  /** Shifting by 16 less the bit length of the top digit fills the top bit and needs no further digit. */
  lemma Normalised(y: seq<Digit>, q: nat)
    requires |y| > 0 && y[|y| - 1] > 0 && q + BitLength(y[|y| - 1]) == 16
    ensures 32768 * Pow(|y| - 1) <= Pow2(q) * Val(y) < Pow(|y|)
  {
    var t: int, b := y[|y| - 1], BitLength(y[|y| - 1]);
    ValTop(y);
    Pow2Add(q, b);
    Pow2Add(q, b - 1);
    assert Pow2(16) == 256 * Pow2(8) == 65536 && Pow2(15) == 128 * Pow2(8) == 32768;
    ScaledTop(Val(y), t, Pow(|y| - 1), Pow2(q), Pow2(b - 1), Pow2(b));
  }

  lemma ScaledTop(v: int, t: int, d: nat, z: nat, lo: int, hi: int)
    requires t * d <= v < t * d + d && lo <= t < hi && z > 0 && d > 0
    requires z * lo == 32768 && z * hi == 65536
    ensures 32768 * d <= z * v < 65536 * d
  {
    MulLe(lo, t, d);
    MulLe(t + 1, hi, d);
    Distribute(d, t, 1);
    MulLe(lo * d, v, z);
    MulLe(v + 1, hi * d, z);
    Distribute(z, v, 1);
    Reassociate(z, lo, d);
    Reassociate(z, hi, d);
  }

  /** So the shifted divisor keeps its length, with the top bit set. */
  lemma NormalisedTop(p: seq<Digit>, r: nat)
    requires 0 < r <= |p| <= r + 1 && (|p| == r + 1 ==> p[r] != 0)
    requires 32768 * Pow(r - 1) <= Val(p) < Pow(r)
    ensures |p| == r && p[r - 1] >= 32768
    ensures p[r - 1] * Pow(r - 1) <= Val(p) < p[r - 1] * Pow(r - 1) + Pow(r - 1)
  {
    ValTop(p);
    if |p| == r + 1 { NoTopDigit(p[r], Pow(r), Val(p)); }
    LargeTopDigit(p[r - 1], Pow(r - 1), Val(p));
  }

  lemma NoTopDigit(d: int, u: nat, v: int)
    requires d >= 0 && u > 0 && d * u <= v < u
    ensures d == 0
  {
    if d > 0 { MulLe(1, d, u); }
  }

  lemma LargeTopDigit(d: int, u: nat, v: int)
    requires u > 0 && 32768 * u <= v < d * u + u
    ensures d >= 32768
  {
    if d < 32768 {
      MulLe(d + 1, 32768, u);
      Distribute(u, d, 1);
    }
  }

  // ---- The whole division ----

  /** Working array `s` of `h` digits for dividend `x` and divisor `y`: the remainder, still shifted up
      by `q` bits, in the lowest `o` digits and the quotient in the rest. */
  ghost predicate Divided(x: nat, y: nat, s: seq<Digit>, h: nat, o: nat, q: nat) {
    && y > 0 && q < 16 && o <= h <= |s|
    && Val(s[o..h]) == Quot(x, y)
    && Val(s[..o]) == Pow2(q) * (x - Quot(x, y) * y)
  }

  /** Quotient `high` found so far at weight `u`, remainder `rem` left, of a dividend `x` by `p`. */
  ghost predicate Balance(high: int, rem: int, p: int, u: int, x: int) {
    high * p * u + rem == x && rem < p * u
  }

  /** The division in progress: `k` quotient digits still to find; those found stand from place k + o up. */
  ghost predicate Running(s: seq<Digit>, k: nat, o: nat, p: nat, x: nat) {
    k + o < |s| && Balance(Val(s[k + o..]), Val(s[..k + o]), p, Pow(k), x)
  }

  lemma WindowSplit(s: seq<Digit>, k: nat, o: nat) returns (low: nat, w: nat)
    requires k + o < |s| && k > 0
    ensures low < Pow(k - 1) && low + Pow(k - 1) * w == Val(s[..k + o])
    ensures Cut(s, k - 1, k + o, low, w, Val(s[k + o..]))
  {
    low, w := Val(s[..k - 1]), Val(s[k - 1..k + o]);
    assert s[..k + o] == s[..k - 1] + s[k - 1..k + o];
    ValConcat(s[..k - 1], s[k - 1..k + o]);
    ValBound(s[..k - 1]);
  }

  lemma WindowFits(high: int, low: nat, w: int, u: nat, u': int, p: int, rem: int, x: int)
    requires Balance(high, rem, p, u', x) && u' == 65536 * u && low + u * w == rem && u > 0
    ensures w < 65536 * p
  {
    Reassociate(p, 65536, u);
    if w >= 65536 * p { MulLe(65536 * p, w, u); }
  }

  lemma BalanceStep(high: int, low: nat, w: int, u: nat, u': int, p: int, rem: int, x: int, q: int)
    requires Balance(high, rem, p, u', x) && u' == 65536 * u && low + u * w == rem && low < u
    requires q * p <= w < q * p + p
    ensures Balance(q + 65536 * high, low + u * (w - q * p), p, u, x)
  {
    RunningSum(q, high, p, u, w);
    MulLe(w - q * p + 1, p, u);
    Distribute(u, w - q * p, 1);
  }

  lemma RunningSum(q: int, high: int, p: int, u: int, w: int)
    ensures (q + 65536 * high) * p * u + u * (w - q * p) == high * p * (65536 * u) + u * w
  {
    var a, b := q * p, high * p;
    Distribute(p, q, 65536 * high);
    Reassociate(65536, high, p);
    Distribute(u, a, 65536 * b);
    Reassociate(65536, b, u);
    Distribute(u, w, 0 - a);
    Reassociate(b, 65536, u);
  }

  lemma Rejoin(s: seq<Digit>, k: nat, o: nat, low: nat, mid: int, high: nat)
    requires k + o < |s| && Cut(s, k, k + o, low, mid, high)
    ensures Val(s[..k + o]) == low + Pow(k) * mid && Val(s[k + o..]) == high
  {
    assert s[..k + o] == s[..k] + s[k..k + o];
    ValConcat(s[..k], s[k..k + o]);
  }

  /** The top quotient digit is 0 or 1; it is written above the dividend before the subtraction. */
  method TopDigit(n: array<Digit>, m: nat, j: array<Digit>, i: nat, ghost k: nat, ghost o: nat, ghost p: nat,
                  ghost x: nat)
    requires n != j && i == m == k + o < n.Length && m <= j.Length
    requires Val(j[..i]) == p * Pow(k) && Val(n[..m]) == x < 2 * (p * Pow(k)) && p > 0
    modifies n
    ensures Running(n[..m + 1], k, o, p, x)
  {
    ghost var unit := p * Pow(k);
    var c := Compare(n, m, j, i);
    ghost var s := n[..m];
    ValBound(s);
    n[m] := if c >= 0 then 1 else 0;
    assert n[..m + 1] == s + [n[m]];
    ValPush(s, n[m]);
    if c >= 0 {
      DifferenceFits(n[..m + 1], j[..i], 0);
      Subtract(n, m + 1, j, i, n);
      ValBound(j[..i]);
      TopRunning(n[..m + 1], k, o, p, x, 1);
    } else {
      TopRunning(n[..m + 1], k, o, p, x, 0);
    }
  }

  lemma TopRunning(s: seq<Digit>, k: nat, o: nat, p: nat, x: nat, d: nat)
    requires |s| == k + o + 1 && d <= 1
    requires d == 0 ==> x < p * Pow(k) && Val(s) == x && x < Pow(k + o)
    requires d == 1 ==>
      p * Pow(k) <= x < 2 * (p * Pow(k)) && Val(s) == x - p * Pow(k) + Pow(k + o) && x - p * Pow(k) < Pow(k + o)
    ensures Running(s, k, o, p, x)
  {
    var m, u := k + o, p * Pow(k);
    WindowTopDigit(s, if d == 1 then x - u else x, d);
    assert s[m..] == [s[m]];
    assert Val([s[m]]) == d;
    TopBalance(d, Val(s[..m]), p, Pow(k), u, x);
  }

  lemma TopBalance(d: nat, rem: nat, p: nat, w: nat, u: nat, x: nat)
    requires d <= 1 && u == p * w && rem < u && x == rem + if d == 1 then u else 0
    ensures Balance(d, rem, p, w, x)
  {
  }

  lemma WindowTopDigit(s: seq<Digit>, low: nat, d: nat)
    requires |s| > 0 && low < Pow(|s| - 1) && Val(s) == low + Pow(|s| - 1) * d
    ensures s[|s| - 1] == d && Val(s[..|s| - 1]) == low
  {
    assert s == s[..|s| - 1] + [s[|s| - 1]];
    ValPush(s[..|s| - 1], s[|s| - 1]);
    ValBound(s[..|s| - 1]);
    SplitUnique(Pow(|s| - 1), Val(s[..|s| - 1]), s[|s| - 1], low, d);
  }

  /** The divisor negated in its own length: the base's power less the divisor. */
  method Negate(p: array<Digit>, o: nat) returns (g: array<Digit>)
    requires 1 <= o <= p.Length && Val(p[..o]) > 0
    ensures fresh(g) && g.Length == o + 2 && Val(g[..o]) == Pow(o) - Val(p[..o])
  {
    g := new Digit[o + 2](_ => 0);
    g[o] := 1;
    ghost var top, p0 := g[..o + 1], p[..o];
    Subtract(g, o + 1, p, o, g);
    assert p[..o] == p0;
    NegatedDigits(top, p0, g[..o + 1]);
    assert g[..o + 1][..o] == g[..o];
  }

  lemma NegatedDigits(top: seq<Digit>, p: seq<Digit>, e: seq<Digit>)
    requires |top| == |p| + 1 && top[|p|] == 1 && forall i :: 0 <= i < |p| ==> top[i] == 0
    requires Val(p) > 0 && e == DifferenceDigits(top, p, 0)
    ensures Val(e[..|p|]) == Pow(|p|) - Val(p)
  {
    PowerDigits(top);
    ValBound(p);
    DifferenceFits(top, p, 0);
    LowDigits(e, Pow(|p|) - Val(p));
  }

  lemma LowDigits(e: seq<Digit>, v: nat)
    requires |e| > 0 && Val(e) == v < Pow(|e| - 1)
    ensures Val(e[..|e| - 1]) == v
  {
    WindowTopDigit(e, v, 0);
  }

  /** All quotient digits, from place k down. */
  method QuotientLoop(n: array<Digit>, h: nat, g: array<Digit>, j: array<Digit>, l: Digit, o: nat, start: nat,
                      ghost p: nat, ghost x: nat)
    requires n != g && n != j && g != j
    requires 1 <= o <= g.Length && start + o < h <= n.Length && start + o <= j.Length
    requires 0 < p < Pow(o) && Val(g[..o]) == Pow(o) - p
    requires l >= 32768 && l * Pow(o - 1) <= p < l * Pow(o - 1) + Pow(o - 1)
    requires Running(n[..h], start, o, p, x)
    modifies n, j
    ensures Running(n[..h], 0, o, p, x)
  {
    var k := start;
    while k > 0
      invariant 0 <= k <= start
      invariant Running(n[..h], k, o, p, x)
      invariant Val(g[..o]) == Pow(o) - p
    {
      ghost var high, rem := Val(n[..h][k + o..]), Val(n[..h][..k + o]);
      ghost var low, w := WindowSplit(n[..h], k, o);
      WindowFits(high, low, w, Pow(k - 1), Pow(k), p, rem, x);
      k := k - 1;
      DivideStep(n, g, j, l, k, o, h, p, low, w, high);
      Rejoin(n[..h], k, o, low, w - Quot(w, p) * p, Quot(w, p) + 65536 * high);
      BalanceStep(high, low, w, Pow(k), Pow(k + 1), p, rem, x, Quot(w, p));
    }
  }

  method DivideNormalised(n: array<Digit>, m: nat, p: array<Digit>, o: nat, ghost x: nat)
    requires n != p && 1 <= o <= m < n.Length && o <= p.Length
    requires p[o - 1] >= 32768 && Val(n[..m]) == x
    modifies n
    ensures Running(n[..m + 1], 0, o, Val(p[..o]), x)
  {
    var l, k := p[o - 1], m - o;
    ghost var pv := Val(p[..o]);
    ValBound(n[..m]);
    Prepared(p[..o], k, x);
    ghost var divisor := p[..o];
    var j := new Digit[m](_ => 0);
    var i := ShiftDigits(p, o, k, j);
    assert p[..o] == divisor;
    ShiftedValue(k, divisor);
    Reassociate(1, Pow(k), pv);
    TopDigit(n, m, j, i, k, o, pv, x);
    var g := Negate(p, o);
    QuotientLoop(n, m + 1, g, j, l, o, k, pv, x);
  }

  /** With its top bit set, twice the shifted divisor passes any dividend of the same length. */
  lemma Prepared(p: seq<Digit>, k: nat, x: nat)
    requires |p| > 0 && p[|p| - 1] >= 32768 && x < Pow(|p| + k)
    ensures var l, d := p[|p| - 1], Pow(|p| - 1);
      l * d <= Val(p) < l * d + d && 0 < Val(p) < Pow(|p|) && x < 2 * (Val(p) * Pow(k))
  {
    var o, l := |p|, p[|p| - 1];
    ValTop(p);
    ValBound(p);
    MulLe(32768, l, Pow(o - 1));
    MulLe(32768 * Pow(o - 1), Val(p), Pow(k));
    PowAdd(o - 1, k);
    Reassociate(32768, Pow(o - 1), Pow(k));
    assert Pow(o + k) == 65536 * Pow(o - 1 + k);
  }

  lemma PowerDigits(s: seq<Digit>)
    requires |s| > 0 && s[|s| - 1] == 1 && forall i :: 0 <= i < |s| - 1 ==> s[i] == 0
    ensures Val(s) == Pow(|s| - 1)
  {
    assert s == Zeros(|s| - 1) + [1];
    ShiftedValue(|s| - 1, [1]);
    assert Val([1]) == 1;
  }

  method CopyRange(a: array<Digit>, b: nat, c: nat, d: nat) returns (r: array<Digit>)
    requires b <= c <= a.Length && c - b <= d
    ensures fresh(r) && r.Length == d && r[..c - b] == a[b..c]
  {
    r := new Digit[d](_ => 0);
    var s := 0;
    while s < c - b
      invariant 0 <= s <= c - b
      invariant forall i :: 0 <= i < s ==> r[i] == a[b + i]
    {
      r[s] := a[b + s];
      s := s + 1;
    }
  }

  /** Shifts divisor and dividend up until the divisor's top bit is set. */
  method Normalise(x: array<Digit>, c: nat, y: array<Digit>, r: nat)
    returns (n: array<Digit>, m: nat, p: array<Digit>, q: nat)
    requires 0 < r <= c <= x.Length && r <= y.Length && y[r - 1] != 0
    ensures fresh(n) && n != p && r <= p.Length && q < 16 && r <= m < n.Length
    ensures p[r - 1] >= 32768 && Val(p[..r]) == Pow2(q) * Val(y[..r]) && Val(n[..m]) == Pow2(q) * Val(x[..c])
  {
    DigitBits(y[r - 1]);
    q := 16 - BitLength(y[r - 1]);
    Normalised(y[..r], q);
    if q > 0 {
      p := new Digit[r + 5](_ => 0);
      SmallShift(q, Val(y[..r]));
      SmallShift(q, Val(x[..c]));
      var o := ShiftMagnitude(y, r, q, p);
      NormalisedTop(p[..o], r);
      n := new Digit[c + 5](_ => 0);
      m := ShiftMagnitude(x, c, q, n);
    } else {
      n := CopyRange(x, 0, c, c + 2);
      p, m := y, c;
      assert n[..c] == x[..c];
      NoShift(Val(x[..c]));
      NoShift(Val(y[..r]));
      NormalisedTop(p[..r], r);
    }
  }

  lemma SmallShift(q: nat, v: nat)
    requires q < 16
    ensures Pow(q / 16) * (Pow2(q % 16) * v) == Pow2(q) * v
  {
    assert q / 16 == 0 && q % 16 == q && Pow(0) == 1;
  }

  lemma NoShift(v: nat)
    ensures Pow2(0) * v == v
  {
  }

  /** The division of two magnitudes. */
  method Divide(x: array<Digit>, c: nat, y: array<Digit>, r: nat) returns (n: array<Digit>, h: nat, o: nat, q: nat)
    requires 0 < r <= c <= x.Length && r <= y.Length && y[r - 1] != 0
    ensures fresh(n) && Divided(Val(x[..c]), Val(y[..r]), n[..], h, o, q)
  {
    ghost var xv, yv := Val(x[..c]), Val(y[..r]);
    var p, m;
    n, m, p, q := Normalise(x, c, y, r);
    o, h := r, m + 1;
    DivideNormalised(n, m, p, o, Pow2(q) * xv);
    assert n[..][..h] == n[..h];
    NotZero(y[..r]);
    Finish(n[..], h, o, q, xv, yv);
  }

  lemma NotZero(y: seq<Digit>)
    requires |y| > 0 && y[|y| - 1] != 0
    ensures Val(y) > 0
  {
    ValTop(y);
    MulLe(1, y[|y| - 1], Pow(|y| - 1));
  }

  lemma Finish(s: seq<Digit>, h: nat, o: nat, q: nat, x: nat, y: nat)
    requires h <= |s| && q < 16 && y > 0
    requires Running(s[..h], 0, o, Pow2(q) * y, Pow2(q) * x)
    ensures Divided(x, y, s, h, o, q)
  {
    assert s[..h][o..] == s[o..h] && s[..h][..o] == s[..o];
    FinishUnits(Val(s[o..h]), Val(s[..o]), Pow2(q), x, y, Quot(x, y));
  }

  lemma FinishUnits(high: nat, r: nat, z: nat, x: nat, y: nat, q: nat)
    requires z > 0 && high * (z * y) * 1 + r == z * x && r < z * y
    requires q * y <= x < q * y + y
    ensures high == q && r == z * (x - q * y)
  {
    var t := x - q * y;
    Distribute(z, q * y, t);
    Reassociate(z, q, y);
    MulLe(t + 1, y, z);
    Distribute(z, t, 1);
    MulLe(0, t, z);
    SplitUnique(z * y, r, high, z * t, q);
  }
}
