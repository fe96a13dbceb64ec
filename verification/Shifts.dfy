/** Bit shifts of magnitudes: the top-down left shift and the bottom-up right shift. */
module Shifts {
  import opened Digits

  function Pow2(n: nat): (p: nat)
    ensures p > 0
  {
    if n == 0 then 1 else 2 * Pow2(n - 1)
  }

  lemma {:induction false} Pow2Add(a: nat, b: nat)
    ensures Pow2(a + b) == Pow2(a) * Pow2(b)
  {
    if a > 0 {
      Pow2Add(a - 1, b);
      Reassociate(2, Pow2(a - 1), Pow2(b));
    }
  }

  lemma WordSplit(o: nat)
    requires o <= 16
    ensures Pow2(16 - o) * Pow2(o) == 65536 == Pow2(o) * Pow2(16 - o)
  {
    Pow2Add(16 - o, o);
    assert Pow2(16) == 256 * Pow2(8) == 65536;
  }

  /** A digit cut at bit 16 - o: the high part is below 2^o and the low part below 2^(16-o). */
  lemma CutDigit(x: Digit, n: nat, o: nat)
    requires n > 0 && n * o == 65536
    ensures 0 <= x / n < o && 0 <= x % n < n && x == n * (x / n) + x % n
    ensures o * x == 65536 * (x / n) + o * (x % n)
    ensures (x % n) * o + o <= 65536
  {
    var h, l := x / n, x % n;
    assert x == n * h + l;
    if h >= o { MulLe(o, h, n); }
    Distribute(o, n * h, l);
    Reassociate(o, n, h);
    MulLe(l + 1, n, o);
    Distribute(o, l, 1);
  }

  // ---- Left ----

  function ShiftedUp(a: seq<Digit>, carry: nat, n: nat, o: nat): (d: seq<Digit>)
    requires n > 0 && n * o == 65536 && carry < o <= 65536
    ensures |d| == |a| + 1
  {
    if |a| == 0 then [carry]
    else
      CutDigit(a[0], n, o);
      [carry + (a[0] % n) * o] + ShiftedUp(a[1..], a[0] / n, n, o)
  }

  lemma {:induction false} ShiftedUpValue(a: seq<Digit>, carry: nat, n: nat, o: nat)
    requires n > 0 && n * o == 65536 && carry < o <= 65536
    ensures Val(ShiftedUp(a, carry, n, o)) == carry + o * Val(a)
  {
    if |a| > 0 {
      CutDigit(a[0], n, o);
      ShiftedUpValue(a[1..], a[0] / n, n, o);
      MulUnfold(o, Val(a), a[0], Val(a[1..]));
      ShiftedUpUnfold(a, carry, n, o);
    }
  }

  lemma ShiftedUpUnfold(a: seq<Digit>, carry: nat, n: nat, o: nat)
    requires n > 0 && n * o == 65536 && carry < o <= 65536 && |a| > 0
    ensures (CutDigit(a[0], n, o); Val(ShiftedUp(a, carry, n, o))
            == carry + o * (a[0] % n) + 65536 * Val(ShiftedUp(a[1..], a[0] / n, n, o)))
  {
    CutDigit(a[0], n, o);
    var s := ShiftedUp(a, carry, n, o);
    assert s[1..] == ShiftedUp(a[1..], a[0] / n, n, o);
  }

  lemma {:induction false} ShiftedUpAt(a: seq<Digit>, carry: nat, n: nat, o: nat, i: nat)
    requires n > 0 && n * o == 65536 && carry < o <= 65536 && i <= |a|
    ensures ShiftedUp(a, carry, n, o)[i]
         == (if i == 0 then carry else a[i - 1] / n) + (if i < |a| then (a[i] % n) * o else 0)
  {
    if |a| > 0 {
      CutDigit(a[0], n, o);
      if i > 0 { ShiftedUpAt(a[1..], a[0] / n, n, o, i - 1); }
    }
  }

  /** `d := a << c`, from the top digit down. The two parts joined in a cell have no bit in common,
      so the bitwise or of the original is a sum here. Digits below c / 16 are left alone. */
  method ShiftLeft(a: array<Digit>, b: nat, c: nat, d: array<Digit>)
    requires b <= a.Length && c / 16 + b < d.Length && a != d
    modifies d
    ensures (WordSplit(c % 16); d[c / 16..c / 16 + b + 1] == ShiftedUp(a[..b], 0, Pow2(16 - c % 16), Pow2(c % 16)))
    ensures forall i :: 0 <= i < d.Length && !(c / 16 <= i <= c / 16 + b) ==> d[i] == old(d[i])
  {
    var p, o := c / 16, c % 16;
    var n, u := Pow2(16 - o), Pow2(o);
    WordSplit(o);
    MulLe(1, n, u);
    ghost var want := ShiftedUp(a[..b], 0, n, u);
    var s, r := b - 1, 0;
    while s >= 0
      invariant -1 <= s < b
      invariant r == if s + 1 < b then (a[s + 1] % n) * u else 0
      invariant forall i :: p + s + 1 < i <= p + b ==> d[i] == want[i - p]
      invariant forall i :: 0 <= i < d.Length && !(p <= i <= p + b) ==> d[i] == old(d[i])
    {
      ShiftedUpAt(a[..b], 0, n, u, s + 1);
      CutDigit(a[s], n, u);
      d[s + p + 1] := a[s] / n + r;
      r := (a[s] % n) * u;
      s := s - 1;
    }
    ShiftedUpAt(a[..b], 0, n, u, 0);
    d[p] := r;
  }

  // ---- Right ----

  /** Two cell parts with no bit in common, joined. */
  function Joined(low: nat, o: nat, high: nat): Digit
    requires low * o + o <= 65536 && high < o
  {
    low * o + high
  }

  function ShiftedDown(a: seq<Digit>, p: nat, o: nat): (d: seq<Digit>)
    requires |a| > 0 && p > 0 && p * o == 65536
    ensures |d| == |a|
  {
    CutDigit(a[0], p, o);
    if |a| == 1 then [a[0] / p]
    else
      CutDigit(a[1], p, o);
      [Joined(a[1] % p, o, a[0] / p)] + ShiftedDown(a[1..], p, o)
  }

  /** The bits shifted out are those of the lowest digit; the rest is the floor of the quotient. */
  lemma {:induction false} ShiftedDownValue(a: seq<Digit>, p: nat, o: nat)
    requires |a| > 0 && p > 0 && p * o == 65536
    ensures p * Val(ShiftedDown(a, p, o)) + a[0] % p == Val(a)
  {
    CutDigit(a[0], p, o);
    var d := ShiftedDown(a, p, o);
    if |a| == 1 {
      assert d[1..] == [] && a[1..] == [];
    } else {
      ShiftedDownValue(a[1..], p, o);
      CutDigit(a[1], p, o);
      assert d[1..] == ShiftedDown(a[1..], p, o);
      MulUnfold(p, Val(d), d[0], Val(d[1..]));
      Distribute(p, (a[1] % p) * o, a[0] / p);
      Reassociate(p, a[1] % p, o);
    }
  }

  lemma {:induction false} ShiftedDownAt(a: seq<Digit>, p: nat, o: nat, i: nat)
    requires i < |a| && p > 0 && p * o == 65536
    ensures ShiftedDown(a, p, o)[i] == a[i] / p + (if i + 1 < |a| then (a[i + 1] % p) * o else 0)
  {
    CutDigit(a[0], p, o);
    if |a| > 1 {
      CutDigit(a[1], p, o);
      if i > 0 { ShiftedDownAt(a[1..], p, o, i - 1); }
    }
  }

  /** A cell of the result, as the loop makes it. */
  lemma DownCell(a: seq<Digit>, p: nat, o: nat, i: nat)
    requires i + 1 < |a| && p > 0 && p * o == 65536
    ensures 0 <= a[i + 1] % p && (a[i + 1] % p) * o + o <= 65536 && 0 <= a[i] / p < o && 0 <= a[i + 1] / p
    ensures Joined(a[i + 1] % p, o, a[i] / p) == ShiftedDown(a, p, o)[i]
  {
    ShiftedDownAt(a, p, o, i);
    CutDigit(a[i], p, o);
    CutDigit(a[i + 1], p, o);
  }

  /** `d := a >> c`, from the bottom digit up; the sum joins parts with no bit in common. */
  method ShiftRight(a: array<Digit>, b: nat, c: nat, d: array<Digit>)
    requires c / 16 < b <= a.Length && b - c / 16 <= d.Length && a != d
    modifies d
    ensures (WordSplit(c % 16); d[..b - c / 16] == ShiftedDown(a[c / 16..b], Pow2(c % 16), Pow2(16 - c % 16)))
  {
    var q, p := c / 16, c % 16;
    WordSplit(p);
    ShiftRightBy(a, b, q, Pow2(p), Pow2(16 - p), d);
  }

  method ShiftRightBy(a: array<Digit>, b: nat, q: nat, u: nat, o: nat, d: array<Digit>)
    requires q < b <= a.Length && b - q <= d.Length && a != d && u > 0 && u * o == 65536
    modifies d
    ensures d[..b - q] == ShiftedDown(a[q..b], u, o)
  {
    ghost var src := a[q..b];
    ghost var want := ShiftedDown(src, u, o);
    CutDigit(a[q], u, o);
    var l, s, m: nat := b - q - 1, 0, a[q] / u;
    while s < l
      invariant 0 <= s <= l
      invariant 0 <= m == src[s] / u
      invariant forall i :: 0 <= i < s ==> d[i] == want[i]
    {
      DownCell(src, u, o, s);
      var r := a[s + q + 1];
      assert r == src[s + 1];
      d[s] := Joined(r % u, o, m);
      m := r / u;
      s := s + 1;
    }
    ShiftedDownAt(src, u, o, l);
    d[l] := m;
  }
}
