/** Arbitrary-precision integers: a sign and a magnitude whose top digit is not zero. */
module BigIntegers {
  import opened Digits
  import opened Shifts
  import opened LongDivision

  function Signed(negative: bool, m: nat): int {
    if negative then 0 - m else m
  }

  datatype BigInt = BigInt(negative: bool, digits: array<Digit>, used: nat) {

    ghost predicate Valid()
      reads digits
    {
      && used <= digits.Length
      && (used > 0 ==> digits[used - 1] != 0)
      && (used == 0 ==> !negative)
    }

    ghost function Magnitude(): nat
      requires used <= digits.Length
      reads digits
    {
      Val(digits[..used])
    }

    ghost function Value(): int
      requires used <= digits.Length
      reads digits
    {
      Signed(negative, Magnitude())
    }
  }

  /** A fresh result around a digit array: leading zeros dropped, and zero never negative. */
  method Make(negative: bool, n: nat, d: array<Digit>) returns (r: BigInt)
    requires n <= d.Length
    ensures r.Valid() && r.digits == d && (r.negative ==> negative)
    ensures r.Value() == Signed(negative, Val(d[..n]))
  {
    var used := Trim(n, d);
    r := BigInt(used != 0 && negative, d, used);
  }

  method Zero() returns (r: BigInt)
    ensures r.Valid() && r.Value() == 0 && r.used == 0
  {
    var d := new Digit[1](_ => 0);
    r := Make(false, 1, d);
    ValZeros(d[..1]);
    SignOf(r);
  }

  method Negated(x: BigInt) returns (r: BigInt)
    requires x.Valid()
    ensures r.Valid() && r.Value() == -x.Value()
  {
    if x.used == 0 { return x; }
    r := Make(!x.negative, x.used, x.digits);
  }

  /** The first is the longer or the two are as long: adds magnitudes. */
  method AddMagnitudes(x: BigInt, y: BigInt, negative: bool) returns (r: BigInt)
    requires x.Valid() && y.Valid()
    ensures r.Valid()
    ensures r.Value() == Signed(negative, x.Magnitude() + y.Magnitude())
    decreases if x.used < y.used then 1 else 0
  {
    if x.used < y.used {
      r := AddMagnitudes(y, x, negative);
    } else if x.used == 0 {
      r := Zero();
    } else if y.used == 0 {
      r := WithSign(x, negative);
    } else {
      r := AddLonger(x, y, negative);
    }
  }

  method AddLonger(x: BigInt, y: BigInt, negative: bool) returns (r: BigInt)
    requires x.Valid() && y.Valid() && 0 < y.used <= x.used
    ensures r.Valid()
    ensures r.Value() == Signed(negative, x.Magnitude() + y.Magnitude())
  {
    var d := new Digit[x.used + 1](_ => 0);
    SumValue(x.digits[..x.used], y.digits[..y.used], 0);
    Add(x.digits, x.used, y.digits, y.used, d);
    assert Val(d[..x.used + 1]) == x.Magnitude() + y.Magnitude();
    r := Make(negative, x.used + 1, d);
  }

  /** The magnitude of `x` under a given sign. */
  method WithSign(x: BigInt, negative: bool) returns (r: BigInt)
    requires x.Valid()
    ensures r.Valid() && r.Value() == Signed(negative, x.Magnitude())
  {
    if x.negative == negative { r := x; } else { r := Negated(x); }
  }

  /** Subtracts a magnitude that is not larger. */
  method SubtractMagnitudes(x: BigInt, y: BigInt, negative: bool) returns (r: BigInt)
    requires x.Valid() && y.Valid() && x.Magnitude() >= y.Magnitude()
    ensures r.Valid()
    ensures r.Value() == Signed(negative, x.Magnitude() - y.Magnitude())
  {
    if x.used == 0 {
      r := Zero();
    } else if y.used == 0 {
      r := WithSign(x, negative);
    } else {
      if x.used < y.used { LongerIsLarger(x.digits[..x.used], y.digits[..y.used]); }
      var d := new Digit[x.used](_ => 0);
      DifferenceFits(x.digits[..x.used], y.digits[..y.used], 0);
      Subtract(x.digits, x.used, y.digits, y.used, d);
      assert Val(d[..x.used]) == x.Magnitude() - y.Magnitude();
      r := Make(negative, x.used, d);
    }
  }

  method Plus(x: BigInt, y: BigInt) returns (r: BigInt)
    requires x.Valid() && y.Valid()
    ensures r.Valid() && r.Value() == x.Value() + y.Value()
  {
    if x.used == 0 { return y; }
    if y.used == 0 { return x; }
    if x.negative == y.negative {
      r := AddMagnitudes(x, y, x.negative);
    } else {
      var c := Compare(x.digits, x.used, y.digits, y.used);
      if c >= 0 {
        r := SubtractMagnitudes(x, y, x.negative);
      } else {
        r := SubtractMagnitudes(y, x, !x.negative);
      }
    }
  }

  method Minus(x: BigInt, y: BigInt) returns (r: BigInt)
    requires x.Valid() && y.Valid()
    ensures r.Valid() && r.Value() == x.Value() - y.Value()
  {
    if x.used == 0 { r := Negated(y); return; }
    if y.used == 0 { return x; }
    if x.negative != y.negative {
      r := AddMagnitudes(x, y, x.negative);
    } else {
      var c := Compare(x.digits, x.used, y.digits, y.used);
      if c >= 0 {
        r := SubtractMagnitudes(x, y, x.negative);
      } else {
        r := SubtractMagnitudes(y, x, !x.negative);
      }
    }
  }

  // ---- Multiplication ----

  /** Schoolbook product so far: `o` digits of `y` used up, the cells above still clear. */
  ghost predicate ProductAt(p: seq<Digit>, x: seq<Digit>, y: seq<Digit>, o: nat) {
    && o <= |y| && |p| == |x| + |y|
    && Val(p[..o + |x|]) == Val(x) * Val(y[..o])
    && forall i :: o + |x| <= i < |p| ==> p[i] == 0
  }

  lemma ProductRow(p: seq<Digit>, x: seq<Digit>, y: seq<Digit>, o: nat)
    requires o < |y| && |p| == |x| + |y| && p[o + |x|] == 0
    ensures Val(p[o..o + |x| + 1]) + y[o] * Val(x) < Pow(|x| + 1)
  {
    RowWindow(p, o, |x|);
    RowRoom(Val(p[o..o + |x| + 1]), y[o], x);
  }

  lemma RowRoom(w: nat, d: Digit, x: seq<Digit>)
    requires w < Pow(|x|)
    ensures w + d * Val(x) < Pow(|x| + 1)
  {
    ValBound(x);
    RowFits(w, d, Val(x), Pow(|x|), Pow(|x| + 1));
  }

  /** The window of a row, whose top digit is still clear. */
  lemma RowWindow(p: seq<Digit>, o: nat, n: nat)
    requires o + n < |p| && p[o + n] == 0
    ensures Val(p[o..o + n + 1]) < Pow(n)
  {
    var w := p[o..o + n];
    assert p[o..o + n + 1] == w + [0];
    ValPush(w, 0);
    ValBound(w);
  }

  lemma RowFits(w: int, d: Digit, x: int, u: int, next: int)
    requires w < u && 0 <= x < u && next == 65536 * u
    ensures w + d * x < next
  {
    MulLe(d, 65535, x);
  }

  lemma ProductStep(p: seq<Digit>, p': seq<Digit>, x: seq<Digit>, y: seq<Digit>, o: nat, row: int)
    requires ProductAt(p, x, y, o) && o < |y| && |p'| == |p|
    requires p'[..o] == p[..o] && p'[o + |x| + 1..] == p[o + |x| + 1..]
    requires Val(p'[o..o + |x| + 1]) == Val(p[o..o + |x| + 1]) + row && row == y[o] * Val(x)
    ensures ProductAt(p', x, y, o + 1)
  {
    var t := o + |x| + 1;
    ProductValue(p, p', Val(x), y, o, t, row);
    SameAbove(p, p', t);
    assert o + 1 + |x| == t;
  }

  lemma ProductValue(p: seq<Digit>, p': seq<Digit>, x: nat, y: seq<Digit>, o: nat, t: nat, row: int)
    requires o < |y| && o < t <= |p| == |p'| && p'[..o] == p[..o] && p[t - 1] == 0
    requires Val(p'[o..t]) == Val(p[o..t]) + row && row == y[o] * x && Val(p[..t - 1]) == x * Val(y[..o])
    ensures Val(p'[..t]) == x * Val(y[..o + 1])
  {
    RowAdded(p, p', o, t, row);
    DigitUsed(y, o);
    NextRow(x, Val(y[..o]), Pow(o), y[o], Val(y[..o + 1]), row, Val(p[..t - 1]), Val(p'[..t]));
  }

  lemma DigitUsed(y: seq<Digit>, o: nat)
    requires o < |y|
    ensures Val(y[..o + 1]) == Val(y[..o]) + Pow(o) * y[o]
  {
    ValPush(y[..o], y[o]);
    assert y[..o + 1] == y[..o] + [y[o]];
  }

  lemma RowAdded(p: seq<Digit>, p': seq<Digit>, o: nat, t: nat, row: int)
    requires o < t <= |p| == |p'| && p'[..o] == p[..o] && Val(p'[o..t]) == Val(p[o..t]) + row && p[t - 1] == 0
    ensures Val(p'[..t]) == Val(p[..t - 1]) + Pow(o) * row
  {
    ProductLow(p, p', o, t, row);
    ZeroTop(p, t);
  }

  lemma ZeroTop(p: seq<Digit>, t: nat)
    requires 0 < t <= |p| && p[t - 1] == 0
    ensures Val(p[..t]) == Val(p[..t - 1])
  {
    ZeroAbove(p, t - 1);
  }

  lemma ZeroAbove(p: seq<Digit>, t: nat)
    requires t < |p| && p[t] == 0
    ensures Val(p[..t + 1]) == Val(p[..t])
  {
    assert p[..t + 1] == p[..t] + [0];
    ValPush(p[..t], 0);
  }

  lemma SameAbove(p: seq<Digit>, p': seq<Digit>, t: nat)
    requires t <= |p| == |p'| && p'[t..] == p[t..] && forall i :: t <= i < |p| ==> p[i] == 0
    ensures forall i :: t <= i < |p'| ==> p'[i] == 0
  {
    forall i | t <= i < |p'| ensures p'[i] == 0 {
      assert p'[i] == p'[t..][i - t] == p[t..][i - t] == p[i];
    }
  }

  lemma ProductLow(p: seq<Digit>, p': seq<Digit>, o: nat, t: nat, row: int)
    requires o <= t <= |p| == |p'| && p'[..o] == p[..o] && Val(p'[o..t]) == Val(p[o..t]) + row
    ensures Val(p'[..t]) == Val(p[..t]) + Pow(o) * row
  {
    assert p[..t] == p[..o] + p[o..t] && p'[..t] == p[..o] + p'[o..t];
    TailGrows(p[..o], p[o..t], p'[o..t], row);
  }

  lemma TailGrows(low: seq<Digit>, a: seq<Digit>, b: seq<Digit>, row: int)
    requires Val(b) == Val(a) + row
    ensures Val(low + b) == Val(low + a) + Pow(|low|) * row
  {
    ValConcat(low, a);
    ValConcat(low, b);
    TailSum(Pow(|low|), Val(low), Val(a), Val(b), row, Val(low + a), Val(low + b));
  }

  lemma TailSum(u: int, low: int, a: int, b: int, row: int, x: int, y: int)
    requires b == a + row && x == low + u * a && y == low + u * b
    ensures y == x + u * row
  {
    Distribute(u, a, row);
  }

  lemma NextRow(x: int, y: int, u: int, d: int, y': int, row: int, p: int, p': int)
    requires y' == y + u * d && row == d * x && p == x * y && p' == p + u * row
    ensures p' == x * y'
  {
    Distribute(x, y, u * d);
    ThreeFactors(u, d, x);
  }

  lemma ThreeFactors(u: int, d: int, x: int)
    ensures u * (d * x) == x * (u * d)
  {
    Reassociate(u, d, x);
    Reassociate(x, u, d);
  }

  method Times(x: BigInt, y: BigInt) returns (r: BigInt)
    requires x.Valid() && y.Valid()
    ensures r.Valid() && r.Value() == x.Value() * y.Value()
  {
    var l, k := x.used, y.used;
    ghost var xs, ys := x.digits[..l], y.digits[..k];
    if l == 0 || k == 0 { r := Zero(); return; }
    var p := Products(x, y);
    r := Make(x.negative != y.negative, l + k, p);
    assert p[..l + k] == p[..];
    Signs(Val(xs), Val(ys));
  }

  /** The rows of the product, one for each digit of `y`. */
  method Products(x: BigInt, y: BigInt) returns (p: array<Digit>)
    requires x.Valid() && y.Valid()
    ensures fresh(p) && p.Length == x.used + y.used && Val(p[..]) == x.Magnitude() * y.Magnitude()
  {
    var l, k := x.used, y.used;
    ghost var xs, ys := x.digits[..l], y.digits[..k];
    p := new Digit[l + k](_ => 0);
    ProductStart(p[..], xs, ys);
    var o := 0;
    while o < k
      invariant 0 <= o <= k
      invariant ProductAt(p[..], xs, ys, o)
    {
      AddRow(x, y.digits[o], p, o, ys);
      o := o + 1;
    }
    ProductEnd(p[..], xs, ys);
  }

  lemma ProductEnd(p: seq<Digit>, x: seq<Digit>, y: seq<Digit>)
    requires ProductAt(p, x, y, |y|)
    ensures Val(p) == Val(x) * Val(y)
  {
    assert p[..|y| + |x|] == p && y[..|y|] == y;
  }

  /** One row of the schoolbook product. */
  method AddRow(x: BigInt, d: Digit, p: array<Digit>, o: nat, ghost ys: seq<Digit>)
    requires x.used <= x.digits.Length && x.digits != p && o < |ys| && ys[o] == d
    requires ProductAt(p[..], x.digits[..x.used], ys, o)
    modifies p
    ensures ProductAt(p[..], x.digits[..x.used], ys, o + 1)
  {
    ghost var was, xs, t := p[..], x.digits[..x.used], o + x.used + 1;
    ProductRow(was, xs, ys, o);
    assert was[o..t] == p[o..t];
    MulAdd(d, x.digits, p, o, x.used, t);
    assert x.digits[..x.used] == xs;
    assert p[..][o..t] == p[o..t] && p[..][..o] == p[..o] && p[..][t..] == p[t..];
    ProductStep(was, p[..], xs, ys, o, d * Val(xs));
  }

  lemma ProductStart(p: seq<Digit>, x: seq<Digit>, y: seq<Digit>)
    requires |p| == |x| + |y| && forall i :: 0 <= i < |p| ==> p[i] == 0
    ensures ProductAt(p, x, y, 0)
  {
    ValZeros(p[..|x|]);
  }

  lemma Signs(a: int, b: int)
    ensures (-a) * b == -(a * b) && a * (-b) == -(a * b) && (-a) * (-b) == a * b
  {
  }

  // ---- From machine integers ----

  lemma {:induction false} PowIsPow2(n: nat)
    ensures Pow(n) == Pow2(16 * n)
  {
    if n > 0 {
      PowIsPow2(n - 1);
      Pow2Add(16, 16 * (n - 1));
      assert Pow2(16) == 256 * Pow2(8) == 65536;
    }
  }

  lemma {:induction false} Pow2Monotone(a: nat, b: nat)
    requires a <= b
    ensures Pow2(a) <= Pow2(b)
  {
    if a < b { Pow2Monotone(a, b - 1); }
  }

  /** Any machine integer, by the branch its size takes. */
  method FromInt(value: int) returns (r: BigInt)
    ensures r.Valid() && r.Value() == value
  {
    var o := value < 0;
    var a: nat := if o then -value else value;
    if a < 65536 {
      var s := new Digit[1](_ => 0);
      s[0] := a;
      assert s[..1] == [a] && Val([a]) == a;
      r := Make(o, 1, s);
      return;
    }
    if a <= 4294967295 {
      var s := new Digit[2](_ => 0);
      s[0] := a % 65536;
      s[1] := a / 65536;
      assert s[..2] == [a % 65536, a / 65536];
      HeadValue(a / 65536, a % 65536);
      r := Make(o, 2, s);
      return;
    }
    var s, q := ManyDigits(a);
    r := Make(o, q, s);
  }

  /** The digits of a number of more than 32 bits, lowest first. */
  method ManyDigits(a: nat) returns (s: array<Digit>, q: nat)
    requires a > 0
    ensures q <= s.Length && Val(s[..q]) == a
  {
    var n := (BitLength(a) - 1) / 16 + 1;
    PowIsPow2(n);
    Pow2Monotone(BitLength(a), 16 * n);
    s := new Digit[n](_ => 0);
    q := 0;
    var rest: nat := a;
    while rest != 0
      invariant q <= n && rest < Pow(n - q)
      invariant Val(s[..q]) + Pow(q) * rest == a
      decreases rest
    {
      ghost var low := s[..q];
      s[q] := rest % 65536;
      assert s[..q + 1] == low + [rest % 65536];
      ValPush(low, rest % 65536);
      TakeDigit(Pow(q), rest, rest % 65536, rest / 65536);
      rest := rest / 65536;
      q := q + 1;
    }
  }

  lemma TakeDigit(u: int, rest: int, lo: int, hi: int)
    requires rest == lo + 65536 * hi
    ensures u * rest == u * lo + 65536 * u * hi
  {
    Distribute(u, lo, 65536 * hi);
    Reassociate(u, 65536, hi);
  }

  // ---- Division ----

  /** Truncating division: towards zero, the remainder taking the sign of the dividend. */
  function TruncQuot(a: int, b: int): int
    requires b != 0
  {
    var q := Quot(if a < 0 then -a else a, if b < 0 then -b else b);
    Signed((a < 0) != (b < 0), q)
  }

  function TruncRem(a: int, b: int): int
    requires b != 0
  {
    a - TruncQuot(a, b) * b
  }

  /** The remainder is smaller than the divisor and has the dividend's sign or is zero. */
  lemma TruncRemBound(a: int, b: int)
    requires b != 0
    ensures var r := TruncRem(a, b);
      && (if r < 0 then -r else r) < (if b < 0 then -b else b)
      && (r != 0 ==> (r < 0 <==> a < 0))
  {
    var x, y := if a < 0 then -a else a, if b < 0 then -b else b;
    Signs(Quot(x, y), y);
  }

  /** The worker's one division memo: the operands of the last division, by identity, and its result. */
  class Division {
    var dividend: array?<Digit>
    var dividendUsed: nat
    var divisor: array?<Digit>
    var divisorUsed: nat
    var work: array<Digit>
    var high: nat
    var low: nat
    var shift: nat

    ghost predicate Valid()
      reads this, dividend, divisor, work
    {
      dividend != null ==>
        && divisor != null && dividendUsed <= dividend.Length && divisorUsed <= divisor.Length
        && Divided(Val(dividend[..dividendUsed]), Val(divisor[..divisorUsed]), work[..], high, low, shift)
    }

    constructor ()
      ensures Valid()
    {
      dividend, divisor := null, null;
      dividendUsed, divisorUsed, high, low, shift := 0, 0, 0, 0, 0;
      work := new Digit[0];
    }

    /** Divides magnitudes into the working array, unless the last division already did. */
    method DivRem(x: BigInt, y: BigInt)
      requires Valid() && x.Valid() && y.Valid() && 0 < y.used <= x.used
      modifies this
      ensures Valid() && Divided(x.Magnitude(), y.Magnitude(), work[..], high, low, shift)
      ensures dividend == x.digits && divisor == y.digits
    {
      ghost var a, b := x.Magnitude(), y.Magnitude();
      if dividend == x.digits && dividendUsed == x.used && divisor == y.digits && divisorUsed == y.used {
        assert Divided(a, b, work[..], high, low, shift);
        return;
      }
      var n, h, o, q := Divide(x.digits, x.used, y.digits, y.used);
      assert Divided(a, b, n[..], h, o, q);
      dividend, dividendUsed, divisor, divisorUsed := x.digits, x.used, y.digits, y.used;
      work, high, low, shift := n, h, o, q;
      assert Divided(a, b, work[..], high, low, shift);
    }

    /** Truncating quotient. */
    method Quotient(x: BigInt, y: BigInt) returns (r: BigInt)
      requires Valid() && x.Valid() && y.Valid() && y.Value() != 0
      modifies this
      ensures Valid() && r.Valid() && r.Value() == TruncQuot(x.Value(), y.Value())
      ensures x.used >= y.used ==> dividend == x.digits && divisor == y.digits
    {
      SignOf(x);
      SignOf(y);
      if x.used < y.used {
        ShorterDividend(x, y);
        r := Zero();
        return;
      }
      DivRem(x, y);
      var s := high - low;
      var d := CopyRange(work, low, high, s);
      assert d[..s] == work[..][low..high];
      r := Make(x.negative != y.negative, s, d);
    }

    /** Truncating remainder: the low digits of the working array, shifted back down. */
    method Remainder(x: BigInt, y: BigInt) returns (r: BigInt)
      requires Valid() && x.Valid() && y.Valid() && y.Value() != 0
      modifies this
      ensures Valid() && r.Valid() && r.Value() == TruncRem(x.Value(), y.Value())
      ensures x.used >= y.used ==> dividend == x.digits && divisor == y.digits
    {
      SignOf(x);
      SignOf(y);
      if x.used < y.used {
        ShorterDividend(x, y);
        return x;
      }
      r := LowPart(x, y);
      if x.negative && r.used > 0 { r := Negated(r); }
      TruncRemMagnitude(x, y);
    }

    /** The remainder of the magnitudes. */
    method LowPart(x: BigInt, y: BigInt) returns (r: BigInt)
      requires Valid() && x.Valid() && y.Valid() && 0 < y.used <= x.used
      modifies this
      ensures Valid() && r.Valid() && !r.negative
      ensures r.Value() == ModMagnitude(x, y)
      ensures dividend == x.digits && divisor == y.digits
    {
      DivRem(x, y);
      var d := CopyRange(work, 0, low, low);
      assert d[..low] == work[..][..low];
      r := Make(false, low, d);
      if shift > 0 {
        ghost var m := ModMagnitude(x, y);
        r := ShiftDown(r, shift);
        ExactFloor(Pow2(shift), m, r.Value());
        SignOf(r);
      } else {
        NoShift(ModMagnitude(x, y));
      }
    }
  }

  ghost function ModMagnitude(x: BigInt, y: BigInt): nat
    requires x.Valid() && y.Valid() && y.used > 0
    reads x.digits, y.digits
  {
    NotZero(y.digits[..y.used]);
    x.Magnitude() - Quot(x.Magnitude(), y.Magnitude()) * y.Magnitude()
  }

  lemma TruncRemMagnitude(x: BigInt, y: BigInt)
    requires x.Valid() && y.Valid() && y.used > 0 && y.Value() != 0
    ensures TruncRem(x.Value(), y.Value()) == Signed(x.negative, ModMagnitude(x, y))
  {
    SignOf(x);
    SignOf(y);
    Signs(Quot(x.Magnitude(), y.Magnitude()), y.Magnitude());
  }

  lemma SignOf(x: BigInt)
    requires x.Valid()
    ensures x.Value() < 0 <==> x.negative
    ensures x.Value() == 0 <==> x.used == 0
  {
    if x.used > 0 { NotZero(x.digits[..x.used]); }
  }

  lemma ShorterDividend(x: BigInt, y: BigInt)
    requires x.Valid() && y.Valid() && x.used < y.used && y.Value() != 0
    ensures TruncQuot(x.Value(), y.Value()) == 0 && TruncRem(x.Value(), y.Value()) == x.Value()
  {
    LongerIsLarger(x.digits[..x.used], y.digits[..y.used]);
    SmallQuot(x.Magnitude(), y.Magnitude());
  }

  lemma SmallQuot(x: nat, y: nat)
    requires x < y
    ensures Quot(x, y) == 0
  {
    SplitUnique(y, x - Quot(x, y) * y, Quot(x, y), x, 0);
  }

  // ---- Shifting right ----

  /** `r` is `x` divided by `p`, rounded down. */
  predicate Floors(p: nat, x: int, r: int) {
    p * r <= x < p * r + p
  }

  lemma ExactFloor(p: nat, m: int, r: int)
    requires p > 0 && Floors(p, p * m, r)
    ensures r == m
  {
    SplitUnique(p, p * m - p * r, r, 0, m);
  }

  /** The parts of a number cut at bit 16 * w + q: what stays, and what is shifted out. */
  lemma ShiftParts(a: seq<Digit>, w: nat, q: nat, high: nat)
    requires w < |a| && Pow2(q) * high + a[w] % Pow2(q) == Val(a[w..])
    ensures var rest := Pow(w) * (a[w] % Pow2(q)) + Val(a[..w]);
      && Val(a) == Pow2(16 * w + q) * high + rest && 0 <= rest < Pow2(16 * w + q)
      && (rest == 0 <==> a[w] % Pow2(q) == 0 && Val(a[..w]) == 0)
  {
    HighLow(a, w);
    WordsAndBits(w, q);
    CutParts(Pow(w), Pow2(q), Pow2(16 * w + q), high, a[w] % Pow2(q), Val(a[..w]), Val(a[w..]), Val(a));
  }

  lemma HighLow(a: seq<Digit>, w: nat)
    requires w <= |a|
    ensures Val(a) == Val(a[..w]) + Pow(w) * Val(a[w..]) && Val(a[..w]) < Pow(w)
  {
    assert a == a[..w] + a[w..];
    ValConcat(a[..w], a[w..]);
    ValBound(a[..w]);
  }

  lemma WordsAndBits(w: nat, q: nat)
    ensures Pow2(16 * w + q) == Pow(w) * Pow2(q)
  {
    PowIsPow2(w);
    Pow2Add(16 * w, q);
  }

  lemma CutParts(u: nat, p: nat, both: nat, high: nat, h: nat, low: nat, top: nat, x: nat)
    requires low < u && h < p && both == u * p && top == p * high + h && x == low + u * top
    ensures x == both * high + (u * h + low) && 0 <= u * h + low < both
    ensures u * h + low == 0 <==> h == 0 && low == 0
  {
    Distribute(u, p * high, h);
    Reassociate(u, p, high);
    MulLe(h + 1, p, u);
    Distribute(u, h, 1);
    if h > 0 { MulLe(1, h, u); }
  }

  lemma FloorSigned(p: nat, high: nat, rest: nat, negative: bool)
    requires rest < p
    ensures Floors(p, Signed(negative, p * high + rest),
                   Signed(negative, high) - if negative && rest != 0 then 1 else 0)
  {
    if negative { NegatedProduct(p, high); }
  }

  lemma NegatedProduct(p: int, high: int)
    ensures p * (0 - high) == 0 - p * high
    ensures p * (0 - high - 1) == 0 - p * high - p
  {
  }

  /** The floor, from the digits that stay and whether a set bit was shifted out. */
  lemma FloorOf(a: seq<Digit>, w: nat, q: nat, high: nat, negative: bool)
    requires w < |a| && Pow2(q) * high + a[w] % Pow2(q) == Val(a[w..])
    ensures Floors(Pow2(16 * w + q), Signed(negative, Val(a)),
                   Signed(negative, high) - if negative && (a[w] % Pow2(q) != 0 || Val(a[..w]) != 0) then 1 else 0)
  {
    ShiftParts(a, w, q, high);
    FloorSigned(Pow2(16 * w + q), high, Val(a) - Pow2(16 * w + q) * high, negative);
  }

  /** Every bit shifted out. */
  lemma AllShiftedOut(a: seq<Digit>, bits: nat, negative: bool)
    requires 0 < |a| <= bits / 16 && a[|a| - 1] != 0
    ensures Floors(Pow2(bits), Signed(negative, Val(a)), if negative then -1 else 0)
  {
    NotZero(a);
    ValBound(a);
    PowMonotone(|a|, bits / 16);
    PowIsPow2(bits / 16);
    Pow2Add(16 * (bits / 16), bits % 16);
    MulLe(1, Pow2(bits % 16), Pow(bits / 16));
  }

  /** Division by a power of two, rounded down, of any integer. */
  method ShiftDown(x: BigInt, bits: nat) returns (r: BigInt)
    requires x.Valid()
    ensures r.Valid() && Floors(Pow2(bits), x.Value(), r.Value())
  {
    if x.used == 0 { return x; }
    var w, q := bits / 16, bits % 16;
    if x.used <= w {
      AllShiftedOut(x.digits[..x.used], bits, x.negative);
      r := FromInt(if x.negative then -1 else 0);
      return;
    }
    assert bits == 16 * w + q;
    r := ShiftDownBy(x, w, q);
  }

  method ShiftDownBy(x: BigInt, w: nat, q: nat) returns (r: BigInt)
    requires x.Valid() && w < x.used && q < 16
    ensures r.Valid() && Floors(Pow2(16 * w + q), x.Value(), r.Value())
  {
    ghost var a, negative := x.digits[..x.used], x.negative;
    var n := KeptDigits(x, w, q);
    var p := x.used - w;
    ghost var high := Val(n[..p]);
    assert a[w..] == x.digits[w..x.used];
    FloorOf(a, w, q, high, negative);
    r := Make(x.negative, p, n);
    if x.negative {
      var lost := LosesBits(x, w, q);
      assert x.digits[..w] == a[..w];
      if lost {
        var one := FromInt(1);
        r := Minus(r, one);
      }
    }
  }

  /** The digits that stay: whole words are moved, and a part of a word shifted. */
  method KeptDigits(x: BigInt, w: nat, q: nat) returns (n: array<Digit>)
    requires x.Valid() && w < x.used && q < 16
    ensures x.used - w <= n.Length
    ensures Pow2(q) * Val(n[..x.used - w]) + x.digits[w] % Pow2(q) == Val(x.digits[w..x.used])
  {
    var p := x.used - w;
    if q == 0 {
      n := CopyRange(x.digits, w, x.used, p);
      WholeWords(x.digits[w], Val(n[..p]));
    } else {
      n := new Digit[p](_ => 0);
      ShiftRight(x.digits, x.used, 16 * w + q, n);
      BitsDown(x.digits[w..x.used], q, n[..p]);
    }
  }

  lemma WholeWords(d: Digit, v: nat)
    ensures Pow2(0) * v + d % Pow2(0) == v
  {
  }

  lemma BitsDown(a: seq<Digit>, q: nat, kept: seq<Digit>)
    requires |a| > 0 && q < 16 && (WordSplit(q); kept == ShiftedDown(a, Pow2(q), Pow2(16 - q)))
    ensures Pow2(q) * Val(kept) + a[0] % Pow2(q) == Val(a)
  {
    WordSplit(q);
    BitsDownBy(a, Pow2(q), Pow2(16 - q), kept);
  }

  lemma BitsDownBy(a: seq<Digit>, p: nat, o: nat, kept: seq<Digit>)
    requires |a| > 0 && p > 0 && p * o == 65536 && kept == ShiftedDown(a, p, o)
    ensures p * Val(kept) + a[0] % p == Val(a)
  {
    ShiftedDownValue(a, p, o);
  }

  /** Whether a bit that is shifted out is set. */
  method LosesBits(x: BigInt, w: nat, q: nat) returns (lost: bool)
    requires x.Valid() && w < x.used
    ensures lost <==> x.digits[w] % Pow2(q) != 0 || Val(x.digits[..w]) != 0
  {
    if q > 0 && x.digits[w] % Pow2(q) != 0 { return true; }
    var k := 0;
    while k < w
      invariant 0 <= k <= w && forall i :: 0 <= i < k ==> x.digits[i] == 0
    {
      if x.digits[k] != 0 {
        ZeroDigit(x.digits[..w], k);
        return true;
      }
      k := k + 1;
    }
    ValZeros(x.digits[..w]);
    lost := false;
  }

  lemma {:induction false} ZeroDigit(s: seq<Digit>, k: nat)
    requires k < |s| && s[k] != 0
    ensures Val(s) > 0
  {
    if k > 0 { ZeroDigit(s[1..], k - 1); }
  }
}
