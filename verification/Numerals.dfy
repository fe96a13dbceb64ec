/** Which texts denote which numbers: digits, letters and white space one by one, and the form of a whole numeral. */
module Numerals {
  import opened BigIntegers
  import opened Decimal
  import opened Wrappers

  // ---- Characters ----

  lemma DigitsAre()
    ensures DigitChar(0) == '0' && DigitChar(1) == '1' && DigitChar(2) == '2' && DigitChar(3) == '3'
    ensures DigitChar(4) == '4' && DigitChar(5) == '5' && DigitChar(6) == '6' && DigitChar(7) == '7'
    ensures DigitChar(8) == '8' && DigitChar(9) == '9'
    ensures forall c :: '0' <= c <= '9' ==> DigitChar(HexDigitValue(c)) == c
  {
  }

  lemma LettersAre()
    ensures HexDigitValue('a') == HexDigitValue('A') == 10 && HexDigitValue('b') == HexDigitValue('B') == 11
    ensures HexDigitValue('c') == HexDigitValue('C') == 12 && HexDigitValue('d') == HexDigitValue('D') == 13
    ensures HexDigitValue('e') == HexDigitValue('E') == 14 && HexDigitValue('f') == HexDigitValue('F') == 15
  {
  }

  /** The white space and line terminators of ECMA-262, sections 12.2 and 12.3. */
  lemma SpacesAre(c: char)
    ensures IsSpace(c) <==> c as int in {9, 10, 11, 12, 13, 32, 0xA0, 0x1680, 0x2000, 0x2001, 0x2002, 0x2003, 0x2004,
      0x2005, 0x2006, 0x2007, 0x2008, 0x2009, 0x200A, 0x2028, 0x2029, 0x202F, 0x205F, 0x3000, 0xFEFF}
  {
  }

  // ---- The decimal text of a number ----

  predicate Canonical(s: string) {
    |s| > 0 && IsDigits(s) && (s[0] == '0' ==> |s| == 1)
  }

  lemma {:induction false} TextCanonical(v: nat)
    ensures Canonical(NatText(v)) && (NatText(v)[0] == '0' ==> v == 0)
  {
    if v >= 10 { TextCanonical(v / 10); }
  }

  /** A text of digits without a leading zero is the text of the number it denotes, and of no other. */
  lemma {:induction false} OnlyText(s: string)
    requires Canonical(s)
    ensures NatText(DigitsValue(s)) == s
  {
    var front, c := s[..|s| - 1], s[|s| - 1];
    if |s| > 1 {
      OnlyText(front);
      OneMore(front, c, DigitsValue(front));
      assert s == front + [c];
    } else {
      assert DigitsValue(front) == 0;
      assert s == [DigitChar(DigitValue(c))];
    }
  }

  lemma OneMore(front: string, c: char, x: nat)
    requires NatText(x) == front && front[0] != '0' && '0' <= c <= '9'
    ensures NatText(10 * x + DigitValue(c)) == front + [c]
  {
    AppendDigit(x, DigitValue(c));
  }

  // ---- A whole numeral ----

  predicate Blank(s: string) {
    forall i :: 0 <= i < |s| ==> IsSpace(s[i])
  }

  predicate Sign(s: string) {
    s == "" || s == "+" || s == "-"
  }

  predicate HexBody(s: string) {
    |s| > 2 && (s[..2] == "0x" || s[..2] == "0X") && IsHex(s[2..])
  }

  predicate Body(s: string) {
    (|s| > 0 && IsDigits(s)) || HexBody(s)
  }

  function BodyValue(s: string): nat
    requires Body(s)
  {
    if HexBody(s) then HexValue(s[2..]) else DigitsValue(s)
  }

  /** White space, a sign or none, decimal digits or 0x and hexadecimal ones, white space: that denotes the number. */
  lemma DenotesMeans(pre: string, sign: string, body: string, post: string)
    requires Blank(pre) && Sign(sign) && Body(body) && Blank(post)
    ensures Denotes(pre + sign + body + post) == Some(if sign == "-" then 0 - BodyValue(body) else BodyValue(body))
  {
    BodyEnds(body);
    assert pre + sign + body + post == pre + (sign + body + post);
    SpaceBefore(pre, sign + body + post);
    SpaceAfter(sign + body, post);
    SignedBody(sign, body);
  }

  lemma BodyEnds(s: string)
    requires Body(s)
    ensures !IsSpace(s[0]) && !IsSpace(s[|s| - 1]) && s[0] != '+' && s[0] != '-'
  {
    if HexBody(s) {
      HexBodyAt(s);
      assert s[|s| - 1] == s[2..][|s| - 3];
    } else {
      DigitsAreNotSpace(s);
    }
  }

  lemma {:induction false} SpaceBefore(pre: string, s: string)
    requires Blank(pre)
    ensures Denotes(pre + s) == Denotes(s)
  {
    if |pre| == 0 {
      assert pre + s == s;
    } else {
      assert (pre + s)[1..] == pre[1..] + s;
      SpaceBefore(pre[1..], s);
    }
  }

  lemma {:induction false} SpaceAfter(s: string, post: string)
    requires |s| > 0 && !IsSpace(s[0]) && Blank(post)
    ensures Denotes(s + post) == Denotes(s)
  {
    if |post| == 0 {
      assert s + post == s;
    } else {
      assert (s + post)[..|s + post| - 1] == s + post[..|post| - 1];
      SpaceAfter(s, post[..|post| - 1]);
    }
  }

  lemma SignedBody(sign: string, body: string)
    requires Sign(sign) && Body(body)
    ensures var s := sign + body;
      && |s| > 0 && !IsSpace(s[0])
      && Denotes(s) == Some(if sign == "-" then 0 - BodyValue(body) else BodyValue(body))
  {
    BodyEnds(body);
    var s := sign + body;
    assert s[|s| - 1] == body[|body| - 1];
    BareBody(body, true);
    BareBody(body, false);
    if sign == "" { assert s == body; } else { assert s[1..] == body && s[0] == sign[0]; }
  }

  lemma BareBody(body: string, negative: bool)
    requires Body(body)
    ensures Unsigned(body, negative) == Some(Signed(negative, BodyValue(body)))
  {
    HexBodyAt(body);
  }

  lemma HexBodyAt(s: string)
    ensures HexBody(s) <==> |s| > 2 && s[0] == '0' && (s[1] == 'x' || s[1] == 'X') && IsHex(s[2..])
  {
    if |s| > 2 { assert s[..2] == [s[0], s[1]]; }
  }

  /** And no other text denotes one. */
  lemma {:induction false} DenotesOnly(s: string) returns (pre: string, sign: string, body: string, post: string)
    requires Denotes(s).Some?
    ensures s == pre + sign + body + post && Blank(pre) && Sign(sign) && Body(body) && Blank(post)
    decreases |s|
  {
    if |s| > 0 && IsSpace(s[0]) {
      pre, sign, body, post := DenotesOnly(s[1..]);
      pre := [s[0]] + pre;
    } else if |s| > 0 && IsSpace(s[|s| - 1]) {
      pre, sign, body, post := DenotesOnly(s[..|s| - 1]);
      assert s == s[..|s| - 1] + [s[|s| - 1]];
      post := post + [s[|s| - 1]];
    } else {
      pre, post := "", "";
      sign := if |s| > 0 && (s[0] == '-' || s[0] == '+') then [s[0]] else "";
      body := s[|sign|..];
      OnlyBody(body, sign == "-");
    }
  }

  lemma OnlyBody(s: string, negative: bool)
    requires Unsigned(s, negative).Some?
    ensures Body(s)
  {
    HexBodyAt(s);
  }
}
