/**
 Decimal numbers as text: what a string of digits denotes, and that the spelling without redundant
 zeros is unique. Numbers of any length, never converted to machine numbers.
 */
module DecimalText {

  predicate IsDigit(c: char) {
    '0' <= c <= '9'
  }

  predicate AllDigits(s: string) {
    forall i :: 0 <= i < |s| ==> IsDigit(s[i])
  }

  function DigitValue(c: char): (d: nat)
    requires IsDigit(c)
    ensures d < 10 && (d == 0 <==> c == '0')
  {
    c as int - '0' as int
  }

  /** The number a digit string denotes before the decimal point. */
  function Whole(w: string): nat
    requires AllDigits(w)
  {
    if w == "" then 0 else 10 * Whole(w[..|w| - 1]) + DigitValue(w[|w| - 1])
  }

  /** The number a digit string denotes after the decimal point. */
  function Fraction(f: string): (r: real)
    requires AllDigits(f)
    ensures 0.0 <= r < 1.0
  {
    if f == "" then 0.0 else (DigitValue(f[0]) as real + Fraction(f[1..])) / 10.0
  }

  // ----- removing redundant zeros -----

  /** Leading zeros go, except the last digit stays. */
  function StripLeading(w: string): (r: string)
    requires AllDigits(w)
    ensures AllDigits(r) && (r == "" <==> w == "")
    ensures NoLeadingZero(r)
  {
    if |w| > 1 && w[0] == '0' then StripLeading(w[1..]) else w
  }

  /** All trailing zeros go. */
  function StripTrailing(f: string): (r: string)
    requires AllDigits(f)
    ensures AllDigits(r) && NoTrailingZero(r)
  {
    if f != "" && f[|f| - 1] == '0' then StripTrailing(f[..|f| - 1]) else f
  }

  predicate NoLeadingZero(w: string) {
    |w| > 1 ==> w[0] != '0'
  }

  predicate NoTrailingZero(f: string) {
    f != "" ==> f[|f| - 1] != '0'
  }

  lemma StripLeadingOfStripped(w: string)
    requires AllDigits(w) && NoLeadingZero(w)
    ensures StripLeading(w) == w
  {
  }

  lemma StripTrailingOfStripped(f: string)
    requires AllDigits(f) && NoTrailingZero(f)
    ensures StripTrailing(f) == f
  {
  }

  lemma {:induction false} WholeOfLeadingZero(w: string)
    requires AllDigits(w) && w != "" && w[0] == '0'
    ensures Whole(w) == Whole(w[1..])
  {
    if |w| > 1 {
      WholeOfLeadingZero(w[..|w| - 1]);
      assert w[..|w| - 1][1..] == w[1..][..|w| - 2];
    }
  }

  lemma {:induction false} StripLeadingKeepsValue(w: string)
    requires AllDigits(w)
    ensures Whole(StripLeading(w)) == Whole(w)
  {
    if |w| > 1 && w[0] == '0' {
      WholeOfLeadingZero(w);
      StripLeadingKeepsValue(w[1..]);
    }
  }

  lemma {:induction false} FractionOfTrailingZero(f: string)
    requires AllDigits(f) && f != "" && f[|f| - 1] == '0'
    ensures Fraction(f) == Fraction(f[..|f| - 1])
  {
    if |f| > 1 {
      FractionOfTrailingZero(f[1..]);
      assert f[1..][..|f| - 2] == f[..|f| - 1][1..];
    }
  }

  lemma {:induction false} StripTrailingKeepsValue(f: string)
    requires AllDigits(f)
    ensures Fraction(StripTrailing(f)) == Fraction(f)
  {
    if f != "" && f[|f| - 1] == '0' {
      FractionOfTrailingZero(f);
      StripTrailingKeepsValue(f[..|f| - 1]);
    }
  }

  // ----- uniqueness -----

  lemma {:induction false} LongWholeIsLarge(w: string)
    requires AllDigits(w) && |w| > 1 && w[0] != '0'
    ensures Whole(w) >= 10
  {
    if |w| > 2 {
      LongWholeIsLarge(w[..|w| - 1]);
    } else {
      assert w[..1][..0] == "" && w[..1][0] == w[0];
      assert Whole(w[..1]) == DigitValue(w[0]);
    }
  }

  lemma SameDigit(c: char, d: char)
    requires IsDigit(c) && IsDigit(d) && DigitValue(c) == DigitValue(d)
    ensures c == d
  {
  }

  /** Without leading zeros the digits before the point are determined by their value. */
  lemma {:induction false} WholeUnique(v: string, w: string)
    requires AllDigits(v) && AllDigits(w) && v != "" && w != "" && NoLeadingZero(v) && NoLeadingZero(w)
    requires Whole(v) == Whole(w)
    ensures v == w
  {
    var c, d := v[|v| - 1], w[|w| - 1];
    SameDigit(c, d);
    assert v == v[..|v| - 1] + [c] && w == w[..|w| - 1] + [d];
    if |v| > 1 { LongWholeIsLarge(v); }
    if |w| > 1 { LongWholeIsLarge(w); }
    assert |v| == 1 ==> Whole(v[..0]) == 0;
    assert |w| == 1 ==> Whole(w[..0]) == 0;
    if |v| > 1 {
      WholeUnique(v[..|v| - 1], w[..|w| - 1]);
    }
  }

  lemma {:induction false} NonEmptyFractionIsPositive(f: string)
    requires AllDigits(f) && f != "" && NoTrailingZero(f)
    ensures Fraction(f) > 0.0
  {
    if |f| > 1 {
      NonEmptyFractionIsPositive(f[1..]);
    }
  }

  lemma LeadingDigit(d: nat, x: real, e: nat, y: real)
    requires 0.0 <= x < 1.0 && 0.0 <= y < 1.0 && d as real + x == e as real + y
    ensures d == e && x == y
  {
    assert (d as real + x).Floor == d && (e as real + y).Floor == e;
  }

  /** Without trailing zeros the digits after the point are determined by their value. */
  lemma {:induction false} FractionUnique(f: string, g: string)
    requires AllDigits(f) && AllDigits(g) && NoTrailingZero(f) && NoTrailingZero(g)
    requires Fraction(f) == Fraction(g)
    ensures f == g
  {
    if f != "" { NonEmptyFractionIsPositive(f); }
    if g != "" { NonEmptyFractionIsPositive(g); }
    if f != "" {
      LeadingDigit(DigitValue(f[0]), Fraction(f[1..]), DigitValue(g[0]), Fraction(g[1..]));
      SameDigit(f[0], g[0]);
      FractionUnique(f[1..], g[1..]);
      assert f == [f[0]] + f[1..] && g == [g[0]] + g[1..];
    }
  }

  // ----- unsigned decimals -----

  function Unsigned(w: string, f: string): real
    requires AllDigits(w) && AllDigits(f)
  {
    Whole(w) as real + Fraction(f)
  }

  /** Two spellings without redundant zeros denote the same number only if they are the same. */
  lemma UnsignedUnique(v: string, f: string, w: string, g: string)
    requires AllDigits(v) && AllDigits(f) && AllDigits(w) && AllDigits(g) && v != "" && w != ""
    requires NoLeadingZero(v) && NoLeadingZero(w) && NoTrailingZero(f) && NoTrailingZero(g)
    ensures Unsigned(v, f) == Unsigned(w, g) <==> v == w && f == g
  {
    if Unsigned(v, f) == Unsigned(w, g) {
      LeadingDigit(Whole(v), Fraction(f), Whole(w), Fraction(g));
      WholeUnique(v, w);
      FractionUnique(f, g);
    }
  }

  lemma StrippingKeepsValue(w: string, f: string)
    requires AllDigits(w) && AllDigits(f)
    ensures Unsigned(StripLeading(w), StripTrailing(f)) == Unsigned(w, f)
  {
    StripLeadingKeepsValue(w);
    StripTrailingKeepsValue(f);
  }

  /** Two digits moved from behind the point to before it multiply the number by 100. */
  lemma ShiftByTwo(w: string, c: char, d: char, rest: string)
    requires AllDigits(w) && IsDigit(c) && IsDigit(d) && AllDigits(rest)
    ensures AllDigits(w + [c, d]) && AllDigits([c, d] + rest)
    ensures Unsigned(w + [c, d], rest) == 100.0 * Unsigned(w, [c, d] + rest)
  {
    var s := w + [c, d];
    assert s[..|s| - 1] == w + [c] && (w + [c])[..|w|] == w;
    assert Whole(w + [c]) == 10 * Whole(w) + DigitValue(c);
    var f := [c, d] + rest;
    assert f[1..] == [d] + rest && ([d] + rest)[1..] == rest;
    assert Fraction([d] + rest) == (DigitValue(d) as real + Fraction(rest)) / 10.0;
  }
}
