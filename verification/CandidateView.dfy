/**
 How candidate figures are shown (`candidateView.ts`): digits grouped by commas, and a ratio turned
 into a percentage by moving digits, both exact at any length.
 */
module CandidateView {
  import opened Wrappers
  import opened DecimalText
  import opened PlanningForm

  // ----- grouping -----

  /** A comma before every digit that has a positive multiple of three digits from it to the end, except the first. */
  function Grouped(digits: string): string {
    if digits == "" then "" else [digits[0]] + (Comma(|digits| - 1) + Grouped(digits[1..]))
  }

  /** The separator before the last `n` digits. */
  function Comma(n: nat): string {
    if n > 0 && n % 3 == 0 then "," else ""
  }

  /** An optional sign, digits, and an optional point with at least one digit. */
  function ParseFixed(s: string): (r: Option<Parts>)
    ensures r.Some? ==> r.value.Valid()
  {
    match Parse(s)
    case None => None
    case Some(p) => if p.fraction == "" && s[|s| - 1] == '.' then None else Some(p)
  }

  /** The sign as typed. */
  function SignPart(s: string): string {
    if Signed(s) then s[..1] else ""
  }

  function FormatDecimal(value: string): string {
    match ParseFixed(value)
    case None => value
    case Some(p) => SignPart(value) + Grouped(p.whole) + PointText(p.fraction != "", p.fraction)
  }

  function WithoutCommas(s: string): string {
    if s == "" then "" else (if s[0] == ',' then "" else [s[0]]) + WithoutCommas(s[1..])
  }

  lemma {:induction false} WithoutCommasAppend(s: string, t: string)
    ensures WithoutCommas(s + t) == WithoutCommas(s) + WithoutCommas(t)
  {
    if s == "" {
      assert s + t == t;
    } else {
      assert (s + t)[1..] == s[1..] + t;
      WithoutCommasAppend(s[1..], t);
    }
  }

  lemma {:induction false} NoCommasToRemove(s: string)
    requires ',' !in s
    ensures WithoutCommas(s) == s
  {
    if s != "" {
      assert s == [s[0]] + s[1..] && s[0] in s;
      assert forall c :: c in s[1..] ==> c in s;
      NoCommasToRemove(s[1..]);
    }
  }

  lemma DigitsHoldNoComma(s: string)
    requires AllDigits(s)
    ensures ',' !in s
  {
  }

  lemma GroupedStep(digits: string)
    requires digits != ""
    ensures Grouped(digits) == [digits[0]] + (Comma(|digits| - 1) + Grouped(digits[1..]))
  {
  }

  lemma CommaVanishes(n: nat)
    ensures WithoutCommas(Comma(n)) == ""
  {
    assert ","[1..] == "";
  }

  lemma StripThree(head: string, sep: string, rest: string)
    requires ',' !in head && WithoutCommas(sep) == ""
    ensures WithoutCommas(head + (sep + rest)) == head + WithoutCommas(rest)
  {
    hide WithoutCommas;
    WithoutCommasAppend(head, sep + rest);
    WithoutCommasAppend(sep, rest);
    NoCommasToRemove(head);
  }

  lemma {:induction false} GroupedWithoutCommas(digits: string)
    requires AllDigits(digits)
    ensures WithoutCommas(Grouped(digits)) == digits
  {
    if digits != "" {
      GroupedWithoutCommas(digits[1..]);
      GroupedStep(digits);
      hide Grouped, WithoutCommas, Comma;
      CommaVanishes(|digits| - 1);
      StripThree([digits[0]], Comma(|digits| - 1), Grouped(digits[1..]));
      assert digits == [digits[0]] + digits[1..];
    }
  }

  /** Groups of exactly three digits, each after a comma, to the end. */
  predicate Triples(s: string) {
    s == "" || (|s| >= 4 && s[0] == ',' && AllDigits(s[1..4]) && Triples(s[4..]))
  }

  /** One to three digits, then triples. */
  predicate WellGrouped(s: string) {
    exists n | 1 <= n <= 3 && n <= |s| :: AllDigits(s[..n]) && Triples(s[n..])
  }

  /** What follows a complete group. */
  function NextGroups(digits: string): string {
    if digits == "" then "" else "," + Grouped(digits)
  }

  lemma CommaOrEnd(n: nat)
    ensures n % 3 == 1 ==> Comma(n - 1) == if n > 1 then "," else ""
    ensures n > 0 && n % 3 != 1 ==> Comma(n - 1) == ""
  {
  }

  lemma GroupOfOne(digits: string)
    requires |digits| % 3 == 1
    ensures Grouped(digits) == digits[..1] + NextGroups(digits[1..])
  {
    hide Grouped, Comma;
    GroupedStep(digits);
    CommaOrEnd(|digits|);
    var rest := digits[1..];
    NextGroupsOf(rest);
    assert digits[..1] == [digits[0]];
  }

  lemma NextGroupsOf(rest: string)
    ensures NextGroups(rest) == (if rest == "" then "" else ",") + Grouped(rest)
  {
  }

  lemma PrependDigit(digits: string, tail: string, n: nat)
    requires |digits| % 3 != 1 && 1 <= n < |digits| && tail == digits[1..]
    requires Grouped(tail) == tail[..n] + NextGroups(tail[n..])
    ensures Grouped(digits) == digits[..n + 1] + NextGroups(digits[n + 1..])
  {
    hide Grouped, NextGroups, Comma;
    GroupedStep(digits);
    CommaOrEnd(|digits|);
    assert tail[n..] == digits[n + 1..];
    JoinDigit(digits, tail, n, NextGroups(tail[n..]));
  }

  lemma JoinDigit(digits: string, tail: string, n: nat, next: string)
    requires 1 <= n < |digits| && tail == digits[1..]
    ensures [digits[0]] + (tail[..n] + next) == digits[..n + 1] + next
  {
    assert digits[..n + 1] == [digits[0]] + tail[..n];
  }

  lemma GroupOfTwo(digits: string)
    requires |digits| % 3 == 2
    ensures Grouped(digits) == digits[..2] + NextGroups(digits[2..])
  {
    hide Grouped, NextGroups;
    GroupOfOne(digits[1..]);
    PrependDigit(digits, digits[1..], 1);
  }

  lemma GroupOfThree(digits: string)
    requires |digits| % 3 == 0 && digits != ""
    ensures Grouped(digits) == digits[..3] + NextGroups(digits[3..])
  {
    hide Grouped, NextGroups;
    GroupOfTwo(digits[1..]);
    PrependDigit(digits, digits[1..], 2);
  }

  lemma {:induction false} TriplesOfNextGroups(digits: string)
    requires AllDigits(digits) && |digits| % 3 == 0
    ensures Triples(NextGroups(digits))
  {
    if digits != "" {
      var group, rest := digits[..3], NextGroups(digits[3..]);
      TriplesOfNextGroups(digits[3..]);
      GroupOfThree(digits);
      var g := NextGroups(digits);
      hide NextGroups, Grouped, Triples;
      assert g == "," + (group + rest);
      TripleThenTriples(group, rest);
    }
  }

  lemma TripleThenTriples(group: string, rest: string)
    requires |group| == 3 && AllDigits(group) && Triples(rest)
    ensures Triples("," + (group + rest))
  {
    var g := "," + (group + rest);
    assert g[0] == ',' && g[1..4] == group && g[4..] == rest;
  }

  /** The grouping is the standard one: one to three digits, then a comma before every three. */
  lemma GroupedIsWellGrouped(digits: string)
    requires AllDigits(digits) && digits != ""
    ensures WellGrouped(Grouped(digits))
  {
    hide Grouped, NextGroups, Triples;
    var n := if |digits| % 3 == 0 then 3 else |digits| % 3;
    if n == 1 { GroupOfOne(digits); } else if n == 2 { GroupOfTwo(digits); } else { GroupOfThree(digits); }
    TriplesOfNextGroups(digits[n..]);
    var g := Grouped(digits);
    assert g[..n] == digits[..n] && g[n..] == NextGroups(digits[n..]);
  }

  lemma {:induction false} TriplesUnique(s: string, t: string)
    requires Triples(s) && Triples(t) && WithoutCommas(s) == WithoutCommas(t)
    ensures s == t
  {
    TriplesStrip(s);
    TriplesStrip(t);
    if s != "" {
      assert WithoutCommas(s) == s[1..4] + WithoutCommas(s[4..]);
      assert WithoutCommas(t) == t[1..4] + WithoutCommas(t[4..]);
      var u := WithoutCommas(s);
      hide WithoutCommas;
      assert u[..3] == s[1..4] && u[..3] == t[1..4];
      assert u[3..] == WithoutCommas(s[4..]) && u[3..] == WithoutCommas(t[4..]);
      TriplesUnique(s[4..], t[4..]);
      assert s == [','] + s[1..4] + s[4..] && t == [','] + t[1..4] + t[4..];
    }
  }

  lemma TriplesHead(s: string)
    requires Triples(s) && s != ""
    ensures |s| >= 4 && AllDigits(s[1..4]) && Triples(s[4..]) && WithoutCommas(s) == WithoutCommas(s[1..])
  {
  }

  lemma {:induction false} TriplesStrip(s: string)
    requires Triples(s)
    ensures |WithoutCommas(s)| % 3 == 0 && (s == "" <==> WithoutCommas(s) == "")
    ensures s != "" ==> WithoutCommas(s) == s[1..4] + WithoutCommas(s[4..])
  {
    if s != "" {
      TriplesHead(s);
      hide Triples, WithoutCommas;
      var group, rest := s[1..4], s[4..];
      TriplesStrip(rest);
      DigitsHoldNoComma(group);
      NoCommasToRemove(group);
      assert s[1..] == group + rest;
      WithoutCommasAppend(group, rest);
    }
  }

  /** There is only one standard grouping of given digits, so it is the one shown. */
  lemma GroupedIsTheOnly(digits: string, s: string)
    requires AllDigits(digits) && digits != ""
    ensures s == Grouped(digits) <==> WellGrouped(s) && WithoutCommas(s) == digits
  {
    GroupedWithoutCommas(digits);
    GroupedIsWellGrouped(digits);
    if WellGrouped(s) && WithoutCommas(s) == digits {
      WellGroupedUnique(s, Grouped(digits));
    }
  }

  lemma GroupSplit(s: string, n: nat)
    requires 1 <= n <= 3 && n <= |s| && AllDigits(s[..n]) && Triples(s[n..])
    ensures WithoutCommas(s) == s[..n] + WithoutCommas(s[n..])
    ensures |WithoutCommas(s)| % 3 == n % 3
  {
    hide WithoutCommas, Triples;
    var a, b := s[..n], s[n..];
    assert s == a + b;
    WithoutCommasAppend(a, b);
    DigitsHoldNoComma(a);
    NoCommasToRemove(a);
    TriplesStrip(b);
  }

  lemma WellGroupedUnique(s: string, t: string)
    requires WellGrouped(s) && WellGrouped(t) && WithoutCommas(s) == WithoutCommas(t)
    ensures s == t
  {
    hide WithoutCommas, Triples, AllDigits;
    var n :| 1 <= n <= 3 && n <= |s| && AllDigits(s[..n]) && Triples(s[n..]);
    var m :| 1 <= m <= 3 && m <= |t| && AllDigits(t[..m]) && Triples(t[m..]);
    GroupSplit(s, n);
    GroupSplit(t, m);
    assert n == m;
    var u := WithoutCommas(s);
    assert u[..n] == s[..n] && u[..n] == t[..n];
    assert u[n..] == WithoutCommas(s[n..]) && u[n..] == WithoutCommas(t[n..]);
    TriplesUnique(s[n..], t[n..]);
    assert s == s[..n] + s[n..] && t == t[..n] + t[n..];
  }

  // ----- decimals -----

  lemma SignOfSpelling(sign: Sign, body: string)
    requires body != "" && IsDigit(body[0])
    ensures SignPart(SignText(sign) + body) == SignText(sign)
  {
    var s := SignText(sign) + body;
    if sign.NoSign? {
      assert s == body;
    } else {
      assert s[..1] == SignText(sign);
    }
  }

  lemma LastOfSpelling(sign: Sign, whole: string, point: bool, fraction: string)
    requires AllDigits(whole) && whole != "" && AllDigits(fraction)
    ensures Spell(sign, whole, point, fraction) != ""
    ensures var s := Spell(sign, whole, point, fraction);
            s[|s| - 1] == '.' <==> point && fraction == ""
  {
    var body := whole + PointText(point, fraction);
    var s := Spell(sign, whole, point, fraction);
    assert s[|s| - 1] == body[|body| - 1];
    assert body[|body| - 1] ==
             if !point then whole[|whole| - 1] else if fraction == "" then '.' else fraction[|fraction| - 1];
  }

  lemma SpelledAsParsed(value: string)
    requires ParseFixed(value).Some?
    ensures var p := ParseFixed(value).value;
            value == SignPart(value) + (p.whole + PointText(p.fraction != "", p.fraction))
  {
    var p := ParseFixed(value).value;
    var sign, point := SpellingOfParsed(value);
    hide Parse, SignPart;
    LastOfSpelling(sign, p.whole, point, p.fraction);
    assert (p.whole + PointText(point, p.fraction))[0] == p.whole[0];
    SignOfSpelling(sign, p.whole + PointText(point, p.fraction));
  }

  lemma FormattedWithoutCommas(sign: string, whole: string, tail: string)
    requires ',' !in sign && ',' !in tail && AllDigits(whole)
    ensures WithoutCommas(sign + Grouped(whole) + tail) == sign + (whole + tail)
  {
    hide Grouped, WithoutCommas;
    assert sign + Grouped(whole) + tail == sign + (Grouped(whole) + tail);
    WithoutCommasAppend(sign, Grouped(whole) + tail);
    WithoutCommasAppend(Grouped(whole), tail);
    GroupedWithoutCommas(whole);
    NoCommasToRemove(sign);
    NoCommasToRemove(tail);
  }

  lemma PointHoldsNoComma(point: bool, fraction: string)
    requires AllDigits(fraction)
    ensures ',' !in PointText(point, fraction)
  {
    DigitsHoldNoComma(fraction);
  }

  /** Removing the commas from what is shown gives back the decimal, digit by digit. */
  lemma DecimalIsRecovered(value: string)
    ensures ParseFixed(value).Some? ==> WithoutCommas(FormatDecimal(value)) == value
    ensures ParseFixed(value).None? ==> FormatDecimal(value) == value
  {
    if ParseFixed(value).Some? {
      var p := ParseFixed(value).value;
      SpelledAsParsed(value);
      PointHoldsNoComma(p.fraction != "", p.fraction);
      assert ',' !in SignPart(value);
      hide ParseFixed, Grouped, WithoutCommas, SignPart, PointText;
      FormattedWithoutCommas(SignPart(value), p.whole, PointText(p.fraction != "", p.fraction));
    }
  }

  // ----- percentages -----

  /** Digits, and an optional point with at least one digit. */
  function ParseRatio(s: string): (r: Option<Parts>)
    ensures r.Some? ==> r.value.Valid() && !r.value.minus
  {
    if Signed(s) then None else ParseFixed(s)
  }

  function PadEnd(s: string, n: nat): string
    decreases n - |s|
  {
    if |s| >= n then s else PadEnd(s + "0", n)
  }

  function BeforePoint(s: string): string {
    if s == "" || s[0] == '.' then "" else [s[0]] + BeforePoint(s[1..])
  }

  /** What `split(".")` leaves in second place; absent without a point. */
  function AfterPoint(s: string): Option<string> {
    if s == "" then None else if s[0] == '.' then Some(BeforePoint(s[1..])) else AfterPoint(s[1..])
  }

  /** The digits with the point moved two places to the right. */
  function Shifted(whole: string, fraction: string): string {
    var digits, index := whole + fraction, |whole| + 2;
    var padded := if index >= |digits| then PadEnd(digits, index) else digits;
    if index >= |padded| then padded else padded[..index] + "." + padded[index..]
  }

  lemma {:induction false} PointlessSplit(s: string)
    requires AllDigits(s)
    ensures BeforePoint(s) == s && AfterPoint(s) == None
  {
    if s != "" {
      PointlessSplit(s[1..]);
    }
  }

  lemma {:induction false} SplitAtPoint(w: string, f: string)
    requires AllDigits(w) && AllDigits(f)
    ensures BeforePoint(w + "." + f) == w && AfterPoint(w + "." + f) == Some(f)
  {
    var s := w + "." + f;
    if w == "" {
      assert s == "." + f && s[1..] == f;
      PointlessSplit(f);
    } else {
      assert s[1..] == w[1..] + "." + f;
      SplitAtPoint(w[1..], f);
    }
  }

  /** The fraction with zeros up to two digits. */
  function TwoDigits(f: string): (r: string)
    requires AllDigits(f)
    ensures AllDigits(r) && |r| >= 2
  {
    if |f| == 0 then "00" else if |f| == 1 then f + "0" else f
  }

  lemma AppendedZero(f: string)
    requires AllDigits(f)
    ensures AllDigits(f + "0") && Fraction(f + "0") == Fraction(f)
  {
    FractionOfTrailingZero(f + "0");
    assert (f + "0")[..|f|] == f;
  }

  lemma TwoDigitsKeepsValue(f: string)
    requires AllDigits(f)
    ensures Fraction(TwoDigits(f)) == Fraction(f)
  {
    if |f| == 1 {
      AppendedZero(f);
    } else if |f| == 0 {
      AppendedZero("");
      AppendedZero("0");
      assert f == "" && "" + "0" == "0" && "0" + "0" == "00";
    }
  }

  lemma PadsToTwo(whole: string, f: string)
    requires AllDigits(f)
    ensures (if |whole| + 2 >= |whole + f| then PadEnd(whole + f, |whole| + 2) else whole + f) == whole + TwoDigits(f)
  {
    if |f| == 0 {
      assert whole + f == whole;
      assert whole + "0" + "0" == whole + "00";
    } else if |f| == 1 {
      assert whole + f + "0" == whole + (f + "0");
    }
  }

  /** Where the moved point splits the digits. */
  lemma ShiftedParts(whole: string, fraction: string)
    requires AllDigits(whole) && AllDigits(fraction)
    ensures var t := TwoDigits(fraction);
            && BeforePoint(Shifted(whole, fraction)) == whole + t[..2]
            && AfterPoint(Shifted(whole, fraction)) == if |t| == 2 then None else Some(t[2..])
  {
    var t := TwoDigits(fraction);
    PadsToTwo(whole, fraction);
    hide TwoDigits, PadEnd;
    var padded := whole + t;
    assert padded[..|whole| + 2] == whole + t[..2] && padded[|whole| + 2..] == t[2..];
    if |t| == 2 {
      assert Shifted(whole, fraction) == whole + t[..2];
      PointlessSplit(whole + t[..2]);
    } else {
      SplitAtPoint(whole + t[..2], t[2..]);
    }
  }

  /** The percentage, normalized but not yet grouped. */
  function PercentText(whole: string, fraction: string): string
    requires AllDigits(whole) && AllDigits(fraction)
  {
    ShiftedParts(whole, fraction);
    var percentage := Shifted(whole, fraction);
    var w := StripLeading(BeforePoint(percentage));
    var f := match AfterPoint(percentage) case None => "" case Some(g) => StripTrailing(g);
    if f != "" then w + "." + f else w
  }

  function FormatPercent(value: string): string {
    match ParseRatio(value)
    case None => FormatDecimal(value) + " (0\U{2013}1 ratio)"
    case Some(p) => FormatDecimal(PercentText(p.whole, p.fraction)) + "%"
  }

  /** Moving the point two places multiplies by 100 exactly. */
  lemma ShiftIsHundredfold(whole: string, fraction: string)
    requires AllDigits(whole) && AllDigits(fraction)
    ensures var t := TwoDigits(fraction);
            Unsigned(whole + t[..2], t[2..]) == 100.0 * Unsigned(whole, fraction)
  {
    var t := TwoDigits(fraction);
    TwoDigitsKeepsValue(fraction);
    hide TwoDigits, Whole, Fraction;
    assert t[..2] == [t[0], t[1]] && t == [t[0], t[1]] + t[2..];
    ShiftByTwo(whole, t[0], t[1], t[2..]);
  }

  lemma PercentTextSpells(whole: string, fraction: string) returns (w: string, f: string)
    requires AllDigits(whole) && whole != "" && AllDigits(fraction)
    ensures AllDigits(w) && w != "" && AllDigits(f) && NoLeadingZero(w) && NoTrailingZero(f)
    ensures PercentText(whole, fraction) == Spell(NoSign, w, f != "", f)
    ensures Unsigned(w, f) == 100.0 * Unsigned(whole, fraction)
  {
    hide Unsigned, Shifted, BeforePoint, AfterPoint;
    var t := TwoDigits(fraction);
    ShiftedParts(whole, fraction);
    ShiftIsHundredfold(whole, fraction);
    StrippingKeepsValue(whole + t[..2], t[2..]);
    hide TwoDigits;
    w, f := StripLeading(whole + t[..2]), StripTrailing(t[2..]);
    if |t| == 2 {
      assert t[2..] == "" && f == "";
    }
  }

  /** The percentage is a stripped decimal worth 100 times the ratio. */
  lemma PercentTextIsExact(whole: string, fraction: string)
    requires AllDigits(whole) && whole != "" && AllDigits(fraction)
    ensures var r := ParseFixed(PercentText(whole, fraction));
            r.Some? && r.value == Stripped(r.value) && !r.value.minus
            && r.value.Value() == 100.0 * Unsigned(whole, fraction)
    ensures PercentText(whole, fraction) == Render(ParseFixed(PercentText(whole, fraction)).value)
  {
    var w, f := PercentTextSpells(whole, fraction);
    hide PercentText, Spell, ParseFixed;
    StripLeadingOfStripped(w);
    StripTrailingOfStripped(f);
    FixedOfSpelling(NoSign, w, f);
  }

  lemma FixedOfSpelling(sign: Sign, whole: string, fraction: string)
    requires AllDigits(whole) && whole != "" && AllDigits(fraction)
    ensures ParseFixed(Spell(sign, whole, fraction != "", fraction)) == Some(Parts(sign.Minus?, whole, fraction))
  {
    ParseOfSpelling(sign, whole, fraction != "", fraction);
    LastOfSpelling(sign, whole, fraction != "", fraction);
  }

  lemma DropLast(s: string, c: char)
    ensures (s + [c])[..|s|] == s && (s + [c])[|s|] == c
  {
  }

  /** The number shown for a ratio: the text before the per-cent sign, without its commas. */
  function ShownNumber(text: string): string
    requires text != ""
  {
    WithoutCommas(text[..|text| - 1])
  }

  /** For every ratio of any length the percentage shown is exactly 100 times its value, with no redundant zero. */
  lemma PercentIsExact(value: string)
    requires ParseRatio(value).Some?
    ensures var text := FormatPercent(value);
            && text != "" && text[|text| - 1] == '%'
            && ParseFixed(ShownNumber(text)).Some?
            && ParseFixed(ShownNumber(text)).value.Value() == 100.0 * ParseRatio(value).value.Value()
            && ParseFixed(ShownNumber(text)).value == Stripped(ParseFixed(ShownNumber(text)).value)
            && text == FormatDecimal(ShownNumber(text)) + "%"
  {
    var p := ParseRatio(value).value;
    var shown := PercentText(p.whole, p.fraction);
    PercentTextIsExact(p.whole, p.fraction);
    assert FormatPercent(value) == FormatDecimal(shown) + "%";
    hide FormatPercent, FormatDecimal, PercentText, ParseRatio, ParseFixed, WithoutCommas;
    DropLast(FormatDecimal(shown), '%');
    DecimalIsRecovered(shown);
    assert ShownNumber(FormatPercent(value)) == shown;
  }

  /** Two ratios are shown alike exactly when they are equal numbers. */
  lemma PercentDecides(v: string, u: string)
    requires ParseRatio(v).Some? && ParseRatio(u).Some?
    ensures FormatPercent(v) == FormatPercent(u) <==> ParseRatio(v).value.Value() == ParseRatio(u).value.Value()
  {
    PercentIsExact(v);
    PercentIsExact(u);
    var p, q := ParseRatio(v).value, ParseRatio(u).value;
    PercentTextIsExact(p.whole, p.fraction);
    PercentTextIsExact(q.whole, q.fraction);
    var a, b := ParseFixed(PercentText(p.whole, p.fraction)).value, ParseFixed(PercentText(q.whole, q.fraction)).value;
    if p.Value() == q.Value() {
      hide ParseFixed, PercentText, Stripped, FormatDecimal, Render;
      StrippedDecides(a, b);
    }
  }

  /** What is no ratio is shown as a decimal, or as it is, and marked as meant to be a ratio. */
  lemma OtherTextIsMarked(value: string) returns (shown: string)
    requires ParseRatio(value).None?
    ensures FormatPercent(value) == shown + " (0\U{2013}1 ratio)"
    ensures if ParseFixed(value).Some? then WithoutCommas(shown) == value else shown == value
  {
    DecimalIsRecovered(value);
    shown := FormatDecimal(value);
  }

  /** Nothing, or a point and at least one digit. */
  ghost predicate IsFraction(tail: string) {
    tail == "" || (|tail| > 1 && tail[0] == '.' && AllDigits(tail[1..]))
  }

  /** A decimal is shown with its sign and fraction as typed, around its whole digits in standard grouping. */
  lemma DecimalIsGrouped(value: string) returns (sign: string, whole: string, tail: string)
    requires ParseFixed(value).Some?
    ensures value == sign + (whole + tail) && AllDigits(whole) && whole != ""
    ensures (sign == "" || sign == "+" || sign == "-") && IsFraction(tail)
    ensures WellGrouped(Grouped(whole)) && WithoutCommas(Grouped(whole)) == whole
    ensures FormatDecimal(value) == sign + Grouped(whole) + tail
  {
    var p := ParseFixed(value).value;
    sign, whole, tail := SignPart(value), p.whole, PointText(p.fraction != "", p.fraction);
    FormattedParts(value);
    hide *;
    SpelledAsParsed(value);
    SignIsOne(value);
    PointIsTail(p.fraction);
    GroupedIsTheOnly(whole, Grouped(whole));
  }

  lemma FormattedParts(value: string)
    requires ParseFixed(value).Some?
    ensures var p := ParseFixed(value).value;
            && AllDigits(p.whole) && p.whole != "" && AllDigits(p.fraction)
            && FormatDecimal(value) == SignPart(value) + Grouped(p.whole) + PointText(p.fraction != "", p.fraction)
  {
    hide ParseFixed, Grouped, PointText, SignPart;
  }

  lemma SignIsOne(s: string)
    ensures SignPart(s) == "" || SignPart(s) == "+" || SignPart(s) == "-"
  {
    if Signed(s) {
      assert s[..1] == [s[0]];
    }
  }

  lemma PointIsTail(fraction: string)
    requires AllDigits(fraction)
    ensures var tail := PointText(fraction != "", fraction);
            IsFraction(tail)
  {
    assert ("." + fraction)[1..] == fraction;
  }
}
