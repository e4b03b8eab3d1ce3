/**
 The change signature of the planning form (`PlanningRunForm.tsx`): the normal form of typed
 decimals, and when two sets of floors or assumptions count as the same.
 */
module PlanningForm {
  import opened Wrappers
  import opened Sequences
  import opened Ordering
  import opened Stability
  import opened DecimalText

  // ----- trimming -----

  /** The white space and line terminators `String.prototype.trim` removes. */
  predicate IsSpace(c: char) {
    || c == '\t' || c == '\n' || c == '\U{0b}' || c == '\U{0c}' || c == '\r' || c == ' ' || c == '\U{a0}'
    || c == '\U{1680}' || '\U{2000}' <= c <= '\U{200a}' || c == '\U{2028}' || c == '\U{2029}' || c == '\U{202f}'
    || c == '\U{205f}' || c == '\U{3000}' || c == '\U{feff}'
  }

  /** The code points of that white space. */
  lemma SpaceCodes(c: char)
    ensures IsSpace(c) <==>
              c as int in {9, 10, 11, 12, 13, 32, 160, 5760, 8192, 8193, 8194, 8195, 8196, 8197, 8198, 8199, 8200, 8201,
                           8202, 8232, 8233, 8239, 8287, 12288, 65279}
  {
  }

  function TrimStart(s: string): string {
    if s != "" && IsSpace(s[0]) then TrimStart(s[1..]) else s
  }

  function TrimEnd(s: string): string {
    if s != "" && IsSpace(s[|s| - 1]) then TrimEnd(s[..|s| - 1]) else s
  }

  function Trim(s: string): string {
    TrimEnd(TrimStart(s))
  }

  predicate Trimmed(s: string) {
    s != "" ==> !IsSpace(s[0]) && !IsSpace(s[|s| - 1])
  }

  lemma {:induction false} TrimEndKeepsStart(s: string)
    requires s != "" ==> !IsSpace(s[0])
    ensures Trimmed(TrimEnd(s))
  {
    if s != "" && IsSpace(s[|s| - 1]) {
      TrimEndKeepsStart(s[..|s| - 1]);
    }
  }

  lemma {:induction false} TrimStartStarts(s: string)
    ensures TrimStart(s) != "" ==> !IsSpace(TrimStart(s)[0])
  {
    if s != "" && IsSpace(s[0]) {
      TrimStartStarts(s[1..]);
    }
  }

  lemma TrimIsTrimmed(s: string)
    ensures Trimmed(Trim(s))
  {
    TrimStartStarts(s);
    TrimEndKeepsStart(TrimStart(s));
  }

  ghost predicate AllSpace(s: string) {
    forall c :: c in s ==> IsSpace(c)
  }

  /** Trimming takes white space off both ends and nothing else. */
  lemma TrimTakesSpace(s: string) returns (before: string, after: string)
    ensures s == before + Trim(s) + after && AllSpace(before) && AllSpace(after) && Trimmed(Trim(s))
  {
    before := SpaceBefore(s);
    after := SpaceAfter(TrimStart(s));
    TrimIsTrimmed(s);
  }

  lemma {:induction false} SpaceBefore(s: string) returns (before: string)
    ensures s == before + TrimStart(s) && AllSpace(before)
  {
    before := "";
    if s != "" && IsSpace(s[0]) {
      before := SpaceBefore(s[1..]);
      before := [s[0]] + before;
      assert s == [s[0]] + s[1..];
    }
  }

  lemma {:induction false} SpaceAfter(s: string) returns (after: string)
    ensures s == TrimEnd(s) + after && AllSpace(after)
  {
    after := "";
    if s != "" && IsSpace(s[|s| - 1]) {
      after := SpaceAfter(s[..|s| - 1]);
      after := after + [s[|s| - 1]];
      assert s == s[..|s| - 1] + [s[|s| - 1]];
    }
  }

  lemma TrimOfTrimmed(s: string)
    requires Trimmed(s)
    ensures Trim(s) == s
  {
  }

  // ----- reading a decimal -----

  datatype Parts = Parts(minus: bool, whole: string, fraction: string) {
    predicate Valid() {
      AllDigits(whole) && whole != "" && AllDigits(fraction)
    }

    function Value(): real
      requires Valid()
    {
      if minus then -Unsigned(whole, fraction) else Unsigned(whole, fraction)
    }
  }

  function DigitRun(s: string): (n: nat)
    ensures n <= |s| && AllDigits(s[..n]) && (n < |s| ==> !IsDigit(s[n]))
  {
    if s == "" || !IsDigit(s[0]) then 0 else 1 + DigitRun(s[1..])
  }

  function Signed(s: string): bool {
    s != "" && (s[0] == '+' || s[0] == '-')
  }

  function Unsign(s: string): string {
    if Signed(s) then s[1..] else s
  }

  function ParseBody(minus: bool, body: string): (r: Option<Parts>)
    ensures r.Some? ==> r.value.Valid() && r.value.minus == minus
  {
    var n := DigitRun(body);
    if n == 0 then None
    else if n == |body| then Some(Parts(minus, body, ""))
    else if body[n] == '.' && AllDigits(body[n + 1..]) then Some(Parts(minus, body[..n], body[n + 1..]))
    else None
  }

  /** The regular expression for an optional sign, digits, and an optional point with optional digits. */
  function Parse(s: string): (r: Option<Parts>)
    ensures r.Some? ==> r.value.Valid()
  {
    ParseBody(s != "" && s[0] == '-', Unsign(s))
  }

  datatype Sign = NoSign | Plus | Minus

  function SignText(sign: Sign): string {
    match sign
    case NoSign => ""
    case Plus => "+"
    case Minus => "-"
  }

  function PointText(point: bool, fraction: string): string {
    if point then "." + fraction else ""
  }

  /** A decimal as it may be typed. */
  function Spell(sign: Sign, whole: string, point: bool, fraction: string): string {
    SignText(sign) + (whole + PointText(point, fraction))
  }

  lemma {:induction false} DigitRunOf(w: string, rest: string)
    requires AllDigits(w) && (rest != "" ==> !IsDigit(rest[0]))
    ensures DigitRun(w + rest) == |w|
  {
    if w == "" {
      assert w + rest == rest;
    } else {
      assert (w + rest)[1..] == w[1..] + rest;
      DigitRunOf(w[1..], rest);
    }
  }

  lemma ParseOfBody(minus: bool, whole: string, point: bool, fraction: string)
    requires AllDigits(whole) && whole != "" && AllDigits(fraction)
    ensures ParseBody(minus, whole + PointText(point, fraction)) ==
              Some(Parts(minus, whole, if point then fraction else ""))
  {
    var rest := PointText(point, fraction);
    var body := whole + rest;
    DigitRunOf(whole, rest);
    hide DigitRun;
    assert body[..|whole|] == whole;
    if point {
      assert body[|whole|] == '.' && body[|whole| + 1..] == fraction;
    } else {
      assert body == whole;
    }
  }

  lemma UnsignOf(sign: Sign, body: string)
    requires body != "" && IsDigit(body[0])
    ensures Unsign(SignText(sign) + body) == body
    ensures (SignText(sign) + body)[0] == '-' <==> sign.Minus?
  {
    var s := SignText(sign) + body;
    if sign.NoSign? {
      assert s == body;
    } else {
      assert s[1..] == body;
    }
  }

  /** Parsing accepts every spelling and recovers its parts. */
  lemma ParseOfSpelling(sign: Sign, whole: string, point: bool, fraction: string)
    requires AllDigits(whole) && whole != "" && AllDigits(fraction)
    ensures Parse(Spell(sign, whole, point, fraction)) ==
              Some(Parts(sign.Minus?, whole, if point then fraction else ""))
  {
    ParseOfBody(sign.Minus?, whole, point, fraction);
    var body := whole + PointText(point, fraction);
    assert body[0] == whole[0];
    UnsignOf(sign, body);
    hide ParseBody, PointText, SignText, Unsign;
  }

  /** Parsing accepts nothing but spellings. */
  lemma SpellingOfParsed(s: string) returns (sign: Sign, point: bool)
    requires Parse(s).Some?
    ensures var p := Parse(s).value;
            s == Spell(sign, p.whole, point, p.fraction) && p.minus == sign.Minus?
  {
    var body := Unsign(s);
    sign := if !Signed(s) then NoSign else if s[0] == '-' then Minus else Plus;
    assert s == SignText(sign) + body;
    point := DigitRun(body) < |body|;
    SpellingOfBody(sign.Minus?, body);
  }

  lemma SpellingOfBody(minus: bool, body: string)
    requires ParseBody(minus, body).Some?
    ensures var p := ParseBody(minus, body).value;
            body == p.whole + PointText(DigitRun(body) < |body|, p.fraction)
  {
    hide DigitRun, AllDigits;
    var n, p := DigitRun(body), ParseBody(minus, body).value;
    BodyParts(minus, body);
    hide ParseBody, PointText;
    if n < |body| {
      SplitAt(body, n);
      PointAdds(p.fraction);
    }
  }

  lemma BodyParts(minus: bool, body: string)
    requires ParseBody(minus, body).Some?
    ensures var n, p := DigitRun(body), ParseBody(minus, body).value;
            if n < |body| then body[n] == '.' && p.whole == body[..n] && p.fraction == body[n + 1..]
            else p.whole == body && PointText(false, p.fraction) == ""
  {
    hide DigitRun, AllDigits;
  }

  lemma PointAdds(fraction: string)
    ensures PointText(true, fraction) == ['.'] + fraction
  {
  }

  lemma SplitAt(s: string, n: nat)
    requires n < |s|
    ensures s == s[..n] + ([s[n]] + s[n + 1..])
  {
  }

  // ----- normalizing -----

  function Render(p: Parts): string {
    Spell(if p.minus then Minus else NoSign, p.whole, p.fraction != "", p.fraction)
  }

  function Stripped(p: Parts): (r: Parts)
    requires p.Valid()
    ensures r.Valid()
  {
    Parts(p.minus, StripLeading(p.whole), StripTrailing(p.fraction))
  }

  function NormalizeDecimal(value: string): string {
    match Parse(Trim(value))
    case None => Trim(value)
    case Some(p) => Render(Stripped(p))
  }

  lemma SpellingIsTrimmed(sign: Sign, whole: string, point: bool, fraction: string)
    requires AllDigits(whole) && whole != "" && AllDigits(fraction) && (point ==> fraction != "")
    ensures Trimmed(Spell(sign, whole, point, fraction))
  {
    var body := whole + PointText(point, fraction);
    assert body[0] == whole[0];
    assert body[|body| - 1] == if point then fraction[|fraction| - 1] else whole[|whole| - 1];
    var s := SignText(sign) + body;
    assert s[|s| - 1] == body[|body| - 1];
    assert s[0] == '+' || s[0] == '-' || s[0] == body[0];
  }

  lemma RenderParses(p: Parts)
    requires p.Valid()
    ensures Parse(Render(p)) == Some(p) && Trimmed(Render(p))
  {
    hide Spell, Parse, Trimmed;
    ParseOfSpelling(if p.minus then Minus else NoSign, p.whole, p.fraction != "", p.fraction);
    SpellingIsTrimmed(if p.minus then Minus else NoSign, p.whole, p.fraction != "", p.fraction);
  }

  lemma StrippedDecides(p: Parts, q: Parts)
    requires p.Valid() && q.Valid()
    ensures Stripped(p) == Stripped(q) <==> p.Value() == q.Value() && (p.Value() == 0.0 ==> p.minus == q.minus)
  {
    var a, b := Stripped(p), Stripped(q);
    StrippingKeepsValue(p.whole, p.fraction);
    StrippingKeepsValue(q.whole, q.fraction);
    UnsignedUnique(a.whole, a.fraction, b.whole, b.fraction);
  }

  /**
   What a typed decimal means: well-formed text its value, with the sign of a zero kept apart;
   anything else its trimmed text.
   */
  ghost predicate SameNumber(s: string, t: string) {
    match (Parse(Trim(s)), Parse(Trim(t)))
    case (Some(p), Some(q)) => p.Value() == q.Value() && (p.Value() == 0.0 ==> p.minus == q.minus)
    case (None, None) => Trim(s) == Trim(t)
    case _ => false
  }

  /** Two texts have the same normal form exactly when they mean the same; this holds for every pair of strings. */
  lemma NormalizeDecides(s: string, t: string)
    ensures NormalizeDecimal(s) == NormalizeDecimal(t) <==> SameNumber(s, t)
  {
    NormalParses(s);
    NormalParses(t);
    hide Parse, Trim, Render, Stripped;
    match (Parse(Trim(s)), Parse(Trim(t)))
    case (Some(p), Some(q)) => StrippedDecides(p, q);
    case _ =>
  }

  /** The normal form parses to the stripped parts exactly if the text was a decimal. */
  lemma NormalParses(s: string)
    ensures Parse(Trim(s)).Some? ==> Parse(NormalizeDecimal(s)) == Some(Stripped(Parse(Trim(s)).value))
    ensures Parse(Trim(s)).None? ==> Parse(NormalizeDecimal(s)) == None
    ensures Trimmed(NormalizeDecimal(s))
  {
    TrimIsTrimmed(s);
    if Parse(Trim(s)).Some? {
      RenderParses(Stripped(Parse(Trim(s)).value));
    }
  }

  /** The normal form of a decimal is the same number with its sign, without redundant zeros and without a plus. */
  lemma NormalFormIsMinimal(s: string)
    requires Parse(Trim(s)).Some?
    ensures Parse(NormalizeDecimal(s)).Some?
    ensures var p, q := Parse(Trim(s)).value, Parse(NormalizeDecimal(s)).value;
            && q.Value() == p.Value() && q.minus == p.minus
            && (|q.whole| > 1 ==> q.whole[0] != '0')
            && (q.fraction != "" ==> q.fraction[|q.fraction| - 1] != '0')
            && NormalizeDecimal(s) ==
               (if q.minus then "-" else "") + (q.whole + if q.fraction == "" then "" else "." + q.fraction)
  {
    NormalParses(s);
    hide Parse, Trim;
    var p := Parse(Trim(s)).value;
    StrippingKeepsValue(p.whole, p.fraction);
    hide StripLeading, StripTrailing;
    assert NoLeadingZero(StripLeading(p.whole)) && NoTrailingZero(StripTrailing(p.fraction));
  }

  lemma NormalizeIsIdempotent(s: string)
    ensures NormalizeDecimal(NormalizeDecimal(s)) == NormalizeDecimal(s)
  {
    NormalParses(s);
    TrimOfTrimmed(NormalizeDecimal(s));
    if Parse(Trim(s)).Some? {
      var p := Stripped(Parse(Trim(s)).value);
      StripLeadingOfStripped(p.whole);
      StripTrailingOfStripped(p.fraction);
    }
  }

  /** Without a minus sign, decimals have the same normal form exactly when they are equal numbers. */
  lemma UnsignedNormalizeDecides(s: string, t: string)
    requires Parse(Trim(s)).Some? && Parse(Trim(t)).Some?
    requires !Parse(Trim(s)).value.minus && !Parse(Trim(t)).value.minus
    ensures NormalizeDecimal(s) == NormalizeDecimal(t) <==> Parse(Trim(s)).value.Value() == Parse(Trim(t)).value.Value()
  {
    NormalizeDecides(s, t);
  }

  /** Every zero is written "0" or "-0". */
  lemma ZeroNormalForm(s: string)
    requires Parse(Trim(s)).Some? && Parse(Trim(s)).value.Value() == 0.0
    ensures NormalizeDecimal(s) == if Parse(Trim(s)).value.minus then "-0" else "0"
  {
    hide Parse, Trim, Spell;
    var p := Parse(Trim(s)).value;
    StrippingKeepsValue(p.whole, p.fraction);
    assert Whole("0") == 0;
    UnsignedUnique(StripLeading(p.whole), StripTrailing(p.fraction), "0", "");
    ZeroSpellings();
  }

  lemma ZeroSpellings()
    ensures Spell(NoSign, "0", false, "") == "0" && Spell(Minus, "0", false, "") == "-0"
  {
  }

  /** A typed minus zero is equal to zero but has another normal form. */
  lemma MinusZeroDiffers()
    ensures Parse(Trim("-0")).Some? && Parse(Trim("0")).Some?
    ensures Parse(Trim("-0")).value.Value() == Parse(Trim("0")).value.Value()
    ensures NormalizeDecimal("-0") != NormalizeDecimal("0")
  {
    TrimOfTrimmed("-0");
    TrimOfTrimmed("0");
    ZeroSpellings();
    hide Trim, Parse, NormalizeDecimal;
    ParseOfSpelling(Minus, "0", false, "");
    ParseOfSpelling(NoSign, "0", false, "");
    assert Whole("0") == 0;
    ZeroNormalForm("-0");
    ZeroNormalForm("0");
    assert "-0"[0] != "0"[0];
  }

  // ----- floors -----

  datatype DraftFloor = DraftFloor(
    id: int,
    decisionKey: string,
    floorId: string,
    source: string,
    minServiceLevel: string,
    maxExpectedShortage: string,
    maxAogRisk: string,
    detail: string)

  datatype NormalFloor = NormalFloor(
    decisionKey: string,
    floorId: string,
    source: string,
    minServiceLevel: string,
    maxExpectedShortage: string,
    maxAogRisk: string,
    detail: string)

  function NormalizeFloor(f: DraftFloor): NormalFloor {
    NormalFloor(Trim(f.decisionKey), Trim(f.floorId), Trim(f.source), NormalizeDecimal(f.minServiceLevel),
                NormalizeDecimal(f.maxExpectedShortage), NormalizeDecimal(f.maxAogRisk), Trim(f.detail))
  }

  /** `le` is `localeCompare` on the JSON texts of two floors. */
  function FloorSignature(floors: seq<DraftFloor>, le: (NormalFloor, NormalFloor) -> bool): seq<NormalFloor> {
    Sort(Map(NormalizeFloor, floors), le)
  }

  ghost predicate SameFloor(f: DraftFloor, g: DraftFloor) {
    && Trim(f.decisionKey) == Trim(g.decisionKey) && Trim(f.floorId) == Trim(g.floorId)
    && Trim(f.source) == Trim(g.source)
    && SameNumber(f.minServiceLevel, g.minServiceLevel) && SameNumber(f.maxExpectedShortage, g.maxExpectedShortage)
    && SameNumber(f.maxAogRisk, g.maxAogRisk) && Trim(f.detail) == Trim(g.detail)
  }

  lemma NormalizeFloorDecides(f: DraftFloor, g: DraftFloor)
    ensures NormalizeFloor(f) == NormalizeFloor(g) <==> SameFloor(f, g)
  {
    NormalizeDecides(f.minServiceLevel, g.minServiceLevel);
    NormalizeDecides(f.maxExpectedShortage, g.maxExpectedShortage);
    NormalizeDecides(f.maxAogRisk, g.maxAogRisk);
    hide NormalizeDecimal, SameNumber, Trim;
  }

  ghost predicate Pairwise(fs: seq<DraftFloor>, gs: seq<DraftFloor>) {
    |fs| == |gs| && forall i :: 0 <= i < |fs| ==> SameFloor(fs[i], gs[i])
  }

  /** The same floors in some order. */
  ghost predicate SameFloors(fs: seq<DraftFloor>, gs: seq<DraftFloor>) {
    exists hs :: Pairwise(fs, hs) && multiset(hs) == multiset(gs)
  }

  lemma PairwiseImages(fs: seq<DraftFloor>, gs: seq<DraftFloor>)
    ensures Pairwise(fs, gs) <==> Map(NormalizeFloor, fs) == Map(NormalizeFloor, gs)
  {
    hide Map, NormalizeFloor, SameFloor;
    if |fs| == |gs| {
      forall i | 0 <= i < |fs|
        ensures SameFloor(fs[i], gs[i]) <==> Map(NormalizeFloor, fs)[i] == Map(NormalizeFloor, gs)[i]
      {
        NormalizeFloorDecides(fs[i], gs[i]);
      }
    }
    if Pairwise(fs, gs) {
      assert Map(NormalizeFloor, fs) == Map(NormalizeFloor, gs);
    }
  }

  lemma SameFloorsDecides(fs: seq<DraftFloor>, gs: seq<DraftFloor>)
    ensures SameFloors(fs, gs) <==> multiset(Map(NormalizeFloor, fs)) == multiset(Map(NormalizeFloor, gs))
  {
    hide Map, NormalizeFloor, Pairwise;
    if multiset(Map(NormalizeFloor, fs)) == multiset(Map(NormalizeFloor, gs)) {
      var hs := LiftPermutation(NormalizeFloor, Map(NormalizeFloor, fs), gs);
      PairwiseImages(fs, hs);
    }
    if SameFloors(fs, gs) {
      var hs :| Pairwise(fs, hs) && multiset(hs) == multiset(gs);
      PairwiseImages(fs, hs);
      MapPermuted(NormalizeFloor, hs, gs);
    }
  }

  /**
   When the collation tells the floors apart, two signatures agree exactly for the same floors:
   neither their order nor the spelling of their numbers counts.
   */
  lemma FloorSignatureDecides(fs: seq<DraftFloor>, gs: seq<DraftFloor>, le: (NormalFloor, NormalFloor) -> bool)
    requires TotalPreorder(le) && TiesAreEqual(Map(NormalizeFloor, fs), le)
    ensures FloorSignature(fs, le) == FloorSignature(gs, le) <==> SameFloors(fs, gs)
  {
    SameFloorsDecides(fs, gs);
    SortIgnoresOrder(Map(NormalizeFloor, fs), Map(NormalizeFloor, gs), le);
  }

  ghost predicate OrderIgnored(fs: seq<DraftFloor>, le: (NormalFloor, NormalFloor) -> bool) {
    forall gs :: multiset(gs) == multiset(fs) ==> FloorSignature(gs, le) == FloorSignature(fs, le)
  }

  /** The signature ignores the order of the floors exactly when the collation tells apart the floors that differ. */
  lemma FloorOrderIgnoredIff(fs: seq<DraftFloor>, le: (NormalFloor, NormalFloor) -> bool)
    requires TotalPreorder(le)
    ensures OrderIgnored(fs, le) <==> TiesAreEqual(Map(NormalizeFloor, fs), le)
  {
    var ns := Map(NormalizeFloor, fs);
    SortIgnoresOrderIff(ns, le);
    hide Map, NormalizeFloor, Sort, TotalPreorder, TiesAreEqual;
    if SortsAllAlike(ns, le) {
      forall gs | multiset(gs) == multiset(fs) ensures FloorSignature(gs, le) == FloorSignature(fs, le) {
        MapPermuted(NormalizeFloor, gs, fs);
      }
    }
    if OrderIgnored(fs, le) {
      forall zs | multiset(zs) == multiset(ns) ensures Sort(zs, le) == Sort(ns, le) {
        var gs := LiftPermutation(NormalizeFloor, zs, fs);
        assert FloorSignature(gs, le) == FloorSignature(fs, le);
      }
    }
  }

  /** Whatever the collation: two signatures agree exactly for the same floors with those that tie in the same order. */
  lemma FloorSignatureIff(fs: seq<DraftFloor>, gs: seq<DraftFloor>, le: (NormalFloor, NormalFloor) -> bool)
    requires TotalPreorder(le)
    ensures FloorSignature(fs, le) == FloorSignature(gs, le) <==>
              TiesAlike(Map(NormalizeFloor, fs), Map(NormalizeFloor, gs), le)
  {
    SortsAlikeIff(Map(NormalizeFloor, fs), Map(NormalizeFloor, gs), le);
  }

  /** Different floors that tie in the collation, whatever it is: their order stays in the signature. */
  lemma FloorsCanTie(f: DraftFloor, g: DraftFloor, le: (NormalFloor, NormalFloor) -> bool)
    requires TotalPreorder(le) && !SameFloor(f, g)
    requires le(NormalizeFloor(f), NormalizeFloor(g)) && le(NormalizeFloor(g), NormalizeFloor(f))
    ensures !OrderIgnored([f, g], le)
  {
    NormalizeFloorDecides(f, g);
    hide NormalizeFloor, OrderIgnored, SameFloor;
    FloorOrderIgnoredIff([f, g], le);
    var ns := Map(NormalizeFloor, [f, g]);
    assert ns[0] == NormalizeFloor(f) && ns[1] == NormalizeFloor(g);
    assert ns[0] in ns && ns[1] in ns;
  }

  /** A floor with everything fixed but its detail. */
  function FloorWith(detail: string): DraftFloor {
    DraftFloor(1, "k", "f", "s", "1", "1", "1", detail)
  }

  /** One accented letter, composed and decomposed: a collation that equates the two remembers which came first. */
  lemma AccentedFloorsTie(le: (NormalFloor, NormalFloor) -> bool)
    requires TotalPreorder(le)
    requires le(NormalizeFloor(FloorWith("\U{e9}")), NormalizeFloor(FloorWith("e\U{0301}")))
    requires le(NormalizeFloor(FloorWith("e\U{0301}")), NormalizeFloor(FloorWith("\U{e9}")))
    ensures !OrderIgnored([FloorWith("\U{e9}"), FloorWith("e\U{0301}")], le)
  {
    TrimOfTrimmed("\U{e9}");
    TrimOfTrimmed("e\U{0301}");
    hide Trim, OrderIgnored, NormalizeFloor;
    FloorsCanTie(FloorWith("\U{e9}"), FloorWith("e\U{0301}"), le);
  }

  // ----- the whole signature -----

  /** A tier's weight; an object's properties are a sequence of these in property order, keys distinct. */
  datatype TierWeight = TierWeight(tier: string, weight: string)

  datatype Weights = Weights(
    shortage: string, aogRisk: string, holdingCost: string, orderingCost: string, criticality: seq<TierWeight>)

  datatype Assumptions = Assumptions(
    explicitScope: bool,
    keys: seq<(string, string)>,
    budget: string,
    horizon: string,
    currency: string,
    timeLimit: string,
    weights: Weights,
    floors: seq<DraftFloor>)

  datatype Signature = Signature(
    explicitScope: bool,
    keys: seq<string>,
    budget: string,
    horizonDays: string,
    currency: string,
    timeLimitSeconds: string,
    shortage: string,
    aogRisk: string,
    holdingCost: string,
    orderingCost: string,
    criticality: seq<TierWeight>,
    floors: seq<NormalFloor>)

  function Label(key: (string, string)): string {
    key.0 + "@" + key.1
  }

  /** An array index: decimal digits without leading zeros, below 2^32 - 1. */
  predicate IsIndex(key: string) {
    AllDigits(key) && key != "" && NoLeadingZero(key) && Whole(key) < 0xffff_ffff
  }

  /** The indices are the shortest spellings of 0 to 4294967294. */
  lemma IndexIff(key: string)
    ensures IsIndex(key) <==>
              AllDigits(key) && key != "" && Whole(key) <= 4294967294 && (key[0] == '0' ==> key == "0")
  {
    if key != "" && key[0] == '0' && |key| <= 1 {
      assert key == "0";
    }
  }

  /** Property order: array indices first, by value; other keys stay in insertion order. */
  predicate OwnLe(a: TierWeight, b: TierWeight) {
    !IsIndex(b.tier) || (IsIndex(a.tier) && Whole(a.tier) <= Whole(b.tier))
  }

  function TierLe(collation: (string, string) -> bool): (TierWeight, TierWeight) -> bool {
    (a: TierWeight, b: TierWeight) => collation(a.tier, b.tier)
  }

  function NormalizeTier(t: TierWeight): TierWeight {
    TierWeight(t.tier, NormalizeDecimal(t.weight))
  }

  /** Entries sorted by the collation of their keys, normalized, and made an object again. */
  function TierSignature(ts: seq<TierWeight>, collation: (string, string) -> bool): seq<TierWeight> {
    Sort(Map(NormalizeTier, Sort(ts, TierLe(collation))), OwnLe)
  }

  /**
   The object whose JSON text is compared. `number` is the JSON text of `Number(...)`, `upper` is
   `toUpperCase`, `le` the collation of floors and `collation` that of tiers.
   */
  function AssumptionSignature(
      a: Assumptions, number: string -> string, upper: string -> string,
      le: (NormalFloor, NormalFloor) -> bool, collation: (string, string) -> bool): Signature
  {
    Signature(
      a.explicitScope,
      if a.explicitScope then Sort(Map(Label, a.keys), StringLe) else [],
      NormalizeDecimal(a.budget),
      number(a.horizon),
      upper(Trim(a.currency)),
      number(a.timeLimit),
      NormalizeDecimal(a.weights.shortage),
      NormalizeDecimal(a.weights.aogRisk),
      NormalizeDecimal(a.weights.holdingCost),
      NormalizeDecimal(a.weights.orderingCost),
      TierSignature(a.weights.criticality, collation),
      FloorSignature(a.floors, le))
  }

  ghost predicate SameTier(t: TierWeight, u: TierWeight) {
    t.tier == u.tier && SameNumber(t.weight, u.weight)
  }

  ghost predicate TiersPairwise(ts: seq<TierWeight>, us: seq<TierWeight>) {
    |ts| == |us| && forall i :: 0 <= i < |ts| ==> SameTier(ts[i], us[i])
  }

  /** The same tiers with the same weights, in some order. */
  ghost predicate SameTiers(ts: seq<TierWeight>, us: seq<TierWeight>) {
    exists vs :: TiersPairwise(ts, vs) && multiset(vs) == multiset(us)
  }

  /** The same scope and the same numbers, however spelled: everything but tiers and floors. */
  ghost predicate SameScalars(a: Assumptions, b: Assumptions, number: string -> string, upper: string -> string) {
    var v, w := a.weights, b.weights;
    && a.explicitScope == b.explicitScope
    && (a.explicitScope ==> multiset(Map(Label, a.keys)) == multiset(Map(Label, b.keys)))
    && SameNumber(a.budget, b.budget) && number(a.horizon) == number(b.horizon)
    && upper(Trim(a.currency)) == upper(Trim(b.currency)) && number(a.timeLimit) == number(b.timeLimit)
    && SameNumber(v.shortage, w.shortage) && SameNumber(v.aogRisk, w.aogRisk)
    && SameNumber(v.holdingCost, w.holdingCost) && SameNumber(v.orderingCost, w.orderingCost)
  }

  /** The same scope, the same numbers however spelled, the same tiers and floors in any order. */
  ghost predicate SameAssumptions(a: Assumptions, b: Assumptions, number: string -> string, upper: string -> string) {
    && SameScalars(a, b, number, upper)
    && SameTiers(a.weights.criticality, b.weights.criticality)
    && SameFloors(a.floors, b.floors)
  }

  lemma OwnLeIsTotal()
    ensures TotalPreorder(OwnLe)
  {
    hide IsIndex;
    forall x, y, z | OwnLe(x, y) && OwnLe(y, z) ensures OwnLe(x, z) {
    }
  }

  /** The order tiers end up in: property order, and where that says nothing the collation. */
  function TierOrder(collation: (string, string) -> bool): (TierWeight, TierWeight) -> bool {
    Lexicographic(OwnLe, TierLe(collation))
  }

  /** No two different tiers tie both in property order and in the collation. */
  ghost predicate SeparateTiers(ts: seq<TierWeight>, collation: (string, string) -> bool) {
    TiesAreEqual(ts, TierOrder(collation))
  }

  /** Tiers named by array indices, as "1" to "5" are, never tie, whatever the collation and the weights. */
  lemma IndexTiersAreSeparate(ts: seq<TierWeight>, collation: (string, string) -> bool)
    requires forall t :: t in ts ==> IsIndex(t.tier)
    requires forall t, u :: t in ts && u in ts && t.tier == u.tier ==> t == u
    ensures SeparateTiers(Map(NormalizeTier, ts), collation)
  {
    hide Map, NormalizeDecimal, IsIndex, TierOrder;
    var both, ns := TierOrder(collation), Map(NormalizeTier, ts);
    forall x, y | x in ns && y in ns && both(x, y) && both(y, x) ensures x == y {
      var i :| 0 <= i < |ns| && ns[i] == x;
      var j :| 0 <= j < |ns| && ns[j] == y;
      assert ts[i] in ts && ts[j] in ts;
      TyingIndices(x, y, collation);
    }
  }

  lemma TyingIndices(x: TierWeight, y: TierWeight, collation: (string, string) -> bool)
    requires IsIndex(x.tier) && IsIndex(y.tier)
    requires TierOrder(collation)(x, y) && TierOrder(collation)(y, x)
    ensures x.tier == y.tier
  {
    hide Whole, AllDigits, NoLeadingZero;
    assert OwnLe(x, y) && OwnLe(y, x);
    WholeUnique(x.tier, y.tier);
  }

  /** Sorting the keys and rebuilding the object is one sort of the normalized tiers. */
  lemma TierSignatureIsSort(ts: seq<TierWeight>, collation: (string, string) -> bool)
    requires TotalPreorder(TierLe(collation))
    ensures TierSignature(ts, collation) == Sort(Map(NormalizeTier, ts), TierOrder(collation))
    ensures TotalPreorder(TierOrder(collation))
  {
    hide Sort, Map, NormalizeDecimal, OwnLe;
    OwnLeIsTotal();
    LexicographicIsTotal(OwnLe, TierLe(collation));
    MapOfSort(NormalizeTier, ts, TierLe(collation), TierLe(collation));
    SortTwice(Map(NormalizeTier, ts), OwnLe, TierLe(collation));
  }

  lemma TiersPairwiseImages(ts: seq<TierWeight>, us: seq<TierWeight>)
    ensures TiersPairwise(ts, us) <==> Map(NormalizeTier, ts) == Map(NormalizeTier, us)
  {
    hide Map, NormalizeDecimal, SameNumber;
    if |ts| == |us| {
      forall i | 0 <= i < |ts|
        ensures SameTier(ts[i], us[i]) <==> Map(NormalizeTier, ts)[i] == Map(NormalizeTier, us)[i]
      {
        NormalizeDecides(ts[i].weight, us[i].weight);
      }
    }
    hide NormalizeTier, SameTier;
    if TiersPairwise(ts, us) {
      assert Map(NormalizeTier, ts) == Map(NormalizeTier, us);
    }
  }

  lemma SameTiersDecides(ts: seq<TierWeight>, us: seq<TierWeight>)
    ensures SameTiers(ts, us) <==> multiset(Map(NormalizeTier, ts)) == multiset(Map(NormalizeTier, us))
  {
    hide Map, NormalizeTier, TiersPairwise;
    if multiset(Map(NormalizeTier, ts)) == multiset(Map(NormalizeTier, us)) {
      var vs := LiftPermutation(NormalizeTier, Map(NormalizeTier, ts), us);
      TiersPairwiseImages(ts, vs);
    }
    if SameTiers(ts, us) {
      var vs :| TiersPairwise(ts, vs) && multiset(vs) == multiset(us);
      TiersPairwiseImages(ts, vs);
      MapPermuted(NormalizeTier, vs, us);
    }
  }

  /** Tiers that do not tie leave the same trace in the signature exactly when their weights are the same. */
  lemma TiersDecide(ts: seq<TierWeight>, us: seq<TierWeight>, collation: (string, string) -> bool)
    requires TotalPreorder(TierLe(collation)) && SeparateTiers(Map(NormalizeTier, ts), collation)
    ensures TierSignature(ts, collation) == TierSignature(us, collation) <==> SameTiers(ts, us)
  {
    TierSignatureIsSort(ts, collation);
    TierSignatureIsSort(us, collation);
    SameTiersDecides(ts, us);
    hide Sort, Map, NormalizeTier, TierOrder, TierLe, TierSignature, TotalPreorder;
    SortIgnoresOrder(Map(NormalizeTier, ts), Map(NormalizeTier, us), TierOrder(collation));
  }

  /** Whatever the collation: the same trace exactly for the same tiers with those that tie in the same order. */
  lemma TierSignatureIff(ts: seq<TierWeight>, us: seq<TierWeight>, collation: (string, string) -> bool)
    requires TotalPreorder(TierLe(collation))
    ensures TierSignature(ts, collation) == TierSignature(us, collation) <==>
              TiesAlike(Map(NormalizeTier, ts), Map(NormalizeTier, us), TierOrder(collation))
  {
    TierSignatureIsSort(ts, collation);
    TierSignatureIsSort(us, collation);
    hide Sort, Map, NormalizeTier, TierOrder, TierLe, TierSignature, TotalPreorder, TiesAlike;
    SortsAlikeIff(Map(NormalizeTier, ts), Map(NormalizeTier, us), TierOrder(collation));
  }

  ghost predicate TierOrderIgnored(ts: seq<TierWeight>, collation: (string, string) -> bool) {
    forall us :: multiset(us) == multiset(ts) ==> TierSignature(us, collation) == TierSignature(ts, collation)
  }

  /** The signature ignores the order in which tiers were entered exactly when different tiers do not tie. */
  lemma TierOrderIgnoredIff(ts: seq<TierWeight>, collation: (string, string) -> bool)
    requires TotalPreorder(TierLe(collation))
    ensures TierOrderIgnored(ts, collation) <==> SeparateTiers(Map(NormalizeTier, ts), collation)
  {
    var ns, both := Map(NormalizeTier, ts), TierOrder(collation);
    TierSignatureIsSort(ts, collation);
    SortIgnoresOrderIff(ns, both);
    hide Map, NormalizeTier, Sort, TotalPreorder, TiesAreEqual, TierSignature, TierLe, TierOrder;
    if SortsAllAlike(ns, both) {
      forall us | multiset(us) == multiset(ts) ensures TierSignature(us, collation) == TierSignature(ts, collation) {
        TierSignatureIsSort(us, collation);
        MapPermuted(NormalizeTier, us, ts);
      }
    }
    if TierOrderIgnored(ts, collation) {
      forall zs | multiset(zs) == multiset(ns) ensures Sort(zs, both) == Sort(ns, both) {
        var us := LiftPermutation(NormalizeTier, zs, ts);
        TierSignatureIsSort(us, collation);
        assert TierSignature(us, collation) == TierSignature(ts, collation);
      }
    }
  }

  lemma LabelsDecide(ks: seq<(string, string)>, ls: seq<(string, string)>)
    ensures Sort(Map(Label, ks), StringLe) == Sort(Map(Label, ls), StringLe) <==>
              multiset(Map(Label, ks)) == multiset(Map(Label, ls))
  {
    StringLeIsTotalOrder();
    hide StringLe, Map, Label;
    assert TiesAreEqual(Map(Label, ks), StringLe);
    SortIgnoresOrder(Map(Label, ks), Map(Label, ls), StringLe);
  }

  /** Two signatures agree but for tiers and floors. */
  ghost predicate AgreeingScalars(s: Signature, t: Signature) {
    s == t.(criticality := s.criticality, floors := s.floors)
  }

  lemma ScalarsDecide(
      a: Assumptions, b: Assumptions, number: string -> string, upper: string -> string,
      le: (NormalFloor, NormalFloor) -> bool, collation: (string, string) -> bool)
    ensures SameScalars(a, b, number, upper) <==>
              AgreeingScalars(AssumptionSignature(a, number, upper, le, collation),
                              AssumptionSignature(b, number, upper, le, collation))
  {
    hide NormalizeDecimal, SameNumber, TierSignature, FloorSignature, Sort, Map, StringLe, Trim;
    LabelsDecide(a.keys, b.keys);
    NormalizeDecides(a.budget, b.budget);
    NormalizeDecides(a.weights.shortage, b.weights.shortage);
    NormalizeDecides(a.weights.aogRisk, b.weights.aogRisk);
    NormalizeDecides(a.weights.holdingCost, b.weights.holdingCost);
    NormalizeDecides(a.weights.orderingCost, b.weights.orderingCost);
  }

  /** Where no tiers and no floors tie, a rerun is reported as unchanged exactly for the same assumptions. */
  lemma AssumptionSignatureDecides(
      a: Assumptions, b: Assumptions, number: string -> string, upper: string -> string,
      le: (NormalFloor, NormalFloor) -> bool, collation: (string, string) -> bool)
    requires TotalPreorder(le) && TiesAreEqual(Map(NormalizeFloor, a.floors), le)
    requires TotalPreorder(TierLe(collation)) && SeparateTiers(Map(NormalizeTier, a.weights.criticality), collation)
    ensures SameAssumptions(a, b, number, upper) <==>
              AssumptionSignature(a, number, upper, le, collation) ==
              AssumptionSignature(b, number, upper, le, collation)
  {
    ScalarsDecide(a, b, number, upper, le, collation);
    TiersDecide(a.weights.criticality, b.weights.criticality, collation);
    FloorSignatureDecides(a.floors, b.floors, le);
    hide SameScalars, SameTiers, SameFloors, TierSignature, FloorSignature, NormalizeDecimal, Sort, Map, Trim;
  }

  /**
   Whatever ties: a rerun is reported as unchanged exactly for the same scope and numbers and the
   same tiers and floors, where those that tie in their collation also keep their order.
   */
  lemma AssumptionSignatureIff(
      a: Assumptions, b: Assumptions, number: string -> string, upper: string -> string,
      le: (NormalFloor, NormalFloor) -> bool, collation: (string, string) -> bool)
    requires TotalPreorder(le) && TotalPreorder(TierLe(collation))
    ensures AssumptionSignature(a, number, upper, le, collation) ==
              AssumptionSignature(b, number, upper, le, collation) <==>
              && SameScalars(a, b, number, upper)
              && TiesAlike(Map(NormalizeTier, a.weights.criticality), Map(NormalizeTier, b.weights.criticality),
                           TierOrder(collation))
              && TiesAlike(Map(NormalizeFloor, a.floors), Map(NormalizeFloor, b.floors), le)
  {
    ScalarsDecide(a, b, number, upper, le, collation);
    TierSignatureIff(a.weights.criticality, b.weights.criticality, collation);
    FloorSignatureIff(a.floors, b.floors, le);
    hide SameScalars, TiesAlike, TierSignature, FloorSignature, NormalizeDecimal, Sort, Map, Trim, TierOrder;
  }

  /** A key whose label no other key has. */
  ghost predicate Unmistakable(p: (string, string)) {
    forall q :: Label(q) == Label(p) ==> q == p
  }

  /** The `@` at place `i` of a text, taken as the separator. */
  function CutAt(s: string, i: nat): (string, string)
    requires i < |s|
  {
    (s[..i], s[i + 1..])
  }

  lemma CutSpells(s: string, i: nat)
    requires i < |s| && s[i] == '@'
    ensures Label(CutAt(s, i)) == s
  {
    assert s == s[..i] + [s[i]] + s[i + 1..];
  }

  /** With one `@` only, there is one way to read the label. */
  lemma OneAtIsUnmistakable(p: (string, string), q: (string, string))
    requires '@' !in p.0 && '@' !in p.1 && Label(q) == Label(p)
    ensures q == p
  {
    var s, n := Label(p), |p.0|;
    forall i | 0 <= i < |s| && i != n ensures s[i] in p.0 || s[i] in p.1 {
      if i < n {
        assert s[i] == p.0[i];
      } else {
        assert s[i] == p.1[i - n - 1];
      }
    }
    var t := Label(q);
    assert t[|q.0|] == '@';
    assert q.0 == t[..n] && q.1 == t[n + 1..] && p.0 == s[..n] && p.1 == s[n + 1..];
  }

  /** Another `@` on either side gives the label a second reading. */
  lemma SecondAtMisleads(p: (string, string)) returns (q: (string, string))
    requires '@' in p.0 || '@' in p.1
    ensures Label(q) == Label(p) && q != p
  {
    var s, n := Label(p), |p.0|;
    var i: nat;
    if '@' in p.0 {
      i :| 0 <= i < n && p.0[i] == '@';
      assert s[i] == '@';
    } else {
      var k :| 0 <= k < |p.1| && p.1[k] == '@';
      i := n + 1 + k;
      assert s[i] == '@';
    }
    CutSpells(s, i);
    q := CutAt(s, i);
    assert |q.0| == i != n;
  }

  /** With an `@` in a part number, two keys can share a label. */
  lemma LabelsCollide()
    ensures Label(("A@B", "C")) == Label(("A", "B@C"))
    ensures !Unmistakable(("A@B", "C"))
  {
    LabelUnmistakableIff(("A@B", "C"));
    assert ("A@B")[1] == '@';
  }

  /** Exactly the keys without an `@` in part number and location have a label of their own. */
  lemma LabelUnmistakableIff(p: (string, string))
    ensures Unmistakable(p) <==> '@' !in p.0 && '@' !in p.1
  {
    if '@' !in p.0 && '@' !in p.1 {
      forall q | Label(q) == Label(p) ensures q == p {
        OneAtIsUnmistakable(p, q);
      }
    } else {
      var q := SecondAtMisleads(p);
    }
  }
}
