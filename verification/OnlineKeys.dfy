/**
 The string keys of the online table (`online_store.py`): the length-prefixed
 `(pn, location)` encoding, its strict decoder, and the generation-prefixed bundle keys.
 */
module OnlineKeys {
  import opened DecimalText
  import opened Wrappers

  type Key = (string, string)

  // ----- decimal text of a length -----

  function DigitChar(d: nat): (c: char)
    requires d < 10
    ensures IsDigit(c) && DigitValue(c) == d
  {
    '0' + d as char
  }

  /** Python's `str(n)`. */
  function Decimal(n: nat): (s: string)
    ensures s != "" && AllDigits(s)
  {
    if n < 10 then [DigitChar(n)] else Decimal(n / 10) + [DigitChar(n % 10)]
  }

  /**
   Python's `int(text)` on non-empty ASCII digits. Every other spelling `int` accepts (signs,
   spaces, underscores, other digits) is not `str` of a positive number and fails the
   decoder's next test, so `None` stands for those as well.
   */
  function ParseInt(s: string): Option<nat> {
    if s != "" && AllDigits(s) then Some(Whole(s)) else None
  }

  lemma {:induction false} WholeOfDecimal(n: nat)
    ensures Whole(Decimal(n)) == n
  {
    if n >= 10 {
      WholeOfDecimal(n / 10);
      var s := Decimal(n / 10);
      assert (s + [DigitChar(n % 10)])[..|s|] == s;
    }
  }

  // ----- splitting at the first '#' -----

  function FindHash(s: string): (r: Option<nat>)
    ensures r.None? <==> '#' !in s
    ensures r.Some? ==> r.value < |s| && s[r.value] == '#' && '#' !in s[..r.value]
  {
    if s == "" then None
    else if s[0] == '#' then Some(0)
    else match FindHash(s[1..])
      case None => None
      case Some(i) =>
        assert s[..i + 1] == [s[0]] + s[1..][..i];
        Some(i + 1)
  }

  /** Text before the first '#' is determined by the whole string. */
  lemma SplitUnique(a: string, x: string, b: string, y: string)
    requires '#' !in a && '#' !in b
    requires a + "#" + x == b + "#" + y
    ensures a == b && x == y
  {
    var s := a + "#" + x;
    assert s[|a|] == '#' && s[|b|] == '#';
    assert forall i :: 0 <= i < |a| ==> s[i] == a[i] && s[i] != '#';
    assert forall i :: 0 <= i < |b| ==> s[i] == b[i] && s[i] != '#';
    assert |a| == |b|;
    assert a == s[..|a|] && b == s[..|b|];
    assert x == s[|a| + 1..] && y == s[|b| + 1..];
  }

  lemma FindHashAt(a: string, x: string)
    requires '#' !in a
    ensures FindHash(a + "#" + x) == Some(|a|)
  {
    var s := a + "#" + x;
    assert s[|a|] == '#';
    var i := FindHash(s).value;
    assert forall j :: 0 <= j < |a| ==> s[j] == a[j] && s[j] != '#';
    assert forall j :: 0 <= j < i ==> s[j] == s[..i][j] && s[j] != '#';
  }

  // ----- (pn, location) encoding -----

  function SortKey(pn: string, location: string): string {
    Decimal(|pn|) + "#" + pn + "#" + location
  }

  /** `_decode_sort_key`: the four checks in order; `Err` is the `ValueError`. */
  function DecodeSortKey(value: string): Result<Key, string> {
    match FindHash(value)
    case None => Err("invalid pn_location sort key")
    case Some(h) =>
      var rawLength, remainder := value[..h], value[h + 1..];
      match ParseInt(rawLength)
      case None => Err("invalid pn_location sort key")
      case Some(n) =>
        if n <= 0 || rawLength != Decimal(n) then Err("invalid pn_location sort key")
        else if |remainder| <= n || remainder[n] != '#' then Err("invalid pn_location sort key")
        else
          var pn, location := remainder[..n], remainder[n + 1..];
          if pn == "" || location == "" || SortKey(pn, location) != value
          then Err("invalid pn_location sort key")
          else Ok((pn, location))
  }

  lemma DecimalHasNoHash(n: nat)
    ensures '#' !in Decimal(n)
  {
    assert !IsDigit('#');
  }

  /** The encoding is injective on all strings, whatever '#' or digits they contain. */
  lemma SortKeyInjective(pn: string, location: string, pn': string, location': string)
    ensures SortKey(pn, location) == SortKey(pn', location') <==> pn == pn' && location == location'
  {
    if SortKey(pn, location) == SortKey(pn', location') {
      var a, x := Decimal(|pn|), pn + "#" + location;
      var b, y := Decimal(|pn'|), pn' + "#" + location';
      DecimalHasNoHash(|pn|);
      DecimalHasNoHash(|pn'|);
      assert SortKey(pn, location) == a + "#" + x && SortKey(pn', location') == b + "#" + y;
      SplitUnique(a, x, b, y);
      WholeOfDecimal(|pn|);
      WholeOfDecimal(|pn'|);
      assert |pn| == |pn'|;
      assert pn == x[..|pn|] && pn' == y[..|pn'|];
      assert location == x[|pn| + 1..] && location' == y[|pn'| + 1..];
    }
  }

  /** The decoder accepts exactly the encodings of pairs of non-empty strings, and inverts them. */
  lemma DecodeInvertsEncode(value: string, pn: string, location: string)
    ensures DecodeSortKey(value) == Ok((pn, location)) <==>
            pn != "" && location != "" && value == SortKey(pn, location)
  {
    if pn != "" && location != "" && value == SortKey(pn, location) {
      var a, x := Decimal(|pn|), pn + "#" + location;
      DecimalHasNoHash(|pn|);
      assert value == a + "#" + x;
      FindHashAt(a, x);
      WholeOfDecimal(|pn|);
      assert value[..|a|] == a && value[|a| + 1..] == x;
      assert x[|pn|] == '#' && x[..|pn|] == pn && x[|pn| + 1..] == location;
    }
  }

  // ----- generations and bundle keys -----

  const POINTER_SORT_KEY := "_meta#population"
  const BUNDLE_PREFIX := "_bundle#"

  predicate IsAlphaNumeric(c: char) {
    'A' <= c <= 'Z' || 'a' <= c <= 'z' || '0' <= c <= '9'
  }

  /** `^[A-Za-z0-9][A-Za-z0-9._-]{0,127}$`, matched against the whole string. */
  predicate ValidGeneration(g: string) {
    && 1 <= |g| <= 128
    && IsAlphaNumeric(g[0])
    && forall c :: c in g ==> IsAlphaNumeric(c) || c == '.' || c == '_' || c == '-'
  }

  function BundlePrefix(g: string): string {
    BUNDLE_PREFIX + g + "#"
  }

  function BundleSortKey(g: string, pn: string, location: string): string {
    BundlePrefix(g) + SortKey(pn, location)
  }

  /** `_decode_bundle_sort_key`; an invalid generation is the same `ValueError`. */
  function DecodeBundleSortKey(value: string, g: string): Result<Key, string> {
    if !ValidGeneration(g) then Err("invalid online population generation")
    else if !(BundlePrefix(g) <= value) then Err("online bundle key is outside generation")
    else DecodeSortKey(value[|BundlePrefix(g)|..])
  }

  /** A bundle key lies under a generation's prefix exactly when it belongs to that generation. */
  lemma PrefixSelectsGeneration(g: string, g': string, pn: string, location: string)
    requires ValidGeneration(g) && ValidGeneration(g')
    ensures BundlePrefix(g) <= BundleSortKey(g', pn, location) <==> g == g'
  {
    var p, k := BundlePrefix(g), BundleSortKey(g', pn, location);
    if p <= k {
      var x := k[|p|..];
      assert k == p + x;
      assert k == BUNDLE_PREFIX + (g' + "#" + SortKey(pn, location));
      assert k == BUNDLE_PREFIX + (g + "#" + x);
      assert k[|BUNDLE_PREFIX|..] == g' + "#" + SortKey(pn, location);
      assert k[|BUNDLE_PREFIX|..] == g + "#" + x;
      SplitUnique(g, x, g', SortKey(pn, location));
    }
  }

  lemma BundleSortKeyInjective(g: string, pn: string, location: string,
                               g': string, pn': string, location': string)
    requires ValidGeneration(g) && ValidGeneration(g')
    ensures BundleSortKey(g, pn, location) == BundleSortKey(g', pn', location') <==>
            g == g' && pn == pn' && location == location'
  {
    var k, k' := BundleSortKey(g, pn, location), BundleSortKey(g', pn', location');
    if k == k' {
      assert BundlePrefix(g) <= k;
      PrefixSelectsGeneration(g, g', pn', location');
      assert k[|BundlePrefix(g)|..] == SortKey(pn, location);
      assert k'[|BundlePrefix(g)|..] == SortKey(pn', location');
      SortKeyInjective(pn, location, pn', location');
    }
  }

  lemma PointerIsNoBundleKey(g: string, pn: string, location: string)
    ensures BundleSortKey(g, pn, location) != POINTER_SORT_KEY
    ensures !(BundlePrefix(g) <= POINTER_SORT_KEY)
  {
    assert BundleSortKey(g, pn, location)[1] == 'b' && POINTER_SORT_KEY[1] == 'm';
    assert BundlePrefix(g)[1] == 'b';
  }

  /** Decoding under a generation inverts the bundle key of that generation, and accepts nothing else. */
  lemma DecodeBundleInvertsEncode(value: string, g: string, pn: string, location: string)
    requires ValidGeneration(g)
    ensures DecodeBundleSortKey(value, g) == Ok((pn, location)) <==>
            pn != "" && location != "" && value == BundleSortKey(g, pn, location)
  {
    var p := BundlePrefix(g);
    if p <= value {
      assert value == p + value[|p|..];
      DecodeInvertsEncode(value[|p|..], pn, location);
    }
    if value == BundleSortKey(g, pn, location) {
      assert value[|p|..] == SortKey(pn, location);
      DecodeInvertsEncode(SortKey(pn, location), pn, location);
    }
  }

  /** What `uuid4().hex` gives is a valid generation. */
  lemma HexIsValid(g: string)
    requires |g| == 32 && forall c :: c in g ==> '0' <= c <= '9' || 'a' <= c <= 'f'
    ensures ValidGeneration(g)
  {
    assert g[0] in g;
  }

  /** Which characters a generation may hold where, by code point: letters, digits, and after the first also `-._`. */
  lemma GenerationCodes(g: string)
    ensures ValidGeneration(g) <==>
              1 <= |g| <= 128
              && forall i :: 0 <= i < |g| ==>
                   var n := g[i] as int;
                   48 <= n < 58 || 65 <= n < 91 || 97 <= n < 123 || (i > 0 && n in {45, 46, 95})
  {
    if ValidGeneration(g) {
      assert forall i :: 0 <= i < |g| ==> g[i] in g;
    } else if 1 <= |g| <= 128 && IsAlphaNumeric(g[0]) {
      var c :| c in g && !(IsAlphaNumeric(c) || c == '.' || c == '_' || c == '-');
      var i :| 0 <= i < |g| && g[i] == c;
    }
  }
}
