/**
 `_canonicalize` and the scenario input fingerprint of `scenario_result.py`: when two nested values
 get the same canonical form, and hence the same hashed text.
 */
module Fingerprint {
  import opened Wrappers
  import opened Ordering
  import opened Sequences
  import opened JsonText

  /** A mapping key; `text` is what `str(key)` gives, `kind` keeps the key 1 apart from the key "1". */
  datatype Key = Key(kind: string, text: string)

  datatype Entry = Entry(key: Key, value: Value)

  /**
   The values `_canonicalize` walks. `Items` is a list, a tuple or a set in its iteration order; a
   `Mapping`, a dataclass or a model is its entries in insertion order.
   */
  datatype Value =
    | Null
    | Truth(b: bool)
    | Number(literal: string)
    | Text(text: string)
    | Date(iso: string)
    | Decimal(digits: string)
    | Items(items: seq<Value>)
    | Mapping(entries: seq<Entry>)

  /** Every number has a JSON spelling, as `allow_nan=False` demands. */
  ghost predicate Valid(v: Value) {
    match v
    case Number(s) => ValidLiteral(s)
    case Items(xs) => forall i :: 0 <= i < |xs| ==> Valid(xs[i])
    case Mapping(es) => forall i :: 0 <= i < |es| ==> Valid(es[i].value)
    case _ => true
  }

  // ----- the canonical form -----

  /** The sort key of list items: their JSON text. */
  ghost predicate JsonLe(a: Json, b: Json) {
    StringLe(Dumps(a), Dumps(b))
  }

  predicate TextLe(a: (string, Json), b: (string, Json)) {
    StringLe(a.0, b.0)
  }

  /** A dict comprehension: a later pair overrides an earlier one with the same key. */
  function LastWins(ps: seq<(string, Json)>): map<string, Json> {
    if ps == [] then map[] else map[ps[0].0 := ps[0].1] + LastWins(ps[1..])
  }

  ghost function Canon(v: Value): Json
    decreases v, 1
  {
    match v
    case Null => JNull
    case Truth(b) => JBool(b)
    case Number(s) => JNumber(s)
    case Text(s) => JText(s)
    case Date(s) => JText(s)
    case Decimal(s) => JText(s)
    case Items(xs) => JList(Sort(CanonItems(xs), JsonLe))
    case Mapping(es) => JObject(LastWins(Sort(CanonEntries(es), TextLe)))
  }

  ghost function CanonItems(xs: seq<Value>): (r: seq<Json>)
    ensures |r| == |xs|
    ensures forall i :: 0 <= i < |xs| ==> r[i] == Canon(xs[i])
    decreases xs, 0
  {
    if xs == [] then [] else [Canon(xs[0])] + CanonItems(xs[1..])
  }

  /** The pairs under their key texts; sorting by key text before or after canonicalizing is the same. */
  ghost function CanonEntries(es: seq<Entry>): (r: seq<(string, Json)>)
    ensures |r| == |es|
    ensures forall i :: 0 <= i < |es| ==> r[i] == CanonEntry(es[i])
    decreases es, 0
  {
    if es == [] then [] else [CanonEntry(es[0])] + CanonEntries(es[1..])
  }

  ghost function CanonEntry(e: Entry): (string, Json)
    decreases e, 0
  {
    (e.key.text, Canon(e.value))
  }

  predicate EntryLe(a: Entry, b: Entry) {
    StringLe(a.key.text, b.key.text)
  }

  lemma {:induction false} CanonInsert(e: Entry, es: seq<Entry>)
    ensures CanonEntries(Insert(e, es, EntryLe)) == Insert(CanonEntry(e), CanonEntries(es), TextLe)
  {
    if es != [] && !EntryLe(e, es[0]) {
      CanonInsert(e, es[1..]);
    }
  }

  /** The source sorts the entries first and canonicalizes them in that order. */
  lemma {:induction false} SortThenCanonicalize(es: seq<Entry>)
    ensures CanonEntries(Sort(es, EntryLe)) == Sort(CanonEntries(es), TextLe)
  {
    if es != [] {
      SortThenCanonicalize(es[1..]);
      CanonInsert(es[0], Sort(es[1..], EntryLe));
    }
  }

  // ----- what the sorts do -----

  lemma JsonLeIsTotal()
    ensures TotalPreorder(JsonLe)
  {
    hide Dumps, StringLe;
    StringLeIsTotalOrder();
    forall x, y ensures JsonLe(x, y) || JsonLe(y, x) {
    }
    forall x, y, z | JsonLe(x, y) && JsonLe(y, z) ensures JsonLe(x, z) {
    }
  }

  ghost predicate AllValid(js: seq<Json>) {
    forall i :: 0 <= i < |js| ==> ValidJson(js[i])
  }

  /** Equal sort keys mean equal items, because the JSON text is injective. */
  lemma JsonTiesAreEqual(js: seq<Json>)
    requires AllValid(js)
    ensures TiesAreEqual(js, JsonLe)
  {
    hide Dumps, StringLe;
    StringLeIsTotalOrder();
    forall x, y | x in js && y in js && JsonLe(x, y) && JsonLe(y, x) ensures x == y {
      DumpsInjective(x, y);
    }
  }

  lemma OverridesCommute(p: (string, Json), q: (string, Json), m: map<string, Json>)
    requires p.0 != q.0
    ensures map[q.0 := q.1] + (map[p.0 := p.1] + m) == map[p.0 := p.1] + (map[q.0 := q.1] + m)
  {
  }

  lemma {:induction false} LastWinsOfInsert(p: (string, Json), ps: seq<(string, Json)>)
    ensures LastWins(Insert(p, ps, TextLe)) == map[p.0 := p.1] + LastWins(ps)
  {
    if ps == [] || TextLe(p, ps[0]) {
      assert ([p] + ps)[1..] == ps;
    } else {
      var r := Insert(p, ps[1..], TextLe);
      LessAsymmetric(p.0, ps[0].0);
      hide Less;
      LastWinsOfInsert(p, ps[1..]);
      assert ([ps[0]] + r)[1..] == r;
      OverridesCommute(p, ps[0], LastWins(ps[1..]));
    }
  }

  /** Sorting by key text is stable, so it does not change which of several equal keys wins. */
  lemma {:induction false} LastWinsOfSort(ps: seq<(string, Json)>)
    ensures LastWins(Sort(ps, TextLe)) == LastWins(ps)
  {
    if ps != [] {
      LastWinsOfSort(ps[1..]);
      LastWinsOfInsert(ps[0], Sort(ps[1..], TextLe));
    }
  }

  /** Entry `i` is the last one with its key text. */
  ghost predicate Wins(es: seq<Entry>, i: nat) {
    i < |es| && forall j :: i < j < |es| ==> es[j].key.text != es[i].key.text
  }

  ghost function Texts(es: seq<Entry>): set<string> {
    set e | e in es :: e.key.text
  }

  lemma WinsInTail(es: seq<Entry>, i: nat)
    requires Wins(es, i) && i > 0
    ensures Wins(es[1..], i - 1) && es[1..][i - 1] == es[i]
    ensures es[i].key.text in Texts(es[1..])
  {
    var rest := es[1..];
    assert rest[i - 1] == es[i] && rest[i - 1] in rest;
    forall j | i - 1 < j < |rest| ensures rest[j].key.text != rest[i - 1].key.text {
      assert es[j + 1] == rest[j];
    }
  }

  lemma FirstWins(es: seq<Entry>)
    requires Wins(es, 0)
    ensures es[0].key.text !in Texts(es[1..])
  {
  }

  lemma LastWinsStep(es: seq<Entry>)
    requires es != []
    ensures LastWins(CanonEntries(es)) == map[es[0].key.text := Canon(es[0].value)] + LastWins(CanonEntries(es[1..]))
  {
    assert CanonEntries(es)[1..] == CanonEntries(es[1..]);
  }

  lemma {:induction false} LastWinsReads(es: seq<Entry>)
    ensures LastWins(CanonEntries(es)).Keys == Texts(es)
    ensures forall i: nat :: Wins(es, i) ==> LastWins(CanonEntries(es))[es[i].key.text] == Canon(es[i].value)
  {
    hide Canon, CanonEntries;
    if es == [] {
      assert LastWins(CanonEntries(es)) == map[];
    } else {
      var rest := es[1..];
      LastWinsReads(rest);
      LastWinsStep(es);
      TextsStep(es);
      hide LastWins, Texts, Wins;
      forall i: nat | Wins(es, i) ensures LastWins(CanonEntries(es))[es[i].key.text] == Canon(es[i].value) {
        if i > 0 {
          WinsInTail(es, i);
        } else {
          FirstWins(es);
        }
      }
    }
  }

  lemma TextsStep(es: seq<Entry>)
    requires es != []
    ensures Texts(es) == {es[0].key.text} + Texts(es[1..])
  {
    assert es == [es[0]] + es[1..];
  }

  lemma {:induction false} TextHasWinner(es: seq<Entry>, t: string) returns (i: nat)
    requires t in Texts(es)
    ensures Wins(es, i) && es[i].key.text == t
  {
    var rest := es[1..];
    assert es == [es[0]] + rest;
    if t in Texts(rest) {
      var j := TextHasWinner(rest, t);
      i := j + 1;
      forall k | i < k < |es| ensures es[k].key.text != es[i].key.text {
        assert es[k] == rest[k - 1];
      }
    } else {
      i := 0;
      forall k | 0 < k < |es| ensures es[k].key.text != t {
        assert es[k] in rest;
      }
    }
  }

  /** A mapping's canonical form: the key texts that occur, each with its last value. */
  lemma MappingReads(es: seq<Entry>)
    ensures Canon(Mapping(es)).JObject?
    ensures Canon(Mapping(es)).members == LastWins(CanonEntries(es))
    ensures Canon(Mapping(es)).members.Keys == Texts(es)
    ensures forall i: nat :: Wins(es, i) ==> Canon(Mapping(es)).members[es[i].key.text] == Canon(es[i].value)
  {
    LastWinsOfSort(CanonEntries(es));
    LastWinsReads(es);
  }

  lemma {:induction false} CanonIsValid(v: Value)
    requires Valid(v)
    ensures ValidJson(Canon(v))
  {
    match v
    case Items(xs) =>
      forall i | 0 <= i < |xs| ensures ValidJson(CanonItems(xs)[i]) {
        CanonIsValid(xs[i]);
      }
      var js := Sort(CanonItems(xs), JsonLe);
      SortMultiset(CanonItems(xs), JsonLe);
      MultisetMembers(CanonItems(xs), js);
      forall i | 0 <= i < |js| ensures ValidJson(js[i]) {
        assert js[i] in CanonItems(xs);
      }
    case Mapping(es) =>
      MappingReads(es);
      forall t | t in Canon(v).members ensures ValidJson(Canon(v).members[t]) {
        var i := TextHasWinner(es, t);
        CanonIsValid(es[i].value);
      }
    case _ =>
  }

  lemma ItemsAreValid(xs: seq<Value>)
    requires Valid(Items(xs))
    ensures AllValid(CanonItems(xs))
  {
    forall i | 0 <= i < |xs| ensures ValidJson(CanonItems(xs)[i]) {
      CanonIsValid(xs[i]);
    }
  }

  /** A list's canonical form is its canonical items in increasing order of their JSON text. */
  lemma ListReads(xs: seq<Value>)
    ensures var j := Canon(Items(xs));
            && j.JList? && multiset(j.items) == multiset(CanonItems(xs))
            && forall a, b :: 0 <= a < b < |j.items| ==> StringLe(Dumps(j.items[a]), Dumps(j.items[b]))
  {
    JsonLeIsTotal();
    SortMultiset(CanonItems(xs), JsonLe);
    SortSorted(CanonItems(xs), JsonLe);
    hide Dumps, StringLe, Sort, Canon;
    var j := JList(Sort(CanonItems(xs), JsonLe));
    forall a, b | 0 <= a < b < |j.items| ensures StringLe(Dumps(j.items[a]), Dumps(j.items[b])) {
      assert JsonLe(j.items[a], j.items[b]);
    }
    assert Canon(Items(xs)) == j by { ListForm(xs); }
  }

  lemma ListForm(xs: seq<Value>)
    ensures Canon(Items(xs)) == JList(Sort(CanonItems(xs), JsonLe))
  {
  }

  /** Lists agree canonically exactly when they hold the same canonical items, each as often. */
  lemma ItemsCanonEqual(xs: seq<Value>, ys: seq<Value>)
    requires Valid(Items(xs))
    ensures Canon(Items(xs)) == Canon(Items(ys)) <==> multiset(CanonItems(xs)) == multiset(CanonItems(ys))
  {
    ItemsAreValid(xs);
    JsonTiesAreEqual(CanonItems(xs));
    JsonLeIsTotal();
    SortIgnoresOrder(CanonItems(xs), CanonItems(ys), JsonLe);
  }

  // ----- values that mean the same -----

  function TextOf(v: Value): Option<string> {
    match v
    case Text(s) => Some(s)
    case Date(s) => Some(s)
    case Decimal(s) => Some(s)
    case _ => None
  }

  /**
   The same data: lists with matching items in some order, mappings with the same key texts and
   matching winning values, scalars that are equal or have the same text.
   */
  ghost predicate Equiv(v: Value, w: Value)
    decreases v, 1
  {
    match v
    case Items(xs) => w.Items? && ListsEquiv(xs, w.items)
    case Mapping(es) => w.Mapping? && Texts(es) == Texts(w.entries) && WinnersEquiv(es, w.entries)
    case _ => v == w || (TextOf(v).Some? && TextOf(v) == TextOf(w))
  }

  /** Some permutation of `ys` matches `xs` item by item. */
  ghost predicate ListsEquiv(xs: seq<Value>, ys: seq<Value>)
    decreases xs, 1
  {
    exists zs :: ItemsEquiv(xs, zs) && multiset(zs) == multiset(ys)
  }

  ghost predicate ItemsEquiv(xs: seq<Value>, zs: seq<Value>)
    decreases xs, 0
  {
    |xs| == |zs| && forall i :: 0 <= i < |xs| ==> Equiv(xs[i], zs[i])
  }

  ghost predicate WinnersEquiv(es: seq<Entry>, fs: seq<Entry>)
    decreases es, 0
  {
    forall i: nat, j: nat :: Wins(es, i) && Wins(fs, j) ==> EntryEquiv(es[i], fs[j])
  }

  ghost predicate EntryEquiv(e: Entry, f: Entry)
    decreases e, 0
  {
    e.key.text == f.key.text ==> Equiv(e.value, f.value)
  }

  lemma CanonWithout(xs: seq<Value>, i: nat)
    requires i < |xs|
    ensures CanonItems(Without(xs, i)) == Without(CanonItems(xs), i)
  {
    hide Canon, CanonItems, Without;
    WithoutAt(xs, i, 0);
    WithoutAt(CanonItems(xs), i, 0);
    forall k | 0 <= k < |xs| - 1 ensures CanonItems(Without(xs, i))[k] == Without(CanonItems(xs), i)[k] {
      WithoutAt(xs, i, k);
      WithoutAt(CanonItems(xs), i, k);
    }
  }

  /** Permuting a list permutes its canonical items. */
  lemma {:induction false} PermutedItems(xs: seq<Value>, ys: seq<Value>)
    requires multiset(xs) == multiset(ys)
    ensures multiset(CanonItems(xs)) == multiset(CanonItems(ys))
    decreases |xs|
  {
    hide Canon, CanonItems, Without;
    MultisetMembers(xs, ys);
    if xs == [] {
      assert CanonItems(xs) == [] && CanonItems(ys) == [];
    } else {
      assert xs[0] in ys;
      var j :| 0 <= j < |ys| && ys[j] == xs[0];
      WithoutMultiset(xs, 0);
      WithoutMultiset(ys, j);
      PermutedItems(Without(xs, 0), Without(ys, j));
      CanonWithout(xs, 0);
      CanonWithout(ys, j);
      WithoutMultiset(CanonItems(xs), 0);
      WithoutMultiset(CanonItems(ys), j);
    }
  }

  /** Lists with the same canonical items can be lined up. */
  lemma {:induction false} LineUp(xs: seq<Value>, ys: seq<Value>) returns (zs: seq<Value>)
    requires multiset(CanonItems(xs)) == multiset(CanonItems(ys))
    ensures multiset(zs) == multiset(ys) && CanonItems(xs) == CanonItems(zs)
    decreases |xs|
  {
    hide Canon, CanonItems, Without;
    MultisetMembers(CanonItems(xs), CanonItems(ys));
    if xs == [] {
      zs := [];
      assert ys == [] && CanonItems(xs) == CanonItems(zs);
    } else {
      assert CanonItems(xs)[0] in CanonItems(ys);
      var j :| 0 <= j < |ys| && CanonItems(ys)[j] == CanonItems(xs)[0];
      WithoutMultiset(CanonItems(xs), 0);
      WithoutMultiset(CanonItems(ys), j);
      CanonWithout(xs, 0);
      CanonWithout(ys, j);
      WithoutAt(xs, 0, 0);
      var rest := LineUp(Without(xs, 0), Without(ys, j));
      zs := [ys[j]] + rest;
      WithoutMultiset(ys, j);
      CanonHead(xs, zs);
    }
  }

  lemma CanonHead(xs: seq<Value>, zs: seq<Value>)
    requires xs != [] && zs != [] && Canon(xs[0]) == Canon(zs[0]) && CanonItems(Without(xs, 0)) == CanonItems(zs[1..])
    ensures CanonItems(xs) == CanonItems(zs)
  {
    hide Canon;
    assert Without(xs, 0) == xs[1..];
  }

  lemma PermutedAreValid(zs: seq<Value>, ys: seq<Value>)
    requires multiset(zs) == multiset(ys) && Valid(Items(ys))
    ensures Valid(Items(zs))
  {
    MultisetMembers(zs, ys);
    forall i | 0 <= i < |zs| ensures Valid(zs[i]) {
      assert zs[i] in ys;
    }
  }

  /**
   Two values have the same canonical form exactly when they are the same data up to the order of
   their lists, sets and mappings, at every depth.
   */
  lemma {:induction false} CanonDecidesEquiv(v: Value, w: Value)
    requires Valid(v) && Valid(w)
    ensures Canon(v) == Canon(w) <==> Equiv(v, w)
    decreases v, 0
  {
    match v
    case Items(xs) =>
      if w.Items? {
        ListsDecideEquiv(xs, w.items);
      }
    case Mapping(es) =>
      if w.Mapping? {
        WinnersDecideEquiv(es, w.entries);
        MappingsCanonEqual(es, w.entries);
      }
    case _ =>
  }

  lemma {:induction false} ListsDecideEquiv(xs: seq<Value>, ys: seq<Value>)
    requires Valid(Items(xs)) && Valid(Items(ys))
    ensures Canon(Items(xs)) == Canon(Items(ys)) <==> ListsEquiv(xs, ys)
    decreases xs, 2
  {
    ItemsCanonEqual(xs, ys);
    SameItemsLineUp(xs, ys);
    LinedUpSameItems(xs, ys);
  }

  lemma {:induction false} SameItemsLineUp(xs: seq<Value>, ys: seq<Value>)
    requires Valid(Items(xs)) && Valid(Items(ys))
    ensures multiset(CanonItems(xs)) == multiset(CanonItems(ys)) ==> ListsEquiv(xs, ys)
    decreases xs, 1
  {
    hide Canon, CanonItems, Valid, Equiv;
    if multiset(CanonItems(xs)) == multiset(CanonItems(ys)) {
      var zs := LineUp(xs, ys);
      PermutedAreValid(zs, ys);
      ItemsDecideEquiv(xs, zs);
    }
  }

  lemma Matching(xs: seq<Value>, ys: seq<Value>) returns (zs: seq<Value>)
    requires ListsEquiv(xs, ys)
    ensures ItemsEquiv(xs, zs) && multiset(zs) == multiset(ys)
  {
    zs :| ItemsEquiv(xs, zs) && multiset(zs) == multiset(ys);
  }

  lemma {:induction false} LinedUpSameItems(xs: seq<Value>, ys: seq<Value>)
    requires Valid(Items(xs)) && Valid(Items(ys))
    ensures ListsEquiv(xs, ys) ==> multiset(CanonItems(xs)) == multiset(CanonItems(ys))
    decreases xs, 1
  {
    hide Canon, CanonItems, Valid, Equiv, ItemsEquiv;
    if ListsEquiv(xs, ys) {
      var zs := Matching(xs, ys);
      PermutedAreValid(zs, ys);
      ItemsDecideEquiv(xs, zs);
      PermutedItems(zs, ys);
    }
  }

  lemma {:induction false} ItemsDecideEquiv(xs: seq<Value>, zs: seq<Value>)
    requires Valid(Items(xs)) && Valid(Items(zs))
    ensures ItemsEquiv(xs, zs) <==> CanonItems(xs) == CanonItems(zs)
    decreases xs, 0
  {
    if |xs| == |zs| {
      forall i | 0 <= i < |xs| ensures Equiv(xs[i], zs[i]) <==> CanonItems(xs)[i] == CanonItems(zs)[i] {
        CanonDecidesEquiv(xs[i], zs[i]);
      }
      hide Canon, CanonItems, Equiv;
      if ItemsEquiv(xs, zs) {
        assert CanonItems(xs) == CanonItems(zs);
      }
    }
  }

  lemma MappingsCanonEqual(es: seq<Entry>, fs: seq<Entry>)
    ensures Canon(Mapping(es)) == Canon(Mapping(fs)) <==> Texts(es) == Texts(fs) && WinnersCanonEqual(es, fs)
  {
    MappingReads(es);
    MappingReads(fs);
    hide Canon, Texts;
    if Canon(Mapping(es)) == Canon(Mapping(fs)) {
      assert WinnersCanonEqual(es, fs);
    }
    if Texts(es) == Texts(fs) && WinnersCanonEqual(es, fs) {
      WinnersFixMembers(es, fs);
    }
  }

  lemma WinnersFixMembers(es: seq<Entry>, fs: seq<Entry>)
    requires Texts(es) == Texts(fs) && WinnersCanonEqual(es, fs)
    ensures Canon(Mapping(es)) == Canon(Mapping(fs))
  {
    MappingReads(es);
    MappingReads(fs);
    hide Canon, Texts;
    var m, n := Canon(Mapping(es)).members, Canon(Mapping(fs)).members;
    forall t | t in m ensures m[t] == n[t] {
      var i := TextHasWinner(es, t);
      var j := TextHasWinner(fs, t);
      assert CanonAgrees(es[i], fs[j]);
    }
    assert m == n;
  }

  /** Entries with the same key text that win on either side have the same canonical value. */
  ghost predicate WinnersCanonEqual(es: seq<Entry>, fs: seq<Entry>) {
    forall i: nat, j: nat :: Wins(es, i) && Wins(fs, j) ==> CanonAgrees(es[i], fs[j])
  }

  ghost predicate CanonAgrees(e: Entry, f: Entry) {
    e.key.text == f.key.text ==> Canon(e.value) == Canon(f.value)
  }

  lemma {:induction false} WinnersDecideEquiv(es: seq<Entry>, fs: seq<Entry>)
    requires Valid(Mapping(es)) && Valid(Mapping(fs))
    ensures WinnersEquiv(es, fs) <==> WinnersCanonEqual(es, fs)
    decreases es, 0
  {
    forall i: nat, j: nat | Wins(es, i) && Wins(fs, j) ensures CanonAgrees(es[i], fs[j]) <==> EntryEquiv(es[i], fs[j]) {
      CanonDecidesEquiv(es[i].value, fs[j].value);
    }
  }

  // ----- the hashed text -----

  ghost function CanonicalText(v: Value): string {
    Dumps(Canon(v))
  }

  /** `hash` stands for the hexadecimal SHA-256 digest. */
  ghost function FingerprintOf(v: Value, hash: string -> string): string {
    "scenario_v2_" + hash(CanonicalText(v))
  }

  /** The hashed text is the same exactly for equivalent values. */
  lemma TextDecidesEquiv(v: Value, w: Value)
    requires Valid(v) && Valid(w)
    ensures CanonicalText(v) == CanonicalText(w) <==> Equiv(v, w)
  {
    CanonIsValid(v);
    CanonIsValid(w);
    DumpsInjective(Canon(v), Canon(w));
    CanonDecidesEquiv(v, w);
  }

  /** Equivalent inputs always share a fingerprint; others share one only by a hash collision. */
  lemma FingerprintDecidesEquiv(v: Value, w: Value, hash: string -> string)
    requires Valid(v) && Valid(w)
    ensures Equiv(v, w) ==> FingerprintOf(v, hash) == FingerprintOf(w, hash)
    ensures FingerprintOf(v, hash) == FingerprintOf(w, hash) ==>
              Equiv(v, w) || (CanonicalText(v) != CanonicalText(w) && hash(CanonicalText(v)) == hash(CanonicalText(w)))
  {
    TextDecidesEquiv(v, w);
    var prefix, a, b := "scenario_v2_", hash(CanonicalText(v)), hash(CanonicalText(w));
    assert (prefix + a)[|prefix|..] == a && (prefix + b)[|prefix|..] == b;
  }
}
