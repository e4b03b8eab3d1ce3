/**
 Order independence of the fingerprint: exactly which inputs it holds for, that canonicalizing is
 idempotent, and which inputs of a scenario the hashed text tells apart.
 */
module FingerprintOrder {
  import opened Ordering
  import opened Sequences
  import opened JsonText
  import opened Fingerprint

  // ----- reordering at every depth -----

  /** `w` is `v` with its lists, sets and mappings reordered, at any depth. */
  ghost predicate Shuffled(v: Value, w: Value)
    decreases v, 2
  {
    match v
    case Items(xs) => w.Items? && ItemsReordered(xs, w.items)
    case Mapping(es) => w.Mapping? && EntriesReordered(es, w.entries)
    case _ => v == w
  }

  ghost predicate ItemsReordered(xs: seq<Value>, ys: seq<Value>)
    decreases xs, 1
  {
    exists zs :: ItemsShuffled(xs, zs) && multiset(zs) == multiset(ys)
  }

  ghost predicate ItemsShuffled(xs: seq<Value>, zs: seq<Value>)
    decreases xs, 0
  {
    |xs| == |zs| && forall i :: 0 <= i < |xs| ==> Shuffled(xs[i], zs[i])
  }

  ghost predicate EntriesReordered(es: seq<Entry>, fs: seq<Entry>)
    decreases es, 1
  {
    exists gs :: EntriesShuffled(es, gs) && multiset(gs) == multiset(fs)
  }

  ghost predicate EntriesShuffled(es: seq<Entry>, gs: seq<Entry>)
    decreases es, 0
  {
    |es| == |gs| && forall i :: 0 <= i < |es| ==> EntryShuffled(es[i], gs[i])
  }

  ghost predicate EntryShuffled(e: Entry, f: Entry)
    decreases e, 0
  {
    e.key == f.key && Shuffled(e.value, f.value)
  }

  lemma MatchItems(xs: seq<Value>, ys: seq<Value>) returns (zs: seq<Value>)
    requires ItemsReordered(xs, ys)
    ensures ItemsShuffled(xs, zs) && multiset(zs) == multiset(ys)
  {
    zs :| ItemsShuffled(xs, zs) && multiset(zs) == multiset(ys);
  }

  lemma MatchEntries(es: seq<Entry>, fs: seq<Entry>) returns (gs: seq<Entry>)
    requires EntriesReordered(es, fs)
    ensures EntriesShuffled(es, gs) && multiset(gs) == multiset(fs)
  {
    gs :| EntriesShuffled(es, gs) && multiset(gs) == multiset(fs);
  }

  /** No mapping, at any depth, has two keys with the same text and values that differ. */
  ghost predicate NoClash(v: Value) {
    match v
    case Items(xs) => forall i :: 0 <= i < |xs| ==> NoClash(xs[i])
    case Mapping(es) => (forall i :: 0 <= i < |es| ==> NoClash(es[i].value)) && KeysAgree(es)
    case _ => true
  }

  ghost predicate KeysAgree(es: seq<Entry>) {
    forall i, j :: 0 <= i < |es| && 0 <= j < |es| ==> EntryEquiv(es[i], es[j])
  }

  // ----- without a clash, order does not matter -----

  lemma {:induction false} ShuffleKeepsCanon(v: Value, w: Value)
    requires Valid(v) && NoClash(v) && Shuffled(v, w)
    ensures Canon(v) == Canon(w)
    decreases v, 0
  {
    match v
    case Items(xs) => ReorderedItemsKeepCanon(xs, w.items);
    case Mapping(es) => ReorderedEntriesKeepCanon(es, w.entries);
    case _ =>
  }

  lemma {:induction false} ReorderedItemsKeepCanon(xs: seq<Value>, ys: seq<Value>)
    requires Valid(Items(xs)) && NoClash(Items(xs)) && ItemsReordered(xs, ys)
    ensures Canon(Items(xs)) == Canon(Items(ys))
    decreases xs, 0
  {
    var zs := MatchItems(xs, ys);
    forall i | 0 <= i < |xs| ensures CanonItems(xs)[i] == CanonItems(zs)[i] {
      ShuffleKeepsCanon(xs[i], zs[i]);
    }
    hide Canon, CanonItems;
    assert CanonItems(xs) == CanonItems(zs);
    PermutedItems(zs, ys);
    ItemsCanonEqual(xs, ys);
  }

  lemma {:induction false} ReorderedEntriesKeepCanon(es: seq<Entry>, fs: seq<Entry>)
    requires Valid(Mapping(es)) && NoClash(Mapping(es)) && EntriesReordered(es, fs)
    ensures Canon(Mapping(es)) == Canon(Mapping(fs))
    decreases es, 0
  {
    var gs := MatchEntries(es, fs);
    forall i | 0 <= i < |es| ensures CanonEntry(es[i]) == CanonEntry(gs[i]) {
      EntryKeepsCanon(es[i], gs[i]);
    }
    forall i, j | 0 <= i < |es| && 0 <= j < |es| ensures CanonAgrees(es[i], es[j]) {
      CanonDecidesEquiv(es[i].value, es[j].value);
    }
    hide Canon, Valid, NoClash, EntriesShuffled;
    AgreeingEntries(es, gs, fs);
    WinnersFixMembers(es, fs);
  }

  lemma {:induction false} EntryKeepsCanon(e: Entry, f: Entry)
    requires Valid(e.value) && NoClash(e.value) && EntryShuffled(e, f)
    ensures CanonEntry(e) == CanonEntry(f)
    decreases e, 0
  {
    ShuffleKeepsCanon(e.value, f.value);
  }

  /** If equal key texts always carry the same canonical value, the winners do not depend on the order. */
  lemma AgreeingEntries(es: seq<Entry>, gs: seq<Entry>, fs: seq<Entry>)
    requires |es| == |gs| && multiset(gs) == multiset(fs)
    requires forall i :: 0 <= i < |es| ==> CanonEntry(es[i]) == CanonEntry(gs[i])
    requires forall i, j :: 0 <= i < |es| && 0 <= j < |es| ==> CanonAgrees(es[i], es[j])
    ensures Texts(es) == Texts(fs) && WinnersCanonEqual(es, fs)
  {
    hide Canon;
    MultisetMembers(gs, fs);
    assert Texts(es) == Texts(gs) by {
      forall i | 0 <= i < |es| ensures es[i].key.text == gs[i].key.text {
        assert CanonEntry(es[i]) == CanonEntry(gs[i]);
      }
    }
    assert Texts(gs) == Texts(fs);
    forall i: nat, j: nat | Wins(es, i) && Wins(fs, j) ensures CanonAgrees(es[i], fs[j]) {
      assert fs[j] in gs;
      var k :| 0 <= k < |gs| && gs[k] == fs[j];
      assert CanonEntry(es[k]) == CanonEntry(gs[k]);
      assert CanonAgrees(es[i], es[k]);
    }
  }

  // ----- with a clash, it does -----

  lemma ItemsReorderedBy(xs: seq<Value>, zs: seq<Value>, ys: seq<Value>)
    requires ItemsShuffled(xs, zs) && multiset(zs) == multiset(ys)
    ensures ItemsReordered(xs, ys)
  {
  }

  lemma {:induction false} ShuffledReflexive(v: Value)
    ensures Shuffled(v, v)
    decreases v, 0
  {
    match v
    case Items(xs) =>
      forall i | 0 <= i < |xs| ensures Shuffled(xs[i], xs[i]) {
        ShuffledReflexive(xs[i]);
      }
      ItemsReorderedBy(xs, xs, xs);
    case Mapping(es) => EntriesShuffledReflexive(es);
    case _ =>
  }

  lemma {:induction false} EntriesShuffledReflexive(es: seq<Entry>)
    ensures EntriesShuffled(es, es)
    ensures EntriesReordered(es, es)
    decreases es, 0
  {
    forall i | 0 <= i < |es| ensures EntryShuffled(es[i], es[i]) {
      EntryShuffledReflexive(es[i]);
    }
    EntriesReorderedBy(es, es, es);
  }

  lemma {:induction false} EntryShuffledReflexive(e: Entry)
    ensures EntryShuffled(e, e)
    decreases e, 0
  {
    ShuffledReflexive(e.value);
  }

  lemma EntriesReorderedBy(es: seq<Entry>, gs: seq<Entry>, fs: seq<Entry>)
    requires EntriesShuffled(es, gs) && multiset(gs) == multiset(fs)
    ensures EntriesReordered(es, fs)
  {
  }

  /** Entry `i` moved to the end, where it wins. */
  function MoveLast(es: seq<Entry>, i: nat): seq<Entry>
    requires i < |es|
  {
    Without(es, i) + [es[i]]
  }

  lemma MoveLastReads(es: seq<Entry>, i: nat)
    requires i < |es|
    ensures multiset(MoveLast(es, i)) == multiset(es)
    ensures Canon(Mapping(MoveLast(es, i))).JObject?
    ensures es[i].key.text in Canon(Mapping(MoveLast(es, i))).members
    ensures Canon(Mapping(MoveLast(es, i))).members[es[i].key.text] == Canon(es[i].value)
  {
    var ms := MoveLast(es, i);
    WithoutMultiset(es, i);
    assert multiset(ms) == multiset(Without(es, i)) + multiset{es[i]};
    assert Wins(ms, |ms| - 1) && ms[|ms| - 1] == es[i];
    MappingReads(ms);
  }

  /** One item replaced by one with another canonical form changes the list's canonical form. */
  lemma ReplacedItemShows(xs: seq<Value>, i: nat, x: Value)
    requires i < |xs| && Valid(Items(xs)) && Canon(x) != Canon(xs[i])
    ensures Canon(Items(xs)) != Canon(Items(xs[i := x]))
  {
    hide Canon, CanonItems, Without, Valid;
    var zs := xs[i := x];
    ItemsCanonEqual(xs, zs);
    CanonWithout(xs, i);
    CanonWithout(zs, i);
    assert Without(xs, i) == Without(zs, i) by { WithoutSame(xs, i, x); }
    WithoutMultiset(CanonItems(xs), i);
    WithoutMultiset(CanonItems(zs), i);
    var c := CanonItems(xs)[i];
    assert multiset(CanonItems(xs))[c] == 1 + multiset(Without(CanonItems(xs), i))[c];
    assert multiset(CanonItems(zs))[c] == multiset(Without(CanonItems(xs), i))[c];
  }

  lemma WithoutSame<T>(xs: seq<T>, i: nat, x: T)
    requires i < |xs|
    ensures Without(xs, i) == Without(xs[i := x], i)
  {
  }

  /** A clash anywhere can be brought to light by some reordering. */
  lemma {:induction false} ClashShows(v: Value) returns (w: Value)
    requires Valid(v) && !NoClash(v)
    ensures Shuffled(v, w) && Canon(w) != Canon(v)
    decreases v, 0
  {
    match v
    case Items(xs) =>
      var i :| 0 <= i < |xs| && !NoClash(xs[i]);
      var x := ClashShows(xs[i]);
      var zs := xs[i := x];
      forall k | 0 <= k < |xs| ensures Shuffled(xs[k], zs[k]) {
        ShuffledReflexive(xs[k]);
      }
      ItemsReorderedBy(xs, zs, zs);
      ReplacedItemShows(xs, i, x);
      w := Items(zs);
    case Mapping(es) =>
      if KeysAgree(es) {
        w := InnerClashShows(es);
      } else {
        w := OuterClashShows(es);
      }
  }

  lemma {:induction false} InnerClashShows(es: seq<Entry>) returns (w: Value)
    requires Valid(Mapping(es)) && exists i :: 0 <= i < |es| && !NoClash(es[i].value)
    ensures Shuffled(Mapping(es), w) && Canon(w) != Canon(Mapping(es))
    decreases es, 0
  {
    var i :| 0 <= i < |es| && !NoClash(es[i].value);
    var x := ClashShows(es[i].value);
    var gs := es[i := Entry(es[i].key, x)];
    EntriesShuffledReflexive(es);
    assert EntriesShuffled(es, gs);
    MoveLastReads(es, i);
    MoveLastReads(gs, i);
    hide Canon, Valid, NoClash, EntriesShuffled;
    w := OneDiffers(es, es, MoveLast(es, i), gs, MoveLast(gs, i), es[i].key.text);
  }

  lemma {:induction false} OuterClashShows(es: seq<Entry>) returns (w: Value)
    requires Valid(Mapping(es)) && !KeysAgree(es)
    ensures Shuffled(Mapping(es), w) && Canon(w) != Canon(Mapping(es))
  {
    var i, j :| 0 <= i < |es| && 0 <= j < |es| && !EntryEquiv(es[i], es[j]);
    CanonDecidesEquiv(es[i].value, es[j].value);
    EntriesShuffledReflexive(es);
    MoveLastReads(es, i);
    MoveLastReads(es, j);
    hide Canon, Valid, EntriesShuffled;
    w := OneDiffers(es, es, MoveLast(es, i), es, MoveLast(es, j), es[i].key.text);
  }

  /** Of two reorderings that disagree on a key text, one disagrees with the original. */
  lemma OneDiffers(es: seq<Entry>, gs: seq<Entry>, a: seq<Entry>, hs: seq<Entry>, b: seq<Entry>, t: string)
    returns (w: Value)
    requires EntriesShuffled(es, gs) && multiset(gs) == multiset(a)
    requires EntriesShuffled(es, hs) && multiset(hs) == multiset(b)
    requires Canon(Mapping(a)).JObject? && t in Canon(Mapping(a)).members
    requires Canon(Mapping(b)).JObject? && t in Canon(Mapping(b)).members
    requires Canon(Mapping(a)).members[t] != Canon(Mapping(b)).members[t]
    ensures Shuffled(Mapping(es), w) && Canon(w) != Canon(Mapping(es))
  {
    hide Canon;
    w := if Canon(Mapping(a)) != Canon(Mapping(es)) then Mapping(a) else Mapping(b);
    EntriesReorderedBy(es, gs, a);
    EntriesReorderedBy(es, hs, b);
  }

  lemma {:induction false} ShuffledIsValid(v: Value, w: Value)
    requires Valid(v) && Shuffled(v, w)
    ensures Valid(w)
    decreases v, 0
  {
    match v
    case Items(xs) =>
      var zs := MatchItems(xs, w.items);
      MultisetMembers(zs, w.items);
      forall j | 0 <= j < |w.items| ensures Valid(w.items[j]) {
        assert w.items[j] in zs;
        var i :| 0 <= i < |zs| && zs[i] == w.items[j];
        ShuffledIsValid(xs[i], zs[i]);
      }
    case Mapping(es) =>
      var gs := MatchEntries(es, w.entries);
      MultisetMembers(gs, w.entries);
      forall j | 0 <= j < |w.entries| ensures Valid(w.entries[j].value) {
        assert w.entries[j] in gs;
        var i :| 0 <= i < |gs| && gs[i] == w.entries[j];
        assert EntryShuffled(es[i], gs[i]);
        ShuffledIsValid(es[i].value, gs[i].value);
      }
    case _ =>
  }

  /** The hashed text ignores the order of everything inside `v`. */
  ghost predicate OrderIgnored(v: Value) {
    forall w :: Shuffled(v, w) ==> CanonicalText(w) == CanonicalText(v)
  }

  /**
   The fingerprint is independent of order for exactly the values in which no mapping has two keys
   with the same text and different values.
   */
  lemma OrderIgnoredIffNoClash(v: Value)
    requires Valid(v)
    ensures OrderIgnored(v) <==> NoClash(v)
  {
    if NoClash(v) {
      forall w | Shuffled(v, w) ensures CanonicalText(w) == CanonicalText(v) {
        ShuffleKeepsCanon(v, w);
      }
    } else {
      var w := ClashShows(v);
      ShuffledIsValid(v, w);
      CanonIsValid(v);
      CanonIsValid(w);
      DumpsInjective(Canon(v), Canon(w));
      assert CanonicalText(w) != CanonicalText(v);
    }
  }

  /** Two entries with the same key text and different values: either order loses the first. */
  lemma PairClashes(a: Entry, b: Entry)
    requires a.key.text == b.key.text && Canon(a.value) != Canon(b.value)
    ensures Shuffled(Mapping([a, b]), Mapping([b, a])) && Canon(Mapping([a, b])) != Canon(Mapping([b, a]))
  {
    EntriesShuffledReflexive([a, b]);
    assert multiset([a, b]) == multiset([b, a]);
    EntriesReorderedBy([a, b], [a, b], [b, a]);
    MappingReads([a, b]);
    MappingReads([b, a]);
    hide Canon, Texts;
    assert Wins([a, b], 1) && Wins([b, a], 1);
  }

  /** The integer key 1 and the text key "1" clash: the later one silently wins. */
  lemma ClashExample()
    ensures var a, b := Entry(Key("int", "1"), Text("a")), Entry(Key("str", "1"), Text("b"));
            Shuffled(Mapping([a, b]), Mapping([b, a])) && Canon(Mapping([a, b])) != Canon(Mapping([b, a]))
  {
    var a, b := Entry(Key("int", "1"), Text("a")), Entry(Key("str", "1"), Text("b"));
    assert "a"[0] != "b"[0];
    assert Canon(a.value) == JText("a") && Canon(b.value) == JText("b");
    hide Canon, Shuffled;
    PairClashes(a, b);
  }

  // ----- idempotence -----

  /** A canonical value as input again: its dictionaries iterate in key order. */
  ghost function Lift(j: Json): Value
    decreases j, 2
  {
    match j
    case JNull => Null
    case JBool(b) => Truth(b)
    case JNumber(s) => Number(s)
    case JText(s) => Text(s)
    case JList(items) => Items(LiftItems(items))
    case JObject(m) =>
      SortedKeysMembers(m.Keys);
      Mapping(LiftMembers(j, SortedKeys(m.Keys)))
  }

  ghost function LiftItems(items: seq<Json>): (r: seq<Value>)
    ensures |r| == |items|
    ensures forall i :: 0 <= i < |items| ==> r[i] == Lift(items[i])
    decreases items, 0
  {
    if items == [] then [] else [Lift(items[0])] + LiftItems(items[1..])
  }

  ghost function LiftMembers(j: Json, keys: seq<string>): (r: seq<Entry>)
    requires j.JObject? && forall k :: k in keys ==> k in j.members
    ensures |r| == |keys|
    ensures forall i :: 0 <= i < |keys| ==> r[i] == Entry(Key("str", keys[i]), Lift(j.members[keys[i]]))
    decreases j, 1, |keys|
  {
    if keys == [] then []
    else [Entry(Key("str", keys[0]), Lift(j.members[keys[0]]))] + LiftMembers(j, keys[1..])
  }

  /** Every list inside is already in order. */
  ghost predicate InOrder(j: Json) {
    match j
    case JList(items) => Sorted(items, JsonLe) && forall i :: 0 <= i < |items| ==> InOrder(items[i])
    case JObject(m) => forall k :: k in m ==> InOrder(m[k])
    case _ => true
  }

  lemma {:induction false} CanonIsInOrder(v: Value)
    ensures InOrder(Canon(v))
    decreases v, 0
  {
    match v
    case Items(xs) =>
      forall k | 0 <= k < |xs| ensures InOrder(CanonItems(xs)[k]) {
        CanonIsInOrder(xs[k]);
      }
      SortIsInOrder(CanonItems(xs));
    case Mapping(es) =>
      MappingReads(es);
      forall t | t in Canon(v).members ensures InOrder(Canon(v).members[t]) {
        var i := TextHasWinner(es, t);
        CanonIsInOrder(es[i].value);
      }
    case _ =>
  }

  lemma SortIsInOrder(js: seq<Json>)
    requires forall k :: 0 <= k < |js| ==> InOrder(js[k])
    ensures InOrder(JList(Sort(js, JsonLe)))
  {
    var r := Sort(js, JsonLe);
    SortMultiset(js, JsonLe);
    MultisetMembers(js, r);
    JsonLeIsTotal();
    SortSorted(js, JsonLe);
    hide Sort, JsonLe;
    forall i | 0 <= i < |r| ensures InOrder(r[i]) {
      assert r[i] in js;
    }
  }

  lemma {:induction false} CanonOfLift(j: Json)
    requires InOrder(j)
    ensures Canon(Lift(j)) == j
    decreases j, 0
  {
    match j
    case JList(items) =>
      forall i | 0 <= i < |items| ensures Canon(Lift(items[i])) == items[i] {
        CanonOfLift(items[i]);
      }
      LiftedListReadsBack(items);
    case JObject(m) =>
      forall k | k in m ensures Canon(Lift(m[k])) == m[k] {
        CanonOfLift(m[k]);
      }
      LiftedObjectReadsBack(j);
    case _ =>
  }

  lemma LiftedListReadsBack(items: seq<Json>)
    requires Sorted(items, JsonLe)
    requires forall i :: 0 <= i < |items| ==> Canon(Lift(items[i])) == items[i]
    ensures Canon(Items(LiftItems(items))) == JList(items)
  {
    hide Lift, LiftItems, JsonLe, Sort, CanonItems;
    assert CanonItems(LiftItems(items)) == items;
    JsonLeIsTotal();
    SortOfSorted(items, JsonLe);
  }

  lemma LiftedObjectReadsBack(j: Json)
    requires j.JObject? && forall k :: k in j.members ==> Canon(Lift(j.members[k])) == j.members[k]
    ensures Canon(Lift(j)) == j
  {
    var keys := SortedKeys(j.members.Keys);
    SortedKeysMembers(j.members.Keys);
    var es := LiftMembers(j, keys);
    assert Lift(j) == Mapping(es);
    hide Lift, LiftMembers, Canon, SortedKeys;
    assert Spells(es, keys, j);
    SpelledReadsBack(es, keys, j);
  }

  /** Entries under the keys of `j`, each with a value whose canonical form is the member of `j`. */
  ghost predicate Spells(es: seq<Entry>, keys: seq<string>, j: Json)
    requires j.JObject?
  {
    && |es| == |keys|
    && (forall k :: k in keys <==> k in j.members)
    && forall i :: 0 <= i < |keys| ==> keys[i] in j.members && CanonEntry(es[i]) == (keys[i], j.members[keys[i]])
  }

  lemma SpelledTexts(es: seq<Entry>, keys: seq<string>, j: Json)
    requires j.JObject? && Spells(es, keys, j)
    ensures Texts(es) == j.members.Keys
  {
    hide Canon;
    forall t ensures t in Texts(es) <==> t in j.members {
      if t in j.members {
        var i :| 0 <= i < |keys| && keys[i] == t;
        assert CanonEntry(es[i]).0 == t && es[i] in es;
      }
      if t in Texts(es) {
        var i :| 0 <= i < |es| && es[i].key.text == t;
        assert CanonEntry(es[i]).0 == t;
      }
    }
  }

  lemma SpelledReadsBack(es: seq<Entry>, keys: seq<string>, j: Json)
    requires j.JObject? && Spells(es, keys, j)
    ensures Canon(Mapping(es)) == j
  {
    SpelledTexts(es, keys, j);
    MappingReads(es);
    hide Canon, Texts;
    var n := Canon(Mapping(es)).members;
    forall t | t in j.members ensures n[t] == j.members[t] {
      var i := TextHasWinner(es, t);
      assert CanonEntry(es[i]) == (keys[i], j.members[keys[i]]);
    }
    assert n == j.members;
  }

  /** Canonicalizing a canonical value changes nothing. */
  lemma CanonIsIdempotent(v: Value)
    ensures Canon(Lift(Canon(v))) == Canon(v)
  {
    CanonIsInOrder(v);
    CanonOfLift(Canon(v));
  }
}
