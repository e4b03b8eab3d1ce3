/**
 The payload hashed by `scenario_input_fingerprint`, and which scenario inputs its text tells apart.
 */
module ScenarioInputs {
  import opened Sequences
  import opened JsonText
  import opened Fingerprint

  /** Optional numbers, tier mappings and models appear as the values they are written as. */
  datatype Params = Params(
    serviceLevelTarget: Value,
    serviceLevelByTier: Value,
    budgetCap: Value,
    leadTimeDelta: Value,
    repairTatDelta: Value,
    scope: string,
    scopeValue: Value)

  datatype Inputs = Inputs(
    tenantId: string,
    manifest: Value,
    keyUniverse: seq<(string, string)>,
    procurement: seq<Value>,
    repair: seq<Value>,
    policy: Value,
    params: Params)

  ghost predicate ValidParams(p: Params) {
    && Valid(p.serviceLevelTarget) && Valid(p.serviceLevelByTier) && Valid(p.budgetCap)
    && Valid(p.leadTimeDelta) && Valid(p.repairTatDelta) && Valid(p.scopeValue)
  }

  ghost predicate ValidInputs(inp: Inputs) {
    && Valid(inp.manifest) && Valid(Items(inp.procurement)) && Valid(Items(inp.repair)) && Valid(inp.policy)
    && ValidParams(inp.params)
  }

  // ----- the payload -----

  /** A `(pn, location)` tuple. */
  function PairValue(p: (string, string)): Value {
    Items([Text(p.0), Text(p.1)])
  }

  function PairValues(ps: seq<(string, string)>): (r: seq<Value>)
    ensures |r| == |ps|
    ensures forall i :: 0 <= i < |ps| ==> r[i] == PairValue(ps[i])
  {
    if ps == [] then [] else [PairValue(ps[0])] + PairValues(ps[1..])
  }

  function Field(name: string, v: Value): Entry {
    Entry(Key("str", name), v)
  }

  const MODEL_VERSIONS := Mapping([
    Field("scenario_solver", Text("bff-rq-scenario.v2")), Field("repair_return", Text("repair-return.v1"))])

  const REPAIR_SETTINGS := Mapping([
    Field("horizon_days", Number("90")), Field("serviceable_yield_assumption", Number("1.0")),
    Field("completed_cycle_days", Items([]))])

  function ParamNames(): (r: seq<string>)
    ensures |r| == 7
  {
    ["service_level_target", "service_level_by_tier", "budget_cap", "procurement_lead_time_delta_pct",
     "repair_tat_delta_pct", "scope", "scope_value"]
  }

  function ParamValues(p: Params): (r: seq<Value>)
    ensures |r| == 7
  {
    [p.serviceLevelTarget, p.serviceLevelByTier, p.budgetCap, p.leadTimeDelta, p.repairTatDelta, Text(p.scope),
     p.scopeValue]
  }

  function InputNames(): (r: seq<string>)
    ensures |r| == 10
  {
    ["contract_version", "tenant_id", "source_manifest", "key_universe", "procurement_inputs",
     "repair_inputs", "tenant_policy", "model_versions", "repair_settings", "params"]
  }

  function InputValues(inp: Inputs): (r: seq<Value>)
    ensures |r| == 10
  {
    [Text("scenario-solve.v2"), Text(inp.tenantId), inp.manifest, Items(PairValues(inp.keyUniverse)),
     Items(inp.procurement), Items(inp.repair), inp.policy, MODEL_VERSIONS, REPAIR_SETTINGS, ParamsValue(inp.params)]
  }

  /** A dictionary literal. */
  function Record(names: seq<string>, values: seq<Value>): (r: seq<Entry>)
    requires |names| == |values|
    ensures |r| == |names|
    ensures forall i :: 0 <= i < |names| ==> r[i] == Field(names[i], values[i])
  {
    if names == [] then [] else [Field(names[0], values[0])] + Record(names[1..], values[1..])
  }

  function ParamsValue(p: Params): Value {
    Mapping(Record(ParamNames(), ParamValues(p)))
  }

  function Payload(inp: Inputs): Value {
    Mapping(Record(InputNames(), InputValues(inp)))
  }

  // ----- records agree field by field -----

  predicate Distinct(names: seq<string>) {
    forall i, j :: 0 <= i < j < |names| ==> names[i] != names[j]
  }

  lemma RecordTexts(names: seq<string>, vs: seq<Value>, ws: seq<Value>)
    requires |vs| == |names| && |ws| == |names|
    ensures Texts(Record(names, vs)) == Texts(Record(names, ws))
  {
    var es, fs := Record(names, vs), Record(names, ws);
    forall t ensures t in Texts(es) <==> t in Texts(fs) {
      if t in Texts(es) {
        var i :| 0 <= i < |es| && es[i].key.text == t;
        assert fs[i] in fs && fs[i].key.text == t;
      }
      if t in Texts(fs) {
        var i :| 0 <= i < |fs| && fs[i].key.text == t;
        assert es[i] in es && es[i].key.text == t;
      }
    }
  }

  lemma RecordWinners(names: seq<string>, vs: seq<Value>, i: nat)
    requires |vs| == |names| && Distinct(names) && i < |names|
    ensures Wins(Record(names, vs), i)
  {
  }

  ghost predicate AllEquiv(vs: seq<Value>, ws: seq<Value>)
    requires |vs| == |ws|
  {
    forall i :: 0 <= i < |vs| ==> Equiv(vs[i], ws[i])
  }

  /** Two dictionaries with the same distinct keys are equivalent exactly when every field is. */
  lemma RecordsAgreeByField(names: seq<string>, vs: seq<Value>, ws: seq<Value>)
    requires |vs| == |names| && |ws| == |names| && Distinct(names)
    ensures Equiv(Mapping(Record(names, vs)), Mapping(Record(names, ws))) <==> AllEquiv(vs, ws)
  {
    var es, fs := Record(names, vs), Record(names, ws);
    RecordTexts(names, vs, ws);
    assert Equiv(Mapping(es), Mapping(fs)) <==> WinnersEquiv(es, fs);
    hide Equiv, Texts, Record;
    if WinnersEquiv(es, fs) {
      forall i | 0 <= i < |names| ensures Equiv(vs[i], ws[i]) {
        RecordWinners(names, vs, i);
        RecordWinners(names, ws, i);
        assert EntryEquiv(es[i], fs[i]);
      }
    }
    if AllEquiv(vs, ws) {
      forall i: nat, j: nat | Wins(es, i) && Wins(fs, j) ensures EntryEquiv(es[i], fs[j]) {
        assert i != j ==> es[i].key.text != fs[j].key.text;
      }
    }
  }

  // ----- the key universe -----

  /** A pair without its order. */
  function Unordered(p: (string, string)): multiset<string> {
    multiset{p.0, p.1}
  }

  ghost function PairCanon(p: (string, string)): Json {
    Canon(PairValue(p))
  }

  lemma PairItems(p: (string, string))
    ensures CanonItems([Text(p.0), Text(p.1)]) == [JText(p.0), JText(p.1)]
  {
    var xs := [Text(p.0), Text(p.1)];
    assert CanonItems(xs)[0] == Canon(xs[0]) && CanonItems(xs)[1] == Canon(xs[1]);
  }

  lemma PairIsValid(p: (string, string))
    ensures Valid(PairValue(p))
  {
  }

  lemma PairCanonByTexts(p: (string, string), q: (string, string))
    ensures PairCanon(p) == PairCanon(q) <==> multiset([JText(p.0), JText(p.1)]) == multiset([JText(q.0), JText(q.1)])
  {
    PairIsValid(p);
    PairItems(p);
    PairItems(q);
    hide Canon, CanonItems, Valid;
    ItemsCanonEqual([Text(p.0), Text(p.1)], [Text(q.0), Text(q.1)]);
  }

  lemma PairCanonEqual(p: (string, string), q: (string, string))
    ensures PairCanon(p) == PairCanon(q) <==> Unordered(p) == Unordered(q)
  {
    PairCanonByTexts(p, q);
    hide PairCanon;
    PairMultisets(JText(p.0), JText(p.1), JText(q.0), JText(q.1));
    PairMultisets(p.0, p.1, q.0, q.1);
    assert multiset([p.0, p.1]) == Unordered(p) && multiset([q.0, q.1]) == Unordered(q);
  }

  lemma PairMultisets<T>(a: T, b: T, c: T, d: T)
    ensures multiset([a, b]) == multiset([c, d]) <==> (a == c && b == d) || (a == d && b == c)
  {
    if multiset([a, b]) == multiset([c, d]) {
      assert a in multiset([c, d]);
      assert multiset([c, d])[a] == multiset([a, b])[a];
      assert b in multiset([c, d]) && c in multiset([a, b]) && d in multiset([a, b]);
    }
  }

  /** The same pairs, each as often, when `("A", "B")` and `("B", "A")` are not told apart. */
  ghost predicate SameKeys(ps: seq<(string, string)>, qs: seq<(string, string)>) {
    multiset(Map(Unordered, ps)) == multiset(Map(Unordered, qs))
  }

  lemma PairValuesAreValid(ps: seq<(string, string)>)
    ensures Valid(Items(PairValues(ps)))
  {
    forall i | 0 <= i < |ps| ensures Valid(PairValues(ps)[i]) {
      assert PairValues(ps)[i] == PairValue(ps[i]);
      assert Valid(Text(ps[i].0)) && Valid(Text(ps[i].1));
    }
  }

  lemma UniverseItems(ps: seq<(string, string)>)
    ensures CanonItems(PairValues(ps)) == Map(PairCanon, ps)
  {
    hide Canon, CanonItems, Map, PairValues;
    var a, b := CanonItems(PairValues(ps)), Map(PairCanon, ps);
    forall i | 0 <= i < |ps| ensures a[i] == b[i] {
      assert a[i] == Canon(PairValues(ps)[i]);
      assert b[i] == PairCanon(ps[i]);
    }
  }

  lemma UniverseDecides(ps: seq<(string, string)>, qs: seq<(string, string)>)
    ensures Equiv(Items(PairValues(ps)), Items(PairValues(qs))) <==> SameKeys(ps, qs)
  {
    PairValuesAreValid(ps);
    PairValuesAreValid(qs);
    hide Canon, CanonItems, Equiv, PairValues, PairCanon, Unordered, Map, Valid;
    forall p, q: (string, string) ensures PairCanon(p) == PairCanon(q) <==> Unordered(p) == Unordered(q) {
      PairCanonEqual(p, q);
    }
    CanonDecidesEquiv(Items(PairValues(ps)), Items(PairValues(qs)));
    ItemsCanonEqual(PairValues(ps), PairValues(qs));
    UniverseItems(ps);
    UniverseItems(qs);
    if multiset(Map(PairCanon, ps)) == multiset(Map(PairCanon, qs)) {
      CoarserImages(PairCanon, Unordered, ps, qs);
    }
    if SameKeys(ps, qs) {
      CoarserImages(Unordered, PairCanon, ps, qs);
    }
  }

  // ----- what is hashed, field by field -----

  ghost predicate Holds(j: Json, name: string, v: Value) {
    j.JObject? && name in j.members && j.members[name] == Canon(v)
  }

  lemma RecordHolds(names: seq<string>, vs: seq<Value>, i: nat)
    requires |vs| == |names| && Distinct(names) && i < |names|
    ensures Holds(Canon(Mapping(Record(names, vs))), names[i], vs[i])
  {
    RecordWinners(names, vs, i);
    MappingReads(Record(names, vs));
    assert Record(names, vs)[i] == Field(names[i], vs[i]);
  }

  /** Every input stands under its own name in the payload. */
  lemma PayloadHolds(inp: Inputs)
    ensures var j := Canon(Payload(inp));
            && Holds(j, "contract_version", Text("scenario-solve.v2"))
            && Holds(j, "tenant_id", Text(inp.tenantId))
            && Holds(j, "source_manifest", inp.manifest)
            && Holds(j, "key_universe", Items(PairValues(inp.keyUniverse)))
            && Holds(j, "procurement_inputs", Items(inp.procurement))
            && Holds(j, "repair_inputs", Items(inp.repair))
            && Holds(j, "tenant_policy", inp.policy)
            && Holds(j, "params", ParamsValue(inp.params))
            && Holds(j, "model_versions", Mapping([
                 Field("scenario_solver", Text("bff-rq-scenario.v2")),
                 Field("repair_return", Text("repair-return.v1"))]))
            && Holds(j, "repair_settings", Mapping([
                 Field("horizon_days", Number("90")), Field("serviceable_yield_assumption", Number("1.0")),
                 Field("completed_cycle_days", Items([]))]))
  {
    hide Canon, Record, Holds;
    NamesAreDistinct();
    forall i | 0 <= i < 10 ensures Holds(Canon(Payload(inp)), InputNames()[i], InputValues(inp)[i]) {
      RecordHolds(InputNames(), InputValues(inp), i);
    }
    var n, v := InputNames(), InputValues(inp);
    assert n[0] == "contract_version" && n[1] == "tenant_id" && n[2] == "source_manifest";
    assert n[3] == "key_universe" && n[4] == "procurement_inputs" && n[5] == "repair_inputs";
    assert n[6] == "tenant_policy" && n[7] == "model_versions" && n[8] == "repair_settings" && n[9] == "params";
  }

  lemma ParamsHold(p: Params)
    ensures var j := Canon(ParamsValue(p));
            && Holds(j, "service_level_target", p.serviceLevelTarget)
            && Holds(j, "service_level_by_tier", p.serviceLevelByTier)
            && Holds(j, "budget_cap", p.budgetCap)
            && Holds(j, "procurement_lead_time_delta_pct", p.leadTimeDelta)
            && Holds(j, "repair_tat_delta_pct", p.repairTatDelta)
            && Holds(j, "scope", Text(p.scope))
            && Holds(j, "scope_value", p.scopeValue)
  {
    hide Canon, Record, Holds;
    NamesAreDistinct();
    forall i | 0 <= i < 7 ensures Holds(Canon(ParamsValue(p)), ParamNames()[i], ParamValues(p)[i]) {
      RecordHolds(ParamNames(), ParamValues(p), i);
    }
    var n, v := ParamNames(), ParamValues(p);
    assert n[0] == "service_level_target" && n[1] == "service_level_by_tier" && n[2] == "budget_cap";
    assert n[3] == "procurement_lead_time_delta_pct" && n[4] == "repair_tat_delta_pct";
    assert n[5] == "scope" && n[6] == "scope_value";
  }

  // ----- what the fingerprint tells apart -----

  ghost predicate SameParams(p: Params, q: Params) {
    && Equiv(p.serviceLevelTarget, q.serviceLevelTarget) && Equiv(p.serviceLevelByTier, q.serviceLevelByTier)
    && Equiv(p.budgetCap, q.budgetCap) && Equiv(p.leadTimeDelta, q.leadTimeDelta)
    && Equiv(p.repairTatDelta, q.repairTatDelta) && p.scope == q.scope && Equiv(p.scopeValue, q.scopeValue)
  }

  ghost predicate SameInputs(a: Inputs, b: Inputs) {
    && a.tenantId == b.tenantId && Equiv(a.manifest, b.manifest) && SameKeys(a.keyUniverse, b.keyUniverse)
    && ListsEquiv(a.procurement, b.procurement) && ListsEquiv(a.repair, b.repair) && Equiv(a.policy, b.policy)
    && SameParams(a.params, b.params)
  }

  lemma NamesAreDistinct()
    ensures Distinct(ParamNames()) && Distinct(InputNames())
  {
  }

  lemma AllEquivSplit(vs: seq<Value>, ws: seq<Value>, n: nat)
    requires |vs| == |ws| && n <= |vs|
    ensures AllEquiv(vs, ws) <==> AllEquiv(vs[..n], ws[..n]) && AllEquiv(vs[n..], ws[n..])
  {
    hide Equiv;
    if AllEquiv(vs[..n], ws[..n]) && AllEquiv(vs[n..], ws[n..]) {
      forall i | 0 <= i < |vs| ensures Equiv(vs[i], ws[i]) {
        if i < n {
          assert Equiv(vs[..n][i], ws[..n][i]);
        } else {
          assert Equiv(vs[n..][i - n], ws[n..][i - n]);
        }
      }
    }
  }

  lemma FiveEquiv(vs: seq<Value>, ws: seq<Value>)
    requires |vs| == 5 && |ws| == 5
    ensures AllEquiv(vs, ws) <==>
              Equiv(vs[0], ws[0]) && Equiv(vs[1], ws[1]) && Equiv(vs[2], ws[2]) && Equiv(vs[3], ws[3])
              && Equiv(vs[4], ws[4])
  {
    hide Equiv;
  }

  lemma TwoEquiv(vs: seq<Value>, ws: seq<Value>)
    requires |vs| == 2 && |ws| == 2
    ensures AllEquiv(vs, ws) <==> Equiv(vs[0], ws[0]) && Equiv(vs[1], ws[1])
  {
    hide Equiv;
  }

  lemma ParamsDecide(p: Params, q: Params)
    ensures Equiv(ParamsValue(p), ParamsValue(q)) <==> SameParams(p, q)
  {
    var vs, ws := ParamValues(p), ParamValues(q);
    NamesAreDistinct();
    RecordsAgreeByField(ParamNames(), vs, ws);
    assert Equiv(Text(p.scope), Text(q.scope)) <==> p.scope == q.scope;
    hide Equiv, Record, ParamNames, InputNames;
    AllEquivSplit(vs, ws, 5);
    FiveEquiv(vs[..5], ws[..5]);
    TwoEquiv(vs[5..], ws[5..]);
  }

  lemma ConstantsAreEquivalent()
    ensures Valid(MODEL_VERSIONS) && Valid(REPAIR_SETTINGS)
    ensures Equiv(MODEL_VERSIONS, MODEL_VERSIONS) && Equiv(REPAIR_SETTINGS, REPAIR_SETTINGS)
  {
    assert ValidLiteral("90") && ValidLiteral("1.0");
    hide ValidLiteral;
    assert Valid(MODEL_VERSIONS) && Valid(REPAIR_SETTINGS);
    hide Equiv, Canon;
    CanonDecidesEquiv(MODEL_VERSIONS, MODEL_VERSIONS);
    CanonDecidesEquiv(REPAIR_SETTINGS, REPAIR_SETTINGS);
  }

  lemma TextsAndLists(s: string, t: string, xs: seq<Value>, ys: seq<Value>)
    ensures Equiv(Text(s), Text(t)) <==> s == t
    ensures Equiv(Items(xs), Items(ys)) <==> ListsEquiv(xs, ys)
  {
  }

  lemma PayloadsDecide(a: Inputs, b: Inputs)
    ensures Equiv(Payload(a), Payload(b)) <==> SameInputs(a, b)
  {
    hide Equiv, ListsEquiv, Record, ParamNames, InputNames, SameKeys, ParamsValue, SameParams, PairValues;
    var vs, ws := InputValues(a), InputValues(b);
    NamesAreDistinct();
    RecordsAgreeByField(InputNames(), vs, ws);
    ConstantsAreEquivalent();
    UniverseDecides(a.keyUniverse, b.keyUniverse);
    ParamsDecide(a.params, b.params);
    TextsAndLists("scenario-solve.v2", "scenario-solve.v2", a.procurement, b.procurement);
    TextsAndLists(a.tenantId, b.tenantId, a.repair, b.repair);
    AllEquivSplit(vs, ws, 5);
    FiveEquiv(vs[..5], ws[..5]);
    FiveEquiv(vs[5..], ws[5..]);
  }

  lemma RecordIsValid(names: seq<string>, vs: seq<Value>)
    requires |names| == |vs| && forall i :: 0 <= i < |vs| ==> Valid(vs[i])
    ensures Valid(Mapping(Record(names, vs)))
  {
  }

  lemma TextIsValid(s: string)
    ensures Valid(Text(s))
  {
  }

  lemma ParamsAreValid(p: Params)
    requires ValidParams(p)
    ensures Valid(ParamsValue(p))
  {
    var vs := ParamValues(p);
    TextIsValid(p.scope);
    hide Valid, Record, ParamNames;
    assert forall i :: 0 <= i < 7 ==> Valid(vs[i]);
    RecordIsValid(ParamNames(), vs);
  }

  lemma PayloadIsValid(inp: Inputs)
    requires ValidInputs(inp)
    ensures Valid(Payload(inp))
  {
    hide Valid, Record, InputNames, ParamsValue, PairValues, ValidParams;
    ParamsAreValid(inp.params);
    PairValuesAreValid(inp.keyUniverse);
    ConstantsAreEquivalent();
    TextIsValid("scenario-solve.v2");
    TextIsValid(inp.tenantId);
    var vs := InputValues(inp);
    assert forall i :: 0 <= i < 10 ==> Valid(vs[i]);
    RecordIsValid(InputNames(), vs);
  }

  /**
   The hashed text is the same exactly for inputs that agree on every field up to order, where a
   `(pn, location)` key of the universe is only an unordered pair.
   */
  lemma TextDecidesInputs(a: Inputs, b: Inputs)
    requires ValidInputs(a) && ValidInputs(b)
    ensures CanonicalText(Payload(a)) == CanonicalText(Payload(b)) <==> SameInputs(a, b)
  {
    PayloadIsValid(a);
    PayloadIsValid(b);
    TextDecidesEquiv(Payload(a), Payload(b));
    PayloadsDecide(a, b);
  }

  /** Swapping part number and location in a key of the universe is not seen. */
  lemma SwappedKeyIsNotSeen(a: Inputs, i: nat)
    requires ValidInputs(a) && i < |a.keyUniverse|
    ensures var p := a.keyUniverse[i];
            CanonicalText(Payload(a)) == CanonicalText(Payload(a.(keyUniverse := a.keyUniverse[i := (p.1, p.0)])))
  {
    var p := a.keyUniverse[i];
    var b := a.(keyUniverse := a.keyUniverse[i := (p.1, p.0)]);
    assert Map(Unordered, a.keyUniverse) == Map(Unordered, b.keyUniverse) by {
      assert Unordered(p) == Unordered((p.1, p.0));
    }
    PayloadIsValid(a);
    CanonDecidesEquiv(Payload(a), Payload(a));
    PayloadsDecide(a, a);
    TextDecidesInputs(a, b);
  }
}
