/**
 Peer-group priors with coarsening backoff (`peer_priors.py`): the group index and the lookup,
 against plain filters of the records.
 */
module PeerPriors {
  import opened Wrappers
  import opened Filtering
  import opened Reals
  import opened Sequences
  import opened EmpiricalBayes

  datatype PeerRecord = PeerRecord(ata: Option<string>, tier: int, cls: Option<string>, count: real, exposure: real)

  /** The tuple keys of the index; tuples of different lengths never collide. */
  datatype Key =
    | Fine(ata: Option<string>, tier: int, cls: Option<string>)
    | Middle(ata: Option<string>, tier: int)
    | Coarse(tier: int)

  /** From finest to coarsest; the global level is handled apart. */
  function Keys(ata: Option<string>, tier: int, cls: Option<string>): seq<Key> {
    [Fine(ata, tier, cls), Middle(ata, tier), Coarse(tier)]
  }

  datatype Provider = Provider(priors: map<Key, GammaPrior>, everyone: GammaPrior)

  // ----- the specification: plain filters -----

  /** Whether a record belongs to a peer group: it agrees on every attribute the group names. */
  predicate Belongs(r: PeerRecord, key: Key) {
    match key
    case Fine(ata, tier, cls) => r.ata == ata && r.tier == tier && r.cls == cls
    case Middle(ata, tier) => r.ata == ata && r.tier == tier
    case Coarse(tier) => r.tier == tier
  }

  function Peers(records: seq<PeerRecord>, key: Key): seq<PeerRecord> {
    Filter(records, (r: PeerRecord) => Belongs(r, key))
  }

  function Usable(members: seq<PeerRecord>): (r: seq<PeerRecord>)
    ensures forall m :: m in r ==> m.exposure > 0.0
    ensures |r| <= |members|
  {
    FilterLength(members, (m: PeerRecord) => m.exposure > 0.0);
    Filter(members, (m: PeerRecord) => m.exposure > 0.0)
  }

  function RateOf(m: PeerRecord): real {
    if m.exposure > 0.0 then m.count / m.exposure else 0.0
  }

  function ExposureOf(m: PeerRecord): real {
    m.exposure
  }

  /** The prior `fit_prior` gives for these members. */
  function GroupPrior(members: seq<PeerRecord>): (p: GammaPrior)
    ensures p.Valid()
  {
    var rates, exposures := Map(RateOf, Usable(members)), Map(ExposureOf, Usable(members));
    FitIsValid(rates, exposures);
    FitPrior(rates, exposures).value
  }

  /** A group exists once it has a member, so a threshold below one asks for one. */
  predicate Enough(records: seq<PeerRecord>, minPeers: int, key: Key) {
    |Peers(records, key)| >= 1 && |Peers(records, key)| >= minPeers
  }

  /** The finest level with enough peers decides; failing all, everybody does. */
  function Deciding(records: seq<PeerRecord>, minPeers: int, ata: Option<string>, tier: int, cls: Option<string>)
    : seq<PeerRecord>
  {
    if Enough(records, minPeers, Fine(ata, tier, cls)) then Peers(records, Fine(ata, tier, cls))
    else if Enough(records, minPeers, Middle(ata, tier)) then Peers(records, Middle(ata, tier))
    else if Enough(records, minPeers, Coarse(tier)) then Peers(records, Coarse(tier))
    else records
  }

  function PeerPrior(records: seq<PeerRecord>, minPeers: int, ata: Option<string>, tier: int, cls: Option<string>)
    : GammaPrior
  {
    GroupPrior(Deciding(records, minPeers, ata, tier, cls))
  }

  // ----- fitting -----

  /** The index over the records seen: exactly the non-empty peer groups, members in order. */
  ghost predicate Indexes(groups: map<Key, seq<PeerRecord>>, records: seq<PeerRecord>) {
    && (forall key :: key in groups <==> Peers(records, key) != [])
    && forall key :: key in groups ==> groups[key] == Peers(records, key)
  }

  /** Between records: the groups named in `done` already hold `r`. */
  ghost predicate PartlyIndexes(groups: map<Key, seq<PeerRecord>>, records: seq<PeerRecord>, r: PeerRecord,
                                done: seq<Key>) {
    && (forall key :: key in groups <==> Peers(records, key) != [] || key in done)
    && forall key :: key in groups ==> groups[key] == Peers(records, key) + (if key in done then [r] else [])
  }

  lemma PeersOfAppend(records: seq<PeerRecord>, r: PeerRecord, key: Key)
    ensures Peers(records + [r], key) == Peers(records, key) + (if key in Keys(r.ata, r.tier, r.cls) then [r] else [])
  {
    FilterAppend(records, [r], (x: PeerRecord) => Belongs(x, key));
    assert Belongs(r, key) <==> key in Keys(r.ata, r.tier, r.cls);
  }

  lemma AllKeysDone(groups: map<Key, seq<PeerRecord>>, records: seq<PeerRecord>, r: PeerRecord)
    requires PartlyIndexes(groups, records, r, Keys(r.ata, r.tier, r.cls))
    ensures Indexes(groups, records + [r])
  {
    forall key ensures key in groups <==> Peers(records + [r], key) != [] {
      PeersOfAppend(records, r, key);
    }
    forall key | key in groups ensures groups[key] == Peers(records + [r], key) {
      PeersOfAppend(records, r, key);
    }
  }

  /** `groups.setdefault(key, []).append(r)` for one key. */
  function Appended(groups: map<Key, seq<PeerRecord>>, key: Key, r: PeerRecord): map<Key, seq<PeerRecord>> {
    groups[key := (if key in groups then groups[key] else []) + [r]]
  }

  lemma AppendKeepsIndex(groups: map<Key, seq<PeerRecord>>, records: seq<PeerRecord>, r: PeerRecord, done: seq<Key>,
                         key: Key)
    requires PartlyIndexes(groups, records, r, done) && key !in done
    ensures PartlyIndexes(Appended(groups, key, r), records, r, done + [key])
  {
    hide Peers;
  }

  /** A prior for exactly the groups with enough peers, each the one the plain filter gives. */
  ghost predicate Fitted(p: Provider, records: seq<PeerRecord>, minPeers: int) {
    && (forall key :: key in p.priors <==> Enough(records, minPeers, key))
    && (forall key :: key in p.priors ==> p.priors[key] == GroupPrior(Peers(records, key)))
    && p.everyone == GroupPrior(records)
  }

  lemma EmptyIndex()
    ensures Indexes(map[], [])
  {
  }

  method Fit(records: seq<PeerRecord>, minPeers: int) returns (p: Provider)
    ensures Fitted(p, records, minPeers)
  {
    hide Peers, GroupPrior, Appended;
    EmptyIndex();
    var groups: map<Key, seq<PeerRecord>> := map[];
    var i := 0;
    while i < |records|
      invariant 0 <= i <= |records|
      invariant Indexes(groups, records[..i])
    {
      var r := records[i];
      var keys := Keys(r.ata, r.tier, r.cls);
      var j := 0;
      assert keys[..0] == [];
      assert PartlyIndexes(groups, records[..i], r, keys[..0]);
      while j < |keys|
        invariant 0 <= j <= |keys|
        invariant PartlyIndexes(groups, records[..i], r, keys[..j])
      {
        AppendKeepsIndex(groups, records[..i], r, keys[..j], keys[j]);
        assert keys[..j + 1] == keys[..j] + [keys[j]];
        groups := Appended(groups, keys[j], r);
        j := j + 1;
      }
      assert keys[..j] == keys;
      AllKeysDone(groups, records[..i], r);
      assert records[..i + 1] == records[..i] + [r];
      i := i + 1;
    }
    assert records[..i] == records;
    p := Provider(
      map key | key in groups && |groups[key]| >= minPeers :: GroupPrior(groups[key]),
      GroupPrior(records));
  }

  /** The lookup: the prior under the first of the three keys that has one. */
  function Lookup(p: Provider, ata: Option<string>, tier: int, cls: Option<string>): GammaPrior {
    if Fine(ata, tier, cls) in p.priors then p.priors[Fine(ata, tier, cls)]
    else if Middle(ata, tier) in p.priors then p.priors[Middle(ata, tier)]
    else if Coarse(tier) in p.priors then p.priors[Coarse(tier)]
    else p.everyone
  }

  method GetPrior(p: Provider, ata: Option<string>, tier: int, cls: Option<string>) returns (prior: GammaPrior)
    ensures prior == Lookup(p, ata, tier, cls)
  {
    var keys := Keys(ata, tier, cls);
    var i := 0;
    while i < |keys|
      invariant 0 <= i <= |keys|
      invariant forall k :: 0 <= k < i ==> keys[k] !in p.priors
    {
      if keys[i] in p.priors {
        assert i > 0 ==> keys[0] !in p.priors;
        assert i > 1 ==> keys[1] !in p.priors;
        return p.priors[keys[i]];
      }
      i := i + 1;
    }
    assert keys[0] !in p.priors && keys[1] !in p.priors && keys[2] !in p.priors;
    return p.everyone;
  }

  // ----- what a caller gets -----

  /** Fitting and then looking up is filtering the records at the finest level with enough peers. */
  lemma LookupIsPeerPrior(p: Provider, records: seq<PeerRecord>, minPeers: int, ata: Option<string>, tier: int,
                          cls: Option<string>)
    requires Fitted(p, records, minPeers)
    ensures Lookup(p, ata, tier, cls) == PeerPrior(records, minPeers, ata, tier, cls)
  {
    hide Enough, GroupPrior, Peers;
    assert Fine(ata, tier, cls) in p.priors <==> Enough(records, minPeers, Fine(ata, tier, cls));
    assert Middle(ata, tier) in p.priors <==> Enough(records, minPeers, Middle(ata, tier));
    assert Coarse(tier) in p.priors <==> Enough(records, minPeers, Coarse(tier));
  }

  /** A coarser level has at least as many peers, so backing off stops at the narrowest group that is large enough. */
  lemma CoarserHasMorePeers(records: seq<PeerRecord>, minPeers: int, ata: Option<string>, tier: int,
                            cls: Option<string>)
    ensures |Peers(records, Fine(ata, tier, cls))| <= |Peers(records, Middle(ata, tier))|
    ensures |Peers(records, Middle(ata, tier))| <= |Peers(records, Coarse(tier))| <= |records|
    ensures Enough(records, minPeers, Fine(ata, tier, cls)) ==> Enough(records, minPeers, Middle(ata, tier))
    ensures Enough(records, minPeers, Middle(ata, tier)) ==> Enough(records, minPeers, Coarse(tier))
  {
    var fine := (r: PeerRecord) => Belongs(r, Fine(ata, tier, cls));
    var middle := (r: PeerRecord) => Belongs(r, Middle(ata, tier));
    var coarse := (r: PeerRecord) => Belongs(r, Coarse(tier));
    FilterMonotone(records, fine, middle);
    FilterMonotone(records, middle, coarse);
    FilterLength(records, coarse);
  }

  lemma GroupPriorIgnoresOrder(xs: seq<PeerRecord>, ys: seq<PeerRecord>)
    requires multiset(xs) == multiset(ys)
    ensures GroupPrior(xs) == GroupPrior(ys)
  {
    hide Filter, Map, FitPrior;
    FilterPermuted(xs, ys, (m: PeerRecord) => m.exposure > 0.0);
    MapPermuted(RateOf, Usable(xs), Usable(ys));
    MapPermuted(ExposureOf, Usable(xs), Usable(ys));
    FitIgnoresOrder(Map(RateOf, Usable(xs)), Map(RateOf, Usable(ys)), Map(ExposureOf, Usable(xs)),
                    Map(ExposureOf, Usable(ys)));
  }

  lemma PeersIgnoreOrder(records: seq<PeerRecord>, other: seq<PeerRecord>, key: Key)
    requires multiset(records) == multiset(other)
    ensures |Peers(records, key)| == |Peers(other, key)|
    ensures GroupPrior(Peers(records, key)) == GroupPrior(Peers(other, key))
  {
    hide GroupPrior;
    FilterPermuted(records, other, (r: PeerRecord) => Belongs(r, key));
    PermutationLength(Peers(records, key), Peers(other, key));
    GroupPriorIgnoresOrder(Peers(records, key), Peers(other, key));
  }

  /** The order in which the records arrive does not matter. */
  lemma PeerPriorIgnoresOrder(records: seq<PeerRecord>, other: seq<PeerRecord>, minPeers: int,
                              ata: Option<string>, tier: int, cls: Option<string>)
    requires multiset(records) == multiset(other)
    ensures PeerPrior(records, minPeers, ata, tier, cls) == PeerPrior(other, minPeers, ata, tier, cls)
  {
    hide GroupPrior, Peers;
    PeersIgnoreOrder(records, other, Fine(ata, tier, cls));
    PeersIgnoreOrder(records, other, Middle(ata, tier));
    PeersIgnoreOrder(records, other, Coarse(tier));
    GroupPriorIgnoresOrder(records, other);
  }

  /** The fit sees each exposed member's events per unit of exposure, and its exposure, and nobody else. */
  lemma FitsMemberRates(members: seq<PeerRecord>, rates: seq<real>, exposures: seq<real>)
    requires var exposed := Filter(members, (m: PeerRecord) => m.exposure > 0.0);
             && |rates| == |exposures| == |exposed|
             && forall i :: 0 <= i < |exposed| ==>
                  rates[i] * exposed[i].exposure == exposed[i].count && exposures[i] == exposed[i].exposure
    ensures Ok(GroupPrior(members)) == FitPrior(rates, exposures)
  {
    var exposed := Usable(members);
    assert exposed == Filter(members, (m: PeerRecord) => m.exposure > 0.0);
    hide Filter, Usable, FitPrior;
    forall i | 0 <= i < |exposed| ensures rates[i] == RateOf(exposed[i]) {
      assert exposed[i] in exposed;
      CancelRate(rates[i], exposed[i].count, exposed[i].exposure);
    }
    assert rates == Map(RateOf, exposed) && exposures == Map(ExposureOf, exposed);
    FitIsValid(rates, exposures);
  }

  lemma CancelRate(rate: real, count: real, exposure: real)
    requires exposure > 0.0 && rate * exposure == count
    ensures rate == count / exposure
  {
  }

  // ----- members without exposure -----

  /** The threshold counts every member, the fit only those with exposure. */
  lemma {:induction false} UsableIsAll(members: seq<PeerRecord>)
    ensures |Usable(members)| == |members| <==> forall m :: m in members ==> m.exposure > 0.0
  {
    if members != [] {
      UsableIsAll(members[1..]);
      assert forall m :: m in members <==> m == members[0] || m in members[1..];
      assert |Usable(members[1..])| <= |members[1..]|;
    }
  }

  predicate Exposed(members: seq<PeerRecord>) {
    exists m :: m in members && m.exposure > 0.0
  }

  /**
   The mean rate is at its floor and the fitted weight is one: for overdispersed rates the excess
   variance equals the mean, and for others the average exposure is one.
   */
  predicate AtFloor(rates: seq<real>, exposures: seq<real>) {
    rates != [] && Positive(exposures) != []
    && var m, t := Average(rates), Average(Positive(exposures));
       m <= EPS && if Overdispersed(rates, exposures) then Excess(rates, t) == m else t == 1.0
  }

  /** A fit on some exposure gives the uninformed prior exactly at the floor. */
  lemma UninformedFitIff(rates: seq<real>, exposures: seq<real>)
    requires rates != [] && Positive(exposures) != []
    ensures FitPrior(rates, exposures) == Ok(GammaPrior(EPS, 1.0)) <==> AtFloor(rates, exposures)
  {
    hide Average, Positive, SampleVariance;
    var m, t := Average(rates), Average(Positive(exposures));
    assert t > 0.0;
    if Overdispersed(rates, exposures) {
      UninformedMomentsIff(m, t, Excess(rates, t));
    } else {
      FallbackIsFloored(rates, exposures);
      UninformedFallbackIff(m, t);
    }
  }

  lemma FallbackIsFloored(rates: seq<real>, exposures: seq<real>)
    requires rates != [] && Positive(exposures) != [] && !Overdispersed(rates, exposures)
    ensures var t := Average(Positive(exposures));
            t > 0.0 && FitPrior(rates, exposures) == MakePrior(Max(Average(rates), EPS) * t, t)
  {
    hide Average, SampleVariance, Positive, MakePrior;
    assert Average(Positive(exposures)) > 0.0;
  }

  lemma UninformedMomentsIff(m: real, t: real, excess: real)
    requires m > 0.0 && excess > 0.0
    ensures FitMoments(m, t, excess) == Ok(GammaPrior(EPS, 1.0)) <==> m <= EPS && excess == m
  {
    var beta := RateFor(m, excess);
    assert beta * excess == m;
    if beta == 1.0 {
      assert ShapeFor(m, beta) == m && excess == m;
    }
    if excess == m {
      CancelFactor(1.0, m);
      assert beta == 1.0;
    }
  }

  lemma UninformedFallbackIff(m: real, t: real)
    requires t > 0.0
    ensures MakePrior(Max(m, EPS) * t, t) == Ok(GammaPrior(EPS, 1.0)) <==> m <= EPS && t == 1.0
  {
    ProductPositive(Max(m, EPS), t);
    if t == 1.0 {
      assert Max(m, EPS) * t == Max(m, EPS);
    }
  }

  lemma {:induction false} SomeUsable(members: seq<PeerRecord>)
    ensures Usable(members) != [] <==> Exposed(members)
  {
    if members != [] {
      SomeUsable(members[1..]);
      assert forall m :: m in members <==> m == members[0] || m in members[1..];
    }
  }

  lemma PositiveExposures(members: seq<PeerRecord>)
    requires Exposed(members)
    ensures Map(RateOf, Usable(members)) != [] && Positive(Map(ExposureOf, Usable(members))) != []
  {
    var exposures := Map(ExposureOf, Usable(members));
    SomeUsable(members);
    assert Usable(members)[0] in Usable(members);
    assert exposures[0] > 0.0 && exposures[0] in exposures;
    assert exposures[0] in Positive(exposures);
  }

  /**
   A group that is large enough decides although nobody in it was ever exposed. At whatever level
   the lookup ends, the prior served is the uninformed one exactly when the deciding group
   has no exposure, or when its mean rate is at the floor with a fitted weight of one.
   */
  lemma UnexposedGroupDecides(records: seq<PeerRecord>, minPeers: int, ata: Option<string>, tier: int,
                              cls: Option<string>)
    ensures PeerPrior(records, minPeers, ata, tier, cls) == GammaPrior(EPS, 1.0) <==>
              var members := Deciding(records, minPeers, ata, tier, cls);
              !Exposed(members) || AtFloor(Map(RateOf, Usable(members)), Map(ExposureOf, Usable(members)))
  {
    hide Enough, Peers;
    var members := Deciding(records, minPeers, ata, tier, cls);
    var rates, exposures := Map(RateOf, Usable(members)), Map(ExposureOf, Usable(members));
    assert PeerPrior(records, minPeers, ata, tier, cls) == GroupPrior(members);
    SomeUsable(members);
    FitIsValid(rates, exposures);
    if Exposed(members) {
      PositiveExposures(members);
      hide FitPrior, AtFloor, Map, Usable, Exposed;
      UninformedFitIff(rates, exposures);
    } else {
      assert rates == [];
    }
  }

  /** Two records of a rare kind that were never exposed outvote a well observed tier. */
  lemma UnexposedExample()
    ensures var rare := PeerRecord(Some("32"), 1, Some("rotable"), 0.0, 0.0);
            var seen := PeerRecord(None, 1, Some("rotable"), 10.0, 100.0);
            PeerPrior([rare, rare, seen], 2, Some("32"), 1, Some("rotable")) == GammaPrior(EPS, 1.0)
  {
    var rare := PeerRecord(Some("32"), 1, Some("rotable"), 0.0, 0.0);
    var seen := PeerRecord(None, 1, Some("rotable"), 10.0, 100.0);
    var records, key := [rare, rare, seen], Fine(Some("32"), 1, Some("rotable"));
    PeersOfAppend([], rare, key);
    PeersOfAppend([rare], rare, key);
    PeersOfAppend([rare, rare], seen, key);
    assert [] + [rare] == [rare] && [rare] + [rare] == [rare, rare] && [rare, rare] + [seen] == records;
    assert Peers([], key) == [];
    assert Peers(records, key) == [rare, rare];
    UnexposedGroupDecides(records, 2, Some("32"), 1, Some("rotable"));
  }
}
