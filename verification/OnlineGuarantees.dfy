/**
 What readers and writers of the online store may rely on, in every state that any number of
 interleaved, failing or crashing population runs can reach.
 */
module OnlineGuarantees {
  import opened Wrappers
  import opened OnlineKeys
  import opened OnlineTable
  import opened OnlineProtocol

  /** The read token of a committed run. */
  ghost function TokenOf(s: Sys, id: nat): Token
    requires Begun(s, id)
  {
    Token(s.runs[id].tenant, Gen(s, id), |s.runs[id].bundles|)
  }

  function BundleSortKeysOf(g: string, bundles: seq<Bundle>): set<string> {
    set b | b in bundles :: BundleSortKey(g, b.pn, b.location)
  }

  // ----- a committed generation holds exactly one run's bundles -----

  lemma CommittedKeys(s: Sys, id: nat, tenant: string)
    requires Inv(s) && CommittedRun(s, id, tenant)
    ensures SortKeysUnder(s.table, tenant, Gen(s, id)) == BundleSortKeysOf(Gen(s, id), s.runs[id].bundles)
  {
    var r := s.runs[id];
    var g := Gen(s, id);
    assert WellFormedRun(r, s.used);
    forall b | b in r.bundles ensures BundleSortKey(g, b.pn, b.location) in SortKeysUnder(s.table, tenant, g) {
      CommittedBundleInTable(s, id, tenant, b);
      PrefixSelectsGeneration(g, g, b.pn, b.location);
    }
    forall k | k in SortKeysUnder(s.table, tenant, g) ensures k in BundleSortKeysOf(g, r.bundles) {
      OnlyCommittedBundlesUnderPrefix(s, id, tenant, k);
    }
  }

  lemma CommittedBundleInTable(s: Sys, id: nat, tenant: string, b: Bundle)
    requires Inv(s) && CommittedRun(s, id, tenant) && b in s.runs[id].bundles
    ensures b.tenant == tenant
    ensures var k := (tenant, BundleSortKey(Gen(s, id), b.pn, b.location));
            k in s.table && s.table[k] == Staged(b)
  {
    var r := s.runs[id];
    assert WellFormedRun(r, s.used);
    var i :| 0 <= i < |r.bundles| && r.bundles[i] == b;
    assert IsStaged(s, id, i);
    assert StagedKey(r, i) == (tenant, BundleSortKey(Gen(s, id), b.pn, b.location));
  }

  lemma OnlyCommittedBundlesUnderPrefix(s: Sys, id: nat, tenant: string, k: string)
    requires RunsInv(s) && TableInv(s) && CommittedRun(s, id, tenant)
    requires k in SortKeysUnder(s.table, tenant, Gen(s, id))
    ensures k in BundleSortKeysOf(Gen(s, id), s.runs[id].bundles)
  {
    PointerIsNoBundleKey(Gen(s, id), "", "");
    var id': nat, i: nat :| OwnedBy(s, (tenant, k), id', i);
    var b := s.runs[id'].bundles[i];
    assert WellFormedRun(s.runs[id], s.used) && WellFormedRun(s.runs[id'], s.used);
    PrefixSelectsGeneration(Gen(s, id), Gen(s, id'), b.pn, b.location);
    assert id' == id;
    assert b in s.runs[id].bundles;
  }

  /**
   A committed generation holds exactly the pointer's `key_count` bundles, all of the one run
   that committed it: a sort key lies in its query range exactly when it decodes to a key of
   that run.
   */
  lemma CommittedRangeIsOneRun(s: Sys, id: nat, tenant: string, k: string)
    requires Inv(s) && CommittedRun(s, id, tenant)
    ensures |KeysOf(s.runs[id].bundles)| == TokenOf(s, id).keyCount
    ensures k in SortKeysUnder(s.table, tenant, Gen(s, id)) <==>
            DecodeBundleSortKey(k, Gen(s, id)).Ok?
            && DecodeBundleSortKey(k, Gen(s, id)).value in KeysOf(s.runs[id].bundles)
  {
    var r := s.runs[id];
    var g := Gen(s, id);
    assert WellFormedRun(r, s.used);
    BatchKeyCount(r.bundles);
    CommittedKeys(s, id, tenant);
    if k in SortKeysUnder(s.table, tenant, g) {
      var b :| b in r.bundles && k == BundleSortKey(g, b.pn, b.location);
      DecodeBundleInvertsEncode(k, g, b.pn, b.location);
      assert KeyOf(b) in KeysOf(r.bundles);
    }
    if DecodeBundleSortKey(k, g).Ok? && DecodeBundleSortKey(k, g).value in KeysOf(r.bundles) {
      var key := DecodeBundleSortKey(k, g).value;
      var b :| b in r.bundles && KeyOf(b) == key;
      DecodeBundleInvertsEncode(k, g, key.0, key.1);
      assert k == BundleSortKey(g, b.pn, b.location);
    }
  }

  /** Every key of the committing run reads back the bundle that run staged; every other key misses. */
  lemma CommittedReads(s: Sys, id: nat, tenant: string, pn: string, location: string)
    requires Inv(s) && CommittedRun(s, id, tenant)
    ensures var r := ReadBundle(s.table, TokenOf(s, id), pn, location);
            && (r.Ok? <==> (pn, location) in KeysOf(s.runs[id].bundles))
            && (r.Ok? ==> r.value in s.runs[id].bundles && KeyOf(r.value) == (pn, location))
  {
    var r := s.runs[id];
    var g := Gen(s, id);
    if (pn, location) in KeysOf(r.bundles) {
      var b :| b in r.bundles && KeyOf(b) == (pn, location);
      CommittedBundleInTable(s, id, tenant, b);
    } else if (tenant, BundleSortKey(g, pn, location)) in s.table {
      var k := BundleSortKey(g, pn, location);
      assert WellFormedRun(r, s.used);
      PrefixSelectsGeneration(g, g, pn, location);
      assert (tenant, k).0 == tenant && BundlePrefix(g) <= (tenant, k).1;
      assert k in SortKeysUnder(s.table, tenant, g);
      OnlyCommittedBundlesUnderPrefix(s, id, tenant, k);
      var b :| b in r.bundles && k == BundleSortKey(g, b.pn, b.location);
      BundleSortKeyInjective(g, pn, location, g, b.pn, b.location);
    }
  }

  /** A run's batch names each key once, so its bundles are determined by their keys. */
  lemma BundleOfKey(s: Sys, id: nat, tenant: string, b: Bundle, b': Bundle)
    requires RunsInv(s) && CommittedRun(s, id, tenant)
    requires b in s.runs[id].bundles && b' in s.runs[id].bundles && KeyOf(b) == KeyOf(b')
    ensures b == b'
  {
    assert WellFormedRun(s.runs[id], s.used);
  }

  // ----- nothing committed ever changes -----

  lemma StepContinuesRuns(s: Sys, a: Action)
    requires RunsInv(s) && Enabled(s, a)
    ensures RunsContinue(s, Step(s, a))
    ensures forall t :: HistoryOf(s, t) <= HistoryOf(Step(s, a), t)
  {
    StepContinuesOwnRun(s, a);
    assert forall id :: id in s.runs && id != a.id ==> Step(s, a).runs[id] == s.runs[id];
  }

  lemma StepContinuesOwnRun(s: Sys, a: Action)
    requires RunsInv(s) && Enabled(s, a)
    ensures a.id in s.runs ==> a.id in Step(s, a).runs && Continues(s.runs[a.id], Step(s, a).runs[a.id])
  {
    if a.id in s.runs {
      assert WellFormedRun(s.runs[a.id], s.used);
    }
  }

  lemma {:induction false} AfterContinuesRuns(s: Sys, actions: seq<Action>)
    requires Inv(s) && Legal(s, actions)
    ensures Inv(After(s, actions)) && RunsContinue(s, After(s, actions))
    ensures forall t :: HistoryOf(s, t) <= HistoryOf(After(s, actions), t)
    decreases |actions|
  {
    if actions != [] {
      var s' := Step(s, actions[0]);
      StepKeepsInv(s, actions[0]);
      StepContinuesRuns(s, actions[0]);
      AfterContinuesRuns(s', actions[1..]);
      var e := After(s', actions[1..]);
      forall id | id in s.runs ensures id in e.runs && Continues(s.runs[id], e.runs[id]) {
        assert Continues(s.runs[id], s'.runs[id]) && Continues(s'.runs[id], e.runs[id]);
      }
      forall t ensures HistoryOf(s, t) <= HistoryOf(e, t) {
        assert HistoryOf(s, t) <= HistoryOf(s', t) && HistoryOf(s', t) <= HistoryOf(e, t);
      }
    }
  }

  /**
   A pinned token keeps its meaning for ever: after any further actions of any runs its
   generation is still that committed run's, with the same query range, and every bundle
   read under it returns what it returned before.
   */
  lemma PinnedReadsAreStable(s: Sys, actions: seq<Action>, id: nat, tenant: string)
    requires Inv(s) && Legal(s, actions) && CommittedRun(s, id, tenant)
    ensures var e := After(s, actions);
            && Inv(e) && CommittedRun(e, id, tenant) && TokenOf(e, id) == TokenOf(s, id)
            && e.runs[id] == s.runs[id]
            && SortKeysUnder(e.table, tenant, Gen(s, id)) == SortKeysUnder(s.table, tenant, Gen(s, id))
    ensures forall pn, location ::
              var before := ReadBundle(s.table, TokenOf(s, id), pn, location);
              var after := ReadBundle(After(s, actions).table, TokenOf(s, id), pn, location);
              (before.Ok? <==> after.Ok?) && (before.Ok? ==> before == after)
  {
    AfterContinuesRuns(s, actions);
    var e := After(s, actions);
    assert Continues(s.runs[id], e.runs[id]);
    CommittedKeys(s, id, tenant);
    CommittedKeys(e, id, tenant);
    forall pn, location
      ensures var before := ReadBundle(s.table, TokenOf(s, id), pn, location);
              var after := ReadBundle(e.table, TokenOf(s, id), pn, location);
              (before.Ok? <==> after.Ok?) && (before.Ok? ==> before == after)
    {
      CommittedReads(s, id, tenant, pn, location);
      CommittedReads(e, id, tenant, pn, location);
      if (pn, location) in KeysOf(s.runs[id].bundles) {
        BundleOfKey(s, id, tenant, ReadBundle(s.table, TokenOf(s, id), pn, location).value,
                    ReadBundle(e.table, TokenOf(s, id), pn, location).value);
      }
    }
  }

  // ----- the pointers of a tenant form one chain -----

  lemma {:induction false} ChainHasOneRunPerBase(s: Sys, tenant: string, h: seq<nat>, i: nat, j: nat)
    requires RunsInv(s) && Chain(s, tenant, h) && i < j < |h|
    ensures Base(s, h[i]) != Base(s, h[j])
  {
    var before := h[..|h| - 1];
    if j < |h| - 1 {
      ChainHasOneRunPerBase(s, tenant, before, i, j);
    } else {
      ChainPrefix(s, tenant, before, i);
      assert h[..j] == before && before[i] == h[i];
      if i > 0 {
        assert before[i - 1] in before && before[|before| - 1] in before;
        ChainMembers(s, tenant, before, before[i - 1]);
        ChainMembers(s, tenant, before, before[|before| - 1]);
        ChainDistinct(s, tenant, before, i - 1, |before| - 1);
      }
    }
  }

  lemma {:induction false} ChainPrefix(s: Sys, tenant: string, h: seq<nat>, i: nat)
    requires Chain(s, tenant, h) && i < |h|
    ensures CommittedRun(s, h[i], tenant)
    ensures Base(s, h[i]) == HeadOf(s, h[..i])
  {
    var before := h[..|h| - 1];
    if i < |h| - 1 {
      ChainPrefix(s, tenant, before, i);
      assert before[..i] == h[..i];
    } else {
      assert before == h[..i];
    }
  }

  lemma {:induction false} ChainDistinct(s: Sys, tenant: string, h: seq<nat>, i: nat, j: nat)
    requires Chain(s, tenant, h) && i < j < |h|
    ensures h[i] != h[j]
  {
    var before := h[..|h| - 1];
    if j < |h| - 1 {
      ChainDistinct(s, tenant, before, i, j);
    } else {
      assert before[i] == h[i];
    }
  }

  /** Of all runs begun from the same base pointer, at most one ever commits. */
  lemma OneCommitPerBase(s: Sys, id: nat, id': nat, tenant: string)
    requires Inv(s) && CommittedRun(s, id, tenant) && CommittedRun(s, id', tenant)
    requires Base(s, id) == Base(s, id')
    ensures id == id'
  {
    BaseDeterminesRun(s, tenant, HistoryOf(s, tenant), id, id');
  }

  lemma BaseDeterminesRun(s: Sys, tenant: string, h: seq<nat>, id: nat, id': nat)
    requires RunsInv(s) && Chain(s, tenant, h) && id in h && id' in h && Base(s, id) == Base(s, id')
    ensures id == id'
  {
    var i :| 0 <= i < |h| && h[i] == id;
    var j :| 0 <= j < |h| && h[j] == id';
    if i < j {
      ChainHasOneRunPerBase(s, tenant, h, i, j);
    } else if j < i {
      ChainHasOneRunPerBase(s, tenant, h, j, i);
    }
  }

  /**
   The pointer chain of a tenant: the base of every committed run is the generation committed
   just before it, and no generation ever becomes current twice.
   */
  lemma PointersFormOneChain(s: Sys, tenant: string, i: nat, j: nat)
    requires Inv(s) && i < |HistoryOf(s, tenant)| && j < |HistoryOf(s, tenant)|
    ensures var h := HistoryOf(s, tenant);
            && CommittedRun(s, h[i], tenant)
            && Base(s, h[i]) == (if i == 0 then None else Some(Gen(s, h[i - 1])))
            && (i != j ==> Gen(s, h[j]) != Gen(s, h[i]))
  {
    ChainLinks(s, tenant, HistoryOf(s, tenant), i, j);
  }

  lemma ChainLinks(s: Sys, tenant: string, h: seq<nat>, i: nat, j: nat)
    requires RunsInv(s) && Chain(s, tenant, h) && i < |h| && j < |h|
    ensures CommittedRun(s, h[i], tenant)
    ensures Base(s, h[i]) == (if i == 0 then None else Some(Gen(s, h[i - 1])))
    ensures i != j ==> Gen(s, h[j]) != Gen(s, h[i])
  {
    ChainPrefix(s, tenant, h, i);
    if i != j {
      GenerationsDiffer(s, tenant, h, i, j);
    }
  }

  lemma GenerationsDiffer(s: Sys, tenant: string, h: seq<nat>, i: nat, j: nat)
    requires RunsInv(s) && Chain(s, tenant, h) && i < |h| && j < |h| && i != j
    ensures Gen(s, h[i]) != Gen(s, h[j])
  {
    ChainPrefix(s, tenant, h, i);
    ChainPrefix(s, tenant, h, j);
    ChainDistinct(s, tenant, h, if i < j then i else j, if i < j then j else i);
  }

  /**
   The pointer's generation tells whether anybody has committed in between: it is the same
   before and after any further actions exactly when the tenant's history is.
   */
  lemma HeadTellsHistory(s: Sys, actions: seq<Action>, tenant: string)
    requires Inv(s) && Legal(s, actions)
    ensures var e := After(s, actions);
            HeadOf(e, HistoryOf(e, tenant)) == HeadOf(s, HistoryOf(s, tenant)) <==>
            HistoryOf(e, tenant) == HistoryOf(s, tenant)
  {
    AfterContinuesRuns(s, actions);
    var e := After(s, actions);
    var h, h' := HistoryOf(s, tenant), HistoryOf(e, tenant);
    assert h <= h';
    ChainRemains(s, e, tenant, h);
    if h != [] && |h| < |h'| {
      assert h'[|h| - 1] == h[|h| - 1];
      GenerationsDiffer(e, tenant, h', |h| - 1, |h'| - 1);
    } else if |h| == |h'| {
      assert h == h';
    }
  }

  /** Only commits extend a history. */
  lemma {:induction false} HistoryGrowsByCommits(s: Sys, actions: seq<Action>, tenant: string)
    requires Legal(s, actions)
    requires forall a :: a in actions ==> !a.Commit?
    ensures HistoryOf(After(s, actions), tenant) == HistoryOf(s, tenant)
    decreases |actions|
  {
    if actions != [] {
      assert actions[0] in actions;
      HistoryGrowsByCommits(Step(s, actions[0]), actions[1..], tenant);
    }
  }

  // ----- a run that does not commit changes nothing anybody can read -----

  /** The history with one run's actions taken out. */
  function WithoutRun(actions: seq<Action>, id: nat): seq<Action> {
    if actions == [] then []
    else if actions[0].id == id then WithoutRun(actions[1..], id)
    else [actions[0]] + WithoutRun(actions[1..], id)
  }

  ghost predicate Uncommitted(s: Sys, id: nat) {
    id in s.runs ==> s.runs[id].phase != Committed
  }

  ghost predicate Owned(s: Sys, k: (string, string), id: nat) {
    exists i :: OwnedBy(s, k, id, i)
  }

  /** The state with the run `id`, its generation and everything it staged taken out. */
  ghost function Erased(s: Sys, id: nat): Sys {
    Sys(map k | k in s.table && !Owned(s, k, id) :: s.table[k],
        s.runs - {id},
        if Begun(s, id) then s.used - {Gen(s, id)} else s.used,
        s.history)
  }

  lemma ErasedPointers(s: Sys, id: nat, t: string)
    ensures PointerKey(t) in Erased(s, id).table <==> PointerKey(t) in s.table
    ensures PointerKey(t) in s.table ==> Erased(s, id).table[PointerKey(t)] == s.table[PointerKey(t)]
  {
    forall i | OwnedBy(s, PointerKey(t), id, i) ensures false {
      StagedKeyIsNoPointer(s.runs[id], i);
    }
  }

  lemma SameOwnersErase(s: Sys, s': Sys, id: nat)
    requires s'.table == s.table && s'.history == s.history && s'.runs - {id} == s.runs - {id}
    requires Erased(s', id).used == Erased(s, id).used
    requires forall i: nat :: IsStaged(s', id, i) <==> IsStaged(s, id, i)
    requires Begun(s, id) && Begun(s', id) ==>
               s'.runs[id].stage == s.runs[id].stage && s'.runs[id].bundles == s.runs[id].bundles
    ensures Erased(s', id) == Erased(s, id)
  {
    forall k | k in s.table
      ensures Owned(s, k, id) <==> Owned(s', k, id)
    {
      if Owned(s, k, id) {
        var i: nat :| OwnedBy(s, k, id, i);
        assert OwnedBy(s', k, id, i);
      }
      if Owned(s', k, id) {
        var i: nat :| OwnedBy(s', k, id, i);
        assert OwnedBy(s, k, id, i);
      }
    }
    assert Erased(s', id).table == Erased(s, id).table;
  }

  lemma StagingIsErased(s: Sys, id: nat, s': Sys)
    requires StagesNext(s, id, s')
    requires StagedKey(s.runs[id], s.runs[id].next) !in s.table
    ensures Erased(s', id) == Erased(s, id)
  {
    var r := s.runs[id];
    var k0 := StagedKey(r, r.next);
    assert OwnedBy(s', k0, id, r.next);
    forall k | k in s.table
      ensures Owned(s, k, id) <==> Owned(s', k, id)
    {
      if Owned(s, k, id) {
        var i: nat :| OwnedBy(s, k, id, i);
        assert OwnedBy(s', k, id, i);
      }
      if Owned(s', k, id) {
        var i: nat :| OwnedBy(s', k, id, i);
        assert OwnedBy(s, k, id, i);
      }
    }
    assert Erased(s', id).table == Erased(s, id).table;
    assert Erased(s', id).runs == Erased(s, id).runs;
  }

  /** The erased run's own actions have no effect on the erased state. */
  lemma OwnActionIsErased(s: Sys, a: Action)
    requires Inv(s) && Enabled(s, a) && Uncommitted(Step(s, a), a.id)
    ensures Erased(Step(s, a), a.id) == Erased(s, a.id)
  {
    hide ValidBatch, ValidGeneration, StagedInv, TableInv, HistoryInv, PointerInv;
    var s' := Step(s, a);
    var id := a.id;
    if id in s.runs { assert WellFormedRun(s.runs[id], s.used); }
    if a.Put? && !a.fault {
      NextKeyIsAbsent(s, id);
      StagingIsErased(s, id, s');
    } else {
      if a.Put? { NextKeyIsAbsent(s, id); }
      assert s'.runs - {id} == s.runs - {id};
      assert forall i: nat :: IsStaged(s', id, i) <==> IsStaged(s, id, i);
      if a.Begin? {
        PointerReadsNewest(s, s.runs[id].tenant);
        assert s'.used - {a.generation} == s.used;
      }
      SameOwnersErase(s, s', id);
    }
  }

  /** What another run's step does to the full state it does to the erased state. */
  ghost predicate Mirrors(s: Sys, s': Sys, id: nat, a: Action) {
    Enabled(Erased(s, id), a) && Erased(s', id) == Step(Erased(s, id), a)
  }

  lemma SameOwnersForOther(s: Sys, s': Sys, id: nat, k: (string, string))
    requires id in s.runs <==> id in s'.runs
    requires id in s.runs ==> s'.runs[id] == s.runs[id]
    ensures Owned(s, k, id) <==> Owned(s', k, id)
  {
    forall i: nat ensures OwnedBy(s, k, id, i) <==> OwnedBy(s', k, id, i) {
    }
  }

  lemma OtherStaging(s: Sys, j: nat, s': Sys, id: nat)
    requires RunsInv(s) && StagesNext(s, j, s') && j != id
    ensures Erased(s', id).table ==
              Erased(s, id).table[StagedKey(s.runs[j], s.runs[j].next) := Staged(s.runs[j].bundles[s.runs[j].next])]
  {
    var k0 := StagedKey(s.runs[j], s.runs[j].next);
    forall i: nat | OwnedBy(s', k0, id, i) ensures false {
      StagedKeysDiffer(s, j, s.runs[j].next, id, i);
    }
    forall k ensures Owned(s, k, id) <==> Owned(s', k, id) {
      SameOwnersForOther(s, s', id, k);
    }
  }

  lemma OtherSwing(s: Sys, j: nat, s': Sys, id: nat)
    requires Swung(s, j, s') && j != id
    ensures Erased(s', id).table ==
              Erased(s, id).table[PointerKey(s.runs[j].tenant) := Pointer(Gen(s, j), |s.runs[j].bundles|)]
  {
    ErasedPointers(s', id, s.runs[j].tenant);
    forall k ensures Owned(s, k, id) <==> Owned(s', k, id) {
      SameOwnersForOther(s, s', id, k);
    }
  }

  lemma OtherQuiet(s: Sys, s': Sys, id: nat)
    requires s'.table == s.table
    requires id in s.runs <==> id in s'.runs
    requires id in s.runs ==> s'.runs[id] == s.runs[id]
    ensures Erased(s', id).table == Erased(s, id).table
  {
    forall k ensures Owned(s, k, id) <==> Owned(s', k, id) {
      SameOwnersForOther(s, s', id, k);
    }
  }

  /** A put either stages the next bundle or fails the run; which of the two is the fault's choice. */
  lemma PutOutcome(s: Sys, a: Action)
    requires Inv(s) && Enabled(s, a) && a.Put?
    ensures a.fault ==> Step(s, a) == s.(runs := s.runs[a.id := s.runs[a.id].(phase := Failed)])
    ensures !a.fault ==> StagesNext(s, a.id, Step(s, a))
  {
    NextKeyIsAbsent(s, a.id);
  }

  lemma OtherPut(s: Sys, a: Action, id: nat)
    requires RunsInv(s) && Enabled(s, a) && a.Put? && a.id != id
    requires a.fault ==> Step(s, a) == s.(runs := s.runs[a.id := s.runs[a.id].(phase := Failed)])
    requires !a.fault ==> StagesNext(s, a.id, Step(s, a))
    requires StagedKey(s.runs[a.id], s.runs[a.id].next) !in s.table
    ensures Mirrors(s, Step(s, a), id, a)
  {
    var e, s' := Erased(s, id), Step(s, a);
    var r := s.runs[a.id];
    assert e.runs[a.id] == r;
    assert Erased(s', id).runs == e.runs[a.id := s'.runs[a.id]];
    if a.fault {
      OtherQuiet(s, s', id);
    } else {
      OtherStaging(s, a.id, s', id);
    }
  }

  /** A commit swings the pointer or fails the run. */
  lemma CommitOutcome(s: Sys, a: Action)
    requires Inv(s) && Enabled(s, a) && a.Commit?
    ensures var r := s.runs[a.id];
            r.stage.value.tenant == r.tenant &&
            if a.fault || !PutPointer(s.table, r.stage.value, |r.bundles|).1
            then Step(s, a) == s.(runs := s.runs[a.id := r.(phase := Failed)])
            else Swung(s, a.id, Step(s, a))
  {
    assert WellFormedRun(s.runs[a.id], s.used);
    CommitSucceedsIff(s, a.id);
  }

  lemma OtherCommit(s: Sys, a: Action, id: nat)
    requires Enabled(s, a) && a.Commit? && a.id != id
    requires var r := s.runs[a.id];
             r.stage.value.tenant == r.tenant &&
             if a.fault || !PutPointer(s.table, r.stage.value, |r.bundles|).1
             then Step(s, a) == s.(runs := s.runs[a.id := r.(phase := Failed)])
             else Swung(s, a.id, Step(s, a))
    ensures Mirrors(s, Step(s, a), id, a)
  {
    var e, s' := Erased(s, id), Step(s, a);
    var r := s.runs[a.id];
    assert e.runs[a.id] == r;
    ErasedPointers(s, id, r.tenant);
    assert PutPointer(e.table, r.stage.value, |r.bundles|).1 == PutPointer(s.table, r.stage.value, |r.bundles|).1;
    assert Erased(s', id).runs == e.runs[a.id := s'.runs[a.id]];
    if a.fault || !PutPointer(s.table, r.stage.value, |r.bundles|).1 {
      OtherQuiet(s, s', id);
    } else {
      OtherSwing(s, a.id, s', id);
    }
  }

  lemma OtherBegin(s: Sys, a: Action, id: nat)
    requires Inv(s) && Enabled(s, a) && a.Begin? && a.id != id
    ensures Mirrors(s, Step(s, a), id, a)
  {
    hide ValidBatch, ValidGeneration, StagedInv, TableInv, HistoryInv, PointerInv;
    var e, s' := Erased(s, id), Step(s, a);
    var r := s.runs[a.id];
    assert e.runs[a.id] == r;
    ErasedPointers(s, id, r.tenant);
    assert ReadPointer(e.table, r.tenant) == ReadPointer(s.table, r.tenant);
    OtherQuiet(s, s', id);
    assert Erased(s', id).runs == e.runs[a.id := s'.runs[a.id]];
    if id in s.runs { assert WellFormedRun(s.runs[id], s.used); }
    PointerReadsNewest(s, r.tenant);
    assert Erased(s', id).used == e.used + {a.generation};
  }

  lemma OtherLaunchOrCrash(s: Sys, a: Action, id: nat)
    requires Enabled(s, a) && (a.Launch? || a.Crash?) && a.id != id
    ensures Mirrors(s, Step(s, a), id, a)
  {
    var e, s' := Erased(s, id), Step(s, a);
    OtherQuiet(s, s', id);
    assert Erased(s', id).runs == e.runs[a.id := s'.runs[a.id]];
    assert a.id in s.runs ==> e.runs[a.id] == s.runs[a.id];
  }

  lemma OtherActionIsMirrored(s: Sys, a: Action, id: nat)
    requires Inv(s) && Enabled(s, a) && a.id != id
    ensures Mirrors(s, Step(s, a), id, a)
  {
    if a.Put? {
      PutOutcome(s, a);
      NextKeyIsAbsent(s, a.id);
      OtherPut(s, a, id);
    } else if a.Commit? {
      CommitOutcome(s, a);
      OtherCommit(s, a, id);
    } else if a.Begin? {
      OtherBegin(s, a, id);
    } else {
      OtherLaunchOrCrash(s, a, id);
    }
  }

  lemma {:induction false} ErasureSimulates(s: Sys, actions: seq<Action>, id: nat)
    requires Inv(s) && Legal(s, actions) && Uncommitted(After(s, actions), id)
    ensures Legal(Erased(s, id), WithoutRun(actions, id))
    ensures After(Erased(s, id), WithoutRun(actions, id)) == Erased(After(s, actions), id)
    decreases |actions|
  {
    if actions != [] {
      var a, rest := actions[0], actions[1..];
      var s' := Step(s, a);
      StepKeepsInv(s, a);
      AfterContinuesRuns(s', rest);
      assert Uncommitted(s', id) by {
        if id in s'.runs { assert Continues(s'.runs[id], After(s', rest).runs[id]); }
      }
      ErasureSimulates(s', rest, id);
      if a.id == id {
        OwnActionIsErased(s, a);
      } else {
        OtherActionIsMirrored(s, a, id);
        assert WithoutRun(actions, id)[1..] == WithoutRun(rest, id);
      }
    }
  }

  /**
   A run that fails before or at its commit is invisible. Take any execution from the empty
   table in which `id` does not commit and strike out that run's actions: what remains is an
   execution, it commits the same runs, and in both final states every tenant's pointer
   reads the same and so does every bundle under every generation but the failed run's own.
   */
  lemma FailedRunIsInvisible(actions: seq<Action>, id: nat)
    requires Legal(INIT, actions) && Uncommitted(After(INIT, actions), id)
    ensures Legal(INIT, WithoutRun(actions, id))
    ensures var s, e := After(INIT, actions), After(INIT, WithoutRun(actions, id));
            && e.history == s.history && e.runs == s.runs - {id}
            && (forall tenant :: ReadPointer(e.table, tenant) == ReadPointer(s.table, tenant))
            && (forall token: Token, pn, location ::
                  ValidGeneration(token.generation) && token.generation != Gen(s, id) ==>
                  ReadBundle(e.table, token, pn, location) == ReadBundle(s.table, token, pn, location))
            && (forall tenant, g :: ValidGeneration(g) && g != Gen(s, id) ==>
                  SortKeysUnder(e.table, tenant, g) == SortKeysUnder(s.table, tenant, g))
  {
    InitEstablishesInv();
    assert Erased(INIT, id) == INIT;
    ErasureSimulates(INIT, actions, id);
    LegalKeepsInv(INIT, actions);
    var s := After(INIT, actions);
    var e := Erased(s, id);
    forall tenant ensures ReadPointer(e.table, tenant) == ReadPointer(s.table, tenant) {
      ErasedPointers(s, id, tenant);
    }
    forall token: Token, pn, location | ValidGeneration(token.generation) && token.generation != Gen(s, id)
      ensures ReadBundle(e.table, token, pn, location) == ReadBundle(s.table, token, pn, location)
    {
      OtherGenerationSurvives(s, id, (token.tenant, BundleSortKey(token.generation, pn, location)), token.generation);
    }
    forall tenant, g | ValidGeneration(g) && g != Gen(s, id)
      ensures SortKeysUnder(e.table, tenant, g) == SortKeysUnder(s.table, tenant, g)
    {
      forall k | k in SortKeysUnder(s.table, tenant, g) ensures k in SortKeysUnder(e.table, tenant, g) {
        OtherGenerationSurvives(s, id, (tenant, k), g);
        assert (tenant, k) in e.table;
      }
    }
  }

  lemma OtherGenerationSurvives(s: Sys, id: nat, k: (string, string), g: string)
    requires Inv(s) && ValidGeneration(g) && g != Gen(s, id)
    requires BundlePrefix(g) <= k.1
    ensures k in Erased(s, id).table <==> k in s.table
    ensures k in s.table ==> Erased(s, id).table[k] == s.table[k]
  {
    forall i: nat | OwnedBy(s, k, id, i) ensures false {
      var b := s.runs[id].bundles[i];
      assert WellFormedRun(s.runs[id], s.used);
      PrefixSelectsGeneration(g, Gen(s, id), b.pn, b.location);
    }
  }
}
