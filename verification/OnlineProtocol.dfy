/**
 Publication of online populations as a state machine: any number of `populate_online` runs,
 for any tenants, interleaved request by request, with failed requests and crashes anywhere.
 */
module OnlineProtocol {
  import opened Wrappers
  import opened OnlineKeys
  import opened OnlineTable

  datatype Phase = Ready | Staging | Committed | Failed

  /** One `populate_online` call after its preflight: `next` bundles are staged so far. */
  datatype Run = Run(tenant: string, bundles: seq<Bundle>, stage: Option<Stage>, next: nat, phase: Phase)

  /**
   The table, the runs, the generations handed out so far, and, as a history variable, the
   committed runs of every tenant in commit order.
   */
  datatype Sys = Sys(table: Table, runs: map<nat, Run>, used: set<string>, history: map<string, seq<nat>>)

  datatype Action =
    | Launch(id: nat, tenant: string, bundles: seq<Bundle>)
    | Begin(id: nat, generation: string)
    | Put(id: nat, fault: bool)
    | Commit(id: nat, fault: bool)
    | Crash(id: nat)

  const INIT := Sys(map[], map[], {}, map[])

  function HistoryOf(s: Sys, tenant: string): seq<nat> {
    if tenant in s.history then s.history[tenant] else []
  }

  predicate Enabled(s: Sys, a: Action) {
    match a
    case Launch(id, tenant, bundles) => id !in s.runs && ValidBatch(tenant, bundles)
    case Begin(id, g) =>
      id in s.runs && s.runs[id].phase == Ready && ValidGeneration(g) && g !in s.used
    case Put(id, _) =>
      id in s.runs && s.runs[id].phase == Staging && s.runs[id].stage.Some?
      && s.runs[id].next < |s.runs[id].bundles|
    case Commit(id, _) =>
      id in s.runs && s.runs[id].phase == Staging && s.runs[id].stage.Some?
      && s.runs[id].next == |s.runs[id].bundles|
    case Crash(id) => id in s.runs && s.runs[id].phase in {Ready, Staging}
  }

  function Step(s: Sys, a: Action): Sys
    requires Enabled(s, a)
  {
    match a
    case Launch(id, tenant, bundles) =>
      s.(runs := s.runs[id := Run(tenant, bundles, None, 0, Ready)])
    case Begin(id, g) =>
      var r := s.runs[id];
      (match ReadPointer(s.table, r.tenant)
       case Err(_) => s.(runs := s.runs[id := r.(phase := Failed)])
       case Ok(p) =>
         var previous := if p.None? then None else Some(p.value.generation);
         s.(runs := s.runs[id := r.(stage := Some(Stage(r.tenant, g, previous)), phase := Staging)],
            used := s.used + {g}))
    case Put(id, fault) =>
      var r := s.runs[id];
      var (table, ok) := PutBundle(s.table, r.stage.value, r.bundles[r.next]);
      if fault || !ok then s.(runs := s.runs[id := r.(phase := Failed)])
      else s.(table := table, runs := s.runs[id := r.(next := r.next + 1)])
    case Commit(id, fault) =>
      var r := s.runs[id];
      var (table, ok) := PutPointer(s.table, r.stage.value, |r.bundles|);
      if fault || !ok then s.(runs := s.runs[id := r.(phase := Failed)])
      else s.(table := table, runs := s.runs[id := r.(phase := Committed)],
              history := s.history[r.tenant := HistoryOf(s, r.tenant) + [id]])
    case Crash(id) =>
      s.(runs := s.runs[id := s.runs[id].(phase := Failed)])
  }

  /** Every action is enabled when its turn comes. */
  predicate Legal(s: Sys, actions: seq<Action>)
    decreases |actions|
  {
    actions == [] || (Enabled(s, actions[0]) && Legal(Step(s, actions[0]), actions[1..]))
  }

  function After(s: Sys, actions: seq<Action>): Sys
    requires Legal(s, actions)
    decreases |actions|
  {
    if actions == [] then s else After(Step(s, actions[0]), actions[1..])
  }

  // ----- the inductive invariant -----

  ghost predicate WellFormedRun(r: Run, used: set<string>) {
    && ValidBatch(r.tenant, r.bundles)
    && r.next <= |r.bundles|
    && (r.stage.None? ==> r.next == 0 && r.phase in {Ready, Failed})
    && (r.stage.Some? ==> r.phase != Ready && r.stage.value.tenant == r.tenant
                          && ValidGeneration(r.stage.value.generation)
                          && r.stage.value.generation in used
                          && (r.stage.value.previous.Some? ==> ValidGeneration(r.stage.value.previous.value)))
    && (r.phase == Committed ==> r.next == |r.bundles|)
  }

  ghost predicate Begun(s: Sys, id: nat) {
    id in s.runs && s.runs[id].stage.Some?
  }

  /** The generation a run has begun, empty before that. */
  ghost function Gen(s: Sys, id: nat): string {
    if Begun(s, id) then s.runs[id].stage.value.generation else ""
  }

  /** The pointer a run saw when it began, the base of its compare-and-swap. */
  ghost function Base(s: Sys, id: nat): Option<string> {
    if Begun(s, id) then s.runs[id].stage.value.previous else None
  }

  ghost predicate RunsInv(s: Sys) {
    && (forall id :: id in s.runs ==> WellFormedRun(s.runs[id], s.used))
    && (forall id, id' :: Begun(s, id) && Begun(s, id') && id != id' ==> Gen(s, id) != Gen(s, id'))
  }

  /** Table key of the `i`-th bundle of a run. */
  function StagedKey(r: Run, i: nat): (string, string)
    requires r.stage.Some? && i < |r.bundles|
  {
    BundleKey(r.stage.value.generation, r.bundles[i])
  }

  /** The `i`-th bundle of run `id` has been staged. */
  ghost predicate IsStaged(s: Sys, id: nat, i: nat) {
    Begun(s, id) && i < s.runs[id].next && i < |s.runs[id].bundles|
  }

  /** Every staged bundle is in the table as staged. */
  ghost predicate StagedInv(s: Sys) {
    forall id: nat, i: nat :: IsStaged(s, id, i) ==>
      StagedKey(s.runs[id], i) in s.table
      && s.table[StagedKey(s.runs[id], i)] == Staged(s.runs[id].bundles[i])
  }

  ghost predicate OwnedBy(s: Sys, k: (string, string), id: nat, i: nat) {
    IsStaged(s, id, i) && k == StagedKey(s.runs[id], i)
  }

  /** Nothing else is in the table but the tenants' pointers. */
  ghost predicate TableInv(s: Sys) {
    forall k :: k in s.table && k.1 != POINTER_SORT_KEY ==> exists id, i :: OwnedBy(s, k, id, i)
  }

  ghost predicate CommittedRun(s: Sys, id: nat, tenant: string) {
    Begun(s, id) && s.runs[id].phase == Committed && s.runs[id].tenant == tenant
  }

  /** The generation a tenant's pointer holds after the commits `h`. */
  ghost function HeadOf(s: Sys, h: seq<nat>): Option<string> {
    if h == [] then None else Some(Gen(s, h[|h| - 1]))
  }

  /**
   A tenant's history lists committed runs, each once, and forms a chain: the base of
   every run in it is the generation of the run committed just before.
   */
  ghost predicate Chain(s: Sys, tenant: string, h: seq<nat>) {
    h == [] ||
    var before, last := h[..|h| - 1], h[|h| - 1];
    && Chain(s, tenant, before)
    && CommittedRun(s, last, tenant)
    && last !in before
    && Base(s, last) == HeadOf(s, before)
  }

  ghost predicate HistoryInv(s: Sys) {
    && (forall t :: Chain(s, t, HistoryOf(s, t)))
    && (forall id :: id in s.runs && s.runs[id].phase == Committed ==> id in HistoryOf(s, s.runs[id].tenant))
  }

  /** A tenant's pointer item is that of the last run in its history. */
  ghost predicate PointsToLast(s: Sys, tenant: string, h: seq<nat>) {
    if h == [] then PointerKey(tenant) !in s.table
    else
      var last := h[|h| - 1];
      Begun(s, last) && PointerKey(tenant) in s.table
      && s.table[PointerKey(tenant)] == Pointer(Gen(s, last), |s.runs[last].bundles|)
  }

  ghost predicate PointerInv(s: Sys) {
    forall t :: PointsToLast(s, t, HistoryOf(s, t))
  }

  ghost predicate Inv(s: Sys) {
    RunsInv(s) && StagedInv(s) && TableInv(s) && HistoryInv(s) && PointerInv(s)
  }

  lemma InitEstablishesInv()
    ensures Inv(INIT)
  {
  }

  // ----- preservation, one action at a time -----

  /** Keys of different staged bundles differ, within a run and across runs. */
  lemma StagedKeysDiffer(s: Sys, id: nat, i: nat, id': nat, i': nat)
    requires RunsInv(s) && Begun(s, id) && Begun(s, id')
    requires i < |s.runs[id].bundles| && i' < |s.runs[id'].bundles|
    ensures StagedKey(s.runs[id], i) == StagedKey(s.runs[id'], i') <==> id == id' && i == i'
  {
    var r, r' := s.runs[id], s.runs[id'];
    var b, b' := r.bundles[i], r'.bundles[i'];
    assert WellFormedRun(r, s.used) && WellFormedRun(r', s.used);
    BundleSortKeyInjective(Gen(s, id), b.pn, b.location, Gen(s, id'), b'.pn, b'.location);
    if id == id' && i != i' {
      assert KeyOf(b) != KeyOf(b');
    }
  }

  lemma StagedKeyIsNoPointer(r: Run, i: nat)
    requires r.stage.Some? && i < |r.bundles|
    ensures StagedKey(r, i).1 != POINTER_SORT_KEY
  {
    PointerIsNoBundleKey(r.stage.value.generation, r.bundles[i].pn, r.bundles[i].location);
  }

  /** The run keeps its identity, its staged bundles and, once begun, its stage. */
  ghost predicate Continues(r: Run, r': Run) {
    && r'.tenant == r.tenant && r'.bundles == r.bundles
    && r.next <= r'.next
    && (r.stage.Some? ==> r'.stage == r.stage)
    && (r.phase == Committed ==> r' == r)
  }

  ghost predicate RunsContinue(s: Sys, s': Sys) {
    forall id :: id in s.runs ==> id in s'.runs && Continues(s.runs[id], s'.runs[id])
  }

  lemma OwnersRemain(s: Sys, s': Sys, k: (string, string))
    requires RunsContinue(s, s')
    requires exists id, i :: OwnedBy(s, k, id, i)
    ensures exists id, i :: OwnedBy(s', k, id, i)
  {
    var id, i :| OwnedBy(s, k, id, i);
    assert OwnedBy(s', k, id, i);
  }

  lemma {:induction false} ChainRemains(s: Sys, s': Sys, tenant: string, h: seq<nat>)
    requires RunsContinue(s, s') && Chain(s, tenant, h)
    ensures Chain(s', tenant, h) && HeadOf(s', h) == HeadOf(s, h)
  {
    if h != [] {
      ChainRemains(s, s', tenant, h[..|h| - 1]);
    }
  }

  lemma {:induction false} ChainMembers(s: Sys, tenant: string, h: seq<nat>, id: nat)
    requires Chain(s, tenant, h) && id in h
    ensures CommittedRun(s, id, tenant)
  {
    if id != h[|h| - 1] {
      ChainMembers(s, tenant, h[..|h| - 1], id);
    }
  }

  lemma GensStayDistinct(s: Sys, s': Sys)
    requires RunsInv(s)
    requires forall id :: Begun(s', id) ==> Begun(s, id) && Gen(s', id) == Gen(s, id)
    requires forall id :: id in s'.runs ==> WellFormedRun(s'.runs[id], s'.used)
    ensures RunsInv(s')
  {
    forall id, id' | Begun(s', id) && Begun(s', id') && id != id' ensures Gen(s', id) != Gen(s', id') {
      assert Begun(s, id) && Begun(s, id');
    }
  }

  /** Without new commits, a step that leaves the pointers alone keeps chains and pointers. */
  lemma HistoryRemains(s: Sys, s': Sys)
    requires HistoryInv(s) && PointerInv(s) && RunsContinue(s, s') && s'.history == s.history
    requires forall t :: PointerKey(t) in s'.table <==> PointerKey(t) in s.table
    requires forall t :: PointerKey(t) in s.table ==> s'.table[PointerKey(t)] == s.table[PointerKey(t)]
    requires forall id :: id in s'.runs && s'.runs[id].phase == Committed ==>
               id in s.runs && s.runs[id].phase == Committed
    ensures HistoryInv(s') && PointerInv(s')
  {
    forall t ensures Chain(s', t, HistoryOf(s', t)) && PointsToLast(s', t, HistoryOf(s', t)) {
      var h := HistoryOf(s, t);
      assert Chain(s, t, h);
      ChainRemains(s, s', t, h);
      assert PointsToLast(s, t, h);
    }
  }

  /** A step that touches neither table nor history, and commits nobody, keeps the invariant. */
  lemma QuietStepKeepsInv(s: Sys, s': Sys)
    requires Inv(s) && RunsInv(s') && RunsContinue(s, s')
    requires s'.table == s.table && s'.history == s.history
    requires forall id: nat, i: nat :: IsStaged(s', id, i) ==> IsStaged(s, id, i)
    requires forall id :: id in s'.runs && s'.runs[id].phase == Committed ==>
               id in s.runs && s.runs[id].phase == Committed
    ensures Inv(s')
  {
    forall k | k in s'.table && k.1 != POINTER_SORT_KEY ensures exists id, i :: OwnedBy(s', k, id, i) {
      OwnersRemain(s, s', k);
    }
    HistoryRemains(s, s');
  }

  lemma FailKeepsInv(s: Sys, id: nat, s': Sys)
    requires Inv(s) && id in s.runs && s.runs[id].phase in {Ready, Staging}
    requires s' == s.(runs := s.runs[id := s.runs[id].(phase := Failed)])
    ensures Inv(s')
  {
    assert forall id: nat, i: nat :: IsStaged(s', id, i) ==> IsStaged(s, id, i);
    assert WellFormedRun(s.runs[id], s.used);
    GensStayDistinct(s, s');
    QuietStepKeepsInv(s, s');
  }

  lemma LaunchKeepsInv(s: Sys, a: Action)
    requires Inv(s) && a.Launch? && Enabled(s, a)
    ensures Inv(Step(s, a))
  {
    var s' := Step(s, a);
    assert forall id: nat, i: nat :: IsStaged(s', id, i) ==> IsStaged(s, id, i);
    GensStayDistinct(s, s');
    QuietStepKeepsInv(s, s');
  }

  /** In a reachable state the pointer read never errors: it yields the newest committed run. */
  lemma PointerReadsNewest(s: Sys, tenant: string)
    requires Inv(s)
    ensures var h := HistoryOf(s, tenant);
            Chain(s, tenant, h) &&
            ReadPointer(s.table, tenant) ==
            if h == [] then Ok(None)
            else Ok(Some(Token(tenant, Gen(s, h[|h| - 1]), |s.runs[h[|h| - 1]].bundles|)))
  {
    var h := HistoryOf(s, tenant);
    assert Chain(s, tenant, h) && PointsToLast(s, tenant, h);
    if h != [] {
      assert CommittedRun(s, h[|h| - 1], tenant);
      assert WellFormedRun(s.runs[h[|h| - 1]], s.used);
    }
  }

  lemma BegunKeepsInv(s: Sys, id: nat, stage: Stage, s': Sys)
    requires Inv(s) && id in s.runs && s.runs[id].phase == Ready
    requires stage.tenant == s.runs[id].tenant && ValidGeneration(stage.generation) && stage.generation !in s.used
    requires stage.previous.Some? ==> ValidGeneration(stage.previous.value)
    requires s' == s.(runs := s.runs[id := s.runs[id].(stage := Some(stage), phase := Staging)],
                      used := s.used + {stage.generation})
    ensures Inv(s')
  {
    hide ValidBatch, ValidGeneration, StagedInv, TableInv, HistoryInv, PointerInv, HistoryOf;
    assert WellFormedRun(s.runs[id], s.used) && s.runs[id].next == 0;
    forall j | j in s'.runs ensures WellFormedRun(s'.runs[j], s'.used) {
      assert WellFormedRun(s.runs[j], s.used);
    }
    forall j | Begun(s', j) && j != id ensures Begun(s, j) && Gen(s', j) == Gen(s, j) && Gen(s, j) in s.used {
      assert WellFormedRun(s.runs[j], s.used);
    }
    assert RunsInv(s');
    QuietStepKeepsInv(s, s');
  }

  lemma BeginKeepsInv(s: Sys, a: Action)
    requires Inv(s) && a.Begin? && Enabled(s, a)
    ensures Inv(Step(s, a))
  {
    var tenant := s.runs[a.id].tenant;
    PointerReadsNewest(s, tenant);
    var p := ReadPointer(s.table, tenant).value;
    var previous := if p.None? then None else Some(p.value.generation);
    BegunKeepsInv(s, a.id, Stage(tenant, a.generation, previous), Step(s, a));
  }

  /** The put of a run's next bundle meets its condition: the key is still absent. */
  lemma NextKeyIsAbsent(s: Sys, id: nat)
    requires Inv(s) && Begun(s, id) && s.runs[id].next < |s.runs[id].bundles|
    ensures StagedKey(s.runs[id], s.runs[id].next) !in s.table
  {
    var r := s.runs[id];
    var k := StagedKey(r, r.next);
    StagedKeyIsNoPointer(r, r.next);
    if k in s.table {
      var id', i :| OwnedBy(s, k, id', i);
      StagedKeysDiffer(s, id, r.next, id', i);
    }
  }

  /** `s'` is `s` after the run `id` has staged its next bundle. */
  ghost predicate StagesNext(s: Sys, id: nat, s': Sys) {
    && Begun(s, id) && s.runs[id].phase == Staging && s.runs[id].next < |s.runs[id].bundles|
    && var r := s.runs[id];
       s' == s.(table := s.table[StagedKey(r, r.next) := Staged(r.bundles[r.next])],
                runs := s.runs[id := r.(next := r.next + 1)])
  }

  lemma StagingKeepsStaged(s: Sys, id: nat, s': Sys)
    requires RunsInv(s) && StagedInv(s) && StagesNext(s, id, s')
    ensures StagedInv(s')
  {
    var r := s.runs[id];
    forall id': nat, i: nat | IsStaged(s', id', i)
      ensures StagedKey(s'.runs[id'], i) in s'.table
              && s'.table[StagedKey(s'.runs[id'], i)] == Staged(s'.runs[id'].bundles[i])
    {
      StagedKeysDiffer(s, id, r.next, id', i);
      if !(id' == id && i == r.next) {
        assert IsStaged(s, id', i);
      }
    }
  }

  lemma StagingKeepsTable(s: Sys, id: nat, s': Sys)
    requires TableInv(s) && StagesNext(s, id, s')
    ensures TableInv(s')
  {
    var r := s.runs[id];
    forall k | k in s'.table && k.1 != POINTER_SORT_KEY ensures exists id', i :: OwnedBy(s', k, id', i) {
      if k == StagedKey(r, r.next) {
        assert OwnedBy(s', k, id, r.next);
      } else {
        OwnersRemain(s, s', k);
      }
    }
  }

  lemma StagingKeepsRuns(s: Sys, id: nat, s': Sys)
    requires RunsInv(s) && StagesNext(s, id, s')
    ensures RunsInv(s')
  {
    assert WellFormedRun(s.runs[id], s.used);
    GensStayDistinct(s, s');
  }

  lemma StagingKeepsHistory(s: Sys, id: nat, s': Sys)
    requires HistoryInv(s) && PointerInv(s) && StagesNext(s, id, s')
    ensures HistoryInv(s') && PointerInv(s')
  {
    StagedKeyIsNoPointer(s.runs[id], s.runs[id].next);
    HistoryRemains(s, s');
  }

  lemma StagingKeepsInv(s: Sys, id: nat, s': Sys)
    requires Inv(s) && StagesNext(s, id, s')
    ensures Inv(s')
  {
    StagingKeepsRuns(s, id, s');
    StagingKeepsStaged(s, id, s');
    StagingKeepsTable(s, id, s');
    StagingKeepsHistory(s, id, s');
  }

  lemma PutKeepsInv(s: Sys, a: Action)
    requires Inv(s) && a.Put? && Enabled(s, a)
    ensures Inv(Step(s, a))
  {
    NextKeyIsAbsent(s, a.id);
    if a.fault {
      FailKeepsInv(s, a.id, Step(s, a));
    } else {
      StagingKeepsInv(s, a.id, Step(s, a));
    }
  }

  /** A commit succeeds exactly when the pointer still is the stage's base. */
  lemma CommitSucceedsIff(s: Sys, id: nat)
    requires Inv(s) && Begun(s, id)
    ensures var r := s.runs[id];
            var h := HistoryOf(s, r.tenant);
            Chain(s, r.tenant, h) &&
            (PutPointer(s.table, r.stage.value, |r.bundles|).1 <==> r.stage.value.previous == HeadOf(s, h))
  {
    var r := s.runs[id];
    assert WellFormedRun(r, s.used);
    PointerReadsNewest(s, r.tenant);
    var h := HistoryOf(s, r.tenant);
    assert PointsToLast(s, r.tenant, h);
  }

  /** `s'` is `s` after the run `id` has swung its tenant's pointer. */
  ghost predicate Swung(s: Sys, id: nat, s': Sys) {
    && Begun(s, id) && s.runs[id].phase == Staging
    && var r := s.runs[id];
       var h := HistoryOf(s, r.tenant);
       && r.stage.value.previous == HeadOf(s, h)
       && r.stage.value.tenant == r.tenant && r.next == |r.bundles|
       && s' == s.(table := s.table[PointerKey(r.tenant) := Pointer(r.stage.value.generation, |r.bundles|)],
                   runs := s.runs[id := r.(phase := Committed)],
                   history := s.history[r.tenant := h + [id]])
  }

  lemma SwungKeepsStaged(s: Sys, id: nat, s': Sys)
    requires StagedInv(s) && Swung(s, id, s')
    ensures StagedInv(s')
  {
    forall j: nat, i: nat | IsStaged(s', j, i)
      ensures StagedKey(s'.runs[j], i) in s'.table
              && s'.table[StagedKey(s'.runs[j], i)] == Staged(s'.runs[j].bundles[i])
    {
      assert IsStaged(s, j, i);
      StagedKeyIsNoPointer(s.runs[j], i);
    }
  }

  lemma SwungKeepsTable(s: Sys, id: nat, s': Sys)
    requires TableInv(s) && Swung(s, id, s')
    ensures TableInv(s')
  {
    forall k | k in s'.table && k.1 != POINTER_SORT_KEY ensures exists j, i :: OwnedBy(s', k, j, i) {
      OwnersRemain(s, s', k);
    }
  }

  lemma SwungContinues(s: Sys, id: nat, s': Sys)
    requires Swung(s, id, s')
    ensures RunsContinue(s, s') && CommittedRun(s', id, s.runs[id].tenant)
    ensures Base(s', id) == Base(s, id) == HeadOf(s, HistoryOf(s, s.runs[id].tenant))
    ensures forall t :: HistoryOf(s', t) == if t == s.runs[id].tenant then HistoryOf(s, t) + [id] else HistoryOf(s, t)
  {
  }

  lemma ChainExtends(s: Sys, tenant: string, h: seq<nat>, id: nat)
    requires Chain(s, tenant, h) && CommittedRun(s, id, tenant) && id !in h && Base(s, id) == HeadOf(s, h)
    ensures Chain(s, tenant, h + [id])
  {
    assert (h + [id])[..|h|] == h;
  }

  /** The tenant of the run: its chain grows by the run, and its pointer is the run's. */
  lemma SwungExtendsOwnChain(s: Sys, id: nat, s': Sys)
    requires HistoryInv(s) && Swung(s, id, s')
    ensures var t := s.runs[id].tenant;
            Chain(s', t, HistoryOf(s', t)) && PointsToLast(s', t, HistoryOf(s', t))
  {
    var t := s.runs[id].tenant;
    var h := HistoryOf(s, t);
    SwungContinues(s, id, s');
    assert Chain(s, t, h);
    assert id !in h by {
      if id in h { ChainMembers(s, t, h, id); }
    }
    hide Chain, HistoryInv;
    ChainRemains(s, s', t, h);
    ChainExtends(s', t, h, id);
  }

  lemma SwungKeepsOtherChain(s: Sys, id: nat, s': Sys, t: string)
    requires HistoryInv(s) && PointerInv(s) && Swung(s, id, s') && t != s.runs[id].tenant
    ensures Chain(s', t, HistoryOf(s', t)) && PointsToLast(s', t, HistoryOf(s', t))
  {
    var h := HistoryOf(s, t);
    assert Chain(s, t, h) && PointsToLast(s, t, h);
    SwungContinues(s, id, s');
    ChainRemains(s, s', t, h);
    hide Chain, HistoryInv, PointerInv;
    assert PointerKey(t) != PointerKey(s.runs[id].tenant);
  }

  lemma SwungRecordsCommits(s: Sys, id: nat, s': Sys, j: nat)
    requires HistoryInv(s) && Swung(s, id, s') && j in s'.runs && s'.runs[j].phase == Committed
    ensures j in HistoryOf(s', s'.runs[j].tenant)
  {
    SwungContinues(s, id, s');
    if j == id {
      var h := HistoryOf(s, s.runs[id].tenant);
      assert (h + [id])[|h|] == id;
    } else {
      assert j in HistoryOf(s, s.runs[j].tenant);
    }
  }

  lemma SwungKeepsHistory(s: Sys, id: nat, s': Sys)
    requires HistoryInv(s) && PointerInv(s) && Swung(s, id, s')
    ensures HistoryInv(s') && PointerInv(s')
  {
    hide Chain, PointsToLast, HistoryOf;
    forall t ensures Chain(s', t, HistoryOf(s', t)) && PointsToLast(s', t, HistoryOf(s', t)) {
      if t == s.runs[id].tenant {
        SwungExtendsOwnChain(s, id, s');
      } else {
        SwungKeepsOtherChain(s, id, s', t);
      }
    }
    forall j | j in s'.runs && s'.runs[j].phase == Committed ensures j in HistoryOf(s', s'.runs[j].tenant) {
      SwungRecordsCommits(s, id, s', j);
    }
  }

  lemma CommitKeepsInv(s: Sys, a: Action)
    requires Inv(s) && a.Commit? && Enabled(s, a)
    ensures Inv(Step(s, a))
  {
    var r := s.runs[a.id];
    assert WellFormedRun(r, s.used);
    CommitSucceedsIff(s, a.id);
    if a.fault || r.stage.value.previous != HeadOf(s, HistoryOf(s, r.tenant)) {
      FailKeepsInv(s, a.id, Step(s, a));
    } else {
      assert Swung(s, a.id, Step(s, a));
      GensStayDistinct(s, Step(s, a));
      SwungKeepsStaged(s, a.id, Step(s, a));
      SwungKeepsTable(s, a.id, Step(s, a));
      SwungKeepsHistory(s, a.id, Step(s, a));
    }
  }

  lemma StepKeepsInv(s: Sys, a: Action)
    requires Inv(s) && Enabled(s, a)
    ensures Inv(Step(s, a))
  {
    match a
    case Launch(_, _, _) => LaunchKeepsInv(s, a);
    case Begin(_, _) => BeginKeepsInv(s, a);
    case Put(_, _) => PutKeepsInv(s, a);
    case Commit(_, _) => CommitKeepsInv(s, a);
    case Crash(id) => FailKeepsInv(s, id, Step(s, a));
  }

  lemma {:induction false} LegalKeepsInv(s: Sys, actions: seq<Action>)
    requires Inv(s) && Legal(s, actions)
    ensures Inv(After(s, actions))
    decreases |actions|
  {
    if actions != [] {
      StepKeepsInv(s, actions[0]);
      LegalKeepsInv(Step(s, actions[0]), actions[1..]);
    }
  }
}
