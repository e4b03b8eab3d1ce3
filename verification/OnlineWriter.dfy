/**
 `populate_online`: preflight of a whole population, staging under a fresh generation, and one
 compare-and-swap of the tenant's pointer, on a table other runs keep changing.
 */
module OnlineWriter {
  import opened Wrappers
  import opened Ordering
  import opened PythonText
  import opened OnlineKeys
  import opened OnlineTable
  import opened OnlineProtocol
  import opened OnlineGuarantees
  import opened OnlineStore

  /** An element of the caller's key iterable: a pair of strings, or anything else. */
  datatype RawKey = Pair(pn: string, location: string) | NotAPair

  /** What `materialize_bundle` reads for a key: the feature groups present and the JSON text. */
  datatype Features = Features(groups: set<string>, body: string)

  datatype PopulateResult = PopulateResult(written: nat, skippedIncomplete: nat, failedOversize: nat,
                                           failedWrites: nat, committedGeneration: Option<string>)

  /** How a request fails, if it does: DynamoDB's item-size rejection or any other error. */
  datatype Fault = NoFault | SizeRejected | OtherError

  /** What happens around one request of this run. */
  datatype Gap = Gap(actions: seq<Action>, fault: Fault)

  const SAFE_DYNAMODB_ITEM_BYTES := 390 * 1024

  function Utf8Bytes(s: string): nat {
    if s == "" then 0
    else (if s[0] < '\U{80}' then 1 else if s[0] < '\U{800}' then 2 else if s[0] < '\U{10000}' then 3 else 4)
         + Utf8Bytes(s[1..])
  }

  /** `_estimated_item_bytes`: attribute names, key parts, a 160-byte margin and the body. */
  function EstimatedItemBytes(b: Bundle): nat {
    |"tenant_id"| + Utf8Bytes(b.tenant) + |"pn_location"| + 160
    + Utf8Bytes(b.pn) + Utf8Bytes(b.location) + |"body"| + Utf8Bytes(b.body)
  }

  predicate Oversized(b: Bundle) {
    EstimatedItemBytes(b) > SAFE_DYNAMODB_ITEM_BYTES
  }

  // ----- what the estimate estimates -----

  /** The bytes of one character, section 3 of RFC 3629. */
  function Utf8Char(c: char): seq<int> {
    var n := c as int;
    var six, twelve, eighteen := n / 64, n / 64 / 64, n / 64 / 64 / 64;
    if n <= 0x7f then [n]
    else if n <= 0x7ff then [0xc0 + six, 0x80 + n % 64]
    else if n <= 0xffff then [0xe0 + twelve, 0x80 + six % 64, 0x80 + n % 64]
    else [0xf0 + eighteen, 0x80 + twelve % 64, 0x80 + six % 64, 0x80 + n % 64]
  }

  /** The character that such bytes stand for, read off the lead byte. */
  function FromUtf8(bytes: seq<int>): int
    requires 1 <= |bytes| <= 4
  {
    if |bytes| == 1 then bytes[0]
    else if |bytes| == 2 then (bytes[0] - 192) * 64 + (bytes[1] - 128)
    else if |bytes| == 3 then (bytes[0] - 224) * 4096 + (bytes[1] - 128) * 64 + (bytes[2] - 128)
    else (bytes[0] - 240) * 262144 + (bytes[1] - 128) * 4096 + (bytes[2] - 128) * 64 + (bytes[3] - 128)
  }

  /** Every character has one encoding: a lead byte that tells its length, continuation bytes, and the value back. */
  lemma Utf8CharDecodes(c: char)
    ensures var bytes := Utf8Char(c);
            && 1 <= |bytes| <= 4 && FromUtf8(bytes) == c as int
            && (|bytes| == 1 <==> bytes[0] < 128)
            && (|bytes| == 2 <==> 192 <= bytes[0] < 224)
            && (|bytes| == 3 <==> 224 <= bytes[0] < 240)
            && (|bytes| == 4 <==> 240 <= bytes[0] < 248)
            && forall i :: 1 <= i < |bytes| ==> 128 <= bytes[i] < 192
  {
    var n := c as int;
    assert n < 0x11_0000;
    var six, twelve := n / 64, n / 64 / 64;
    assert n == 64 * six + n % 64 && six == 64 * twelve + six % 64;
  }

  function Utf8(s: string): seq<int> {
    if s == "" then [] else Utf8Char(s[0]) + Utf8(s[1..])
  }

  lemma {:induction false} Utf8Length(s: string)
    ensures Utf8Bytes(s) == |Utf8(s)|
  {
    if s != "" {
      Utf8Length(s[1..]);
    }
  }

  /** A bundle is refused exactly when its texts as UTF-8, with 184 bytes for the rest, exceed 390 KiB. */
  lemma OversizedIff(b: Bundle)
    ensures Oversized(b) <==>
              |Utf8(b.tenant)| + |Utf8(b.pn)| + |Utf8(b.location)| + |Utf8(b.body)| + 184 > 399360
  {
    Utf8Length(b.tenant);
    Utf8Length(b.pn);
    Utf8Length(b.location);
    Utf8Length(b.body);
    assert |"tenant_id"| == 9 && |"pn_location"| == 11 && |"body"| == 4;
  }

  // ----- keys and populations -----

  predicate ValidRawKey(k: RawKey) {
    k.Pair? && k.pn != "" && k.location != ""
  }

  /** The distinct keys the caller named. */
  function NamedKeys(raw: seq<RawKey>): set<Key> {
    set k | k in raw && k.Pair? :: (k.pn, k.location)
  }

  function BundleFor(tenant: string, key: Key, offline: (string, string) -> Features): Bundle {
    var f := offline(key.0, key.1);
    Bundle(tenant, key.0, key.1, f.groups, f.body)
  }

  predicate Complete(key: Key, offline: (string, string) -> Features, required: set<string>) {
    required <= offline(key.0, key.1).groups
  }

  /** The named keys that will be written; the others are skipped. */
  ghost function CompleteKeys(keys: set<Key>, offline: (string, string) -> Features, required: set<string>): set<Key> {
    set k | k in keys && Complete(k, offline, required)
  }

  /** The population to publish: one bundle per complete key, in key order. */
  ghost predicate IsPopulation(bundles: seq<Bundle>, tenant: string, keys: set<Key>,
                               offline: (string, string) -> Features, required: set<string>) {
    && (forall b :: b in bundles ==> b == BundleFor(tenant, KeyOf(b), offline))
    && KeysOf(bundles) == CompleteKeys(keys, offline, required)
    && (forall i, j :: 0 <= i < j < |bundles| ==>
          KeyOf(bundles[i]) != KeyOf(bundles[j]) && PairLe(KeyOf(bundles[i]), KeyOf(bundles[j])))
  }

  lemma NamedKeysAre(raw: seq<RawKey>)
    ensures forall pn, location :: (pn, location) in NamedKeys(raw) <==> Pair(pn, location) in raw
  {
    forall pn, location | Pair(pn, location) in raw ensures (pn, location) in NamedKeys(raw) {
      assert Pair(pn, location).Pair?;
    }
  }

  /**
   What is published: for every named key whose feature groups include the required ones, and for no
   other, one bundle with the groups and the body that the offline store has for that very key.
   */
  ghost predicate Materializes(bundles: seq<Bundle>, tenant: string, keys: set<Key>,
                               offline: (string, string) -> Features, required: set<string>) {
    && (forall b :: b in bundles ==>
          && b.tenant == tenant && (b.pn, b.location) in keys
          && b.groups == offline(b.pn, b.location).groups && b.body == offline(b.pn, b.location).body
          && required <= b.groups)
    && (forall pn, location :: (pn, location) in keys && required <= offline(pn, location).groups ==>
          exists b :: b in bundles && b.pn == pn && b.location == location)
    && (forall i, j :: 0 <= i < j < |bundles| ==>
          (bundles[i].pn, bundles[i].location) != (bundles[j].pn, bundles[j].location))
  }

  lemma PopulationMaterializes(bundles: seq<Bundle>, tenant: string, keys: set<Key>,
                               offline: (string, string) -> Features, required: set<string>)
    requires IsPopulation(bundles, tenant, keys, offline, required)
    ensures Materializes(bundles, tenant, keys, offline, required)
  {
    hide PairLe;
    forall b | b in bundles ensures KeyOf(b) in CompleteKeys(keys, offline, required) {
      assert KeyOf(b) in KeysOf(bundles);
    }
    forall pn, location | (pn, location) in keys && required <= offline(pn, location).groups
      ensures exists b :: b in bundles && b.pn == pn && b.location == location
    {
      assert (pn, location) in CompleteKeys(keys, offline, required);
      assert (pn, location) in KeysOf(bundles);
      var b :| b in bundles && KeyOf(b) == (pn, location);
    }
    forall i, j | 0 <= i < j < |bundles|
      ensures (bundles[i].pn, bundles[i].location) != (bundles[j].pn, bundles[j].location)
    {
      assert KeyOf(bundles[i]) != KeyOf(bundles[j]);
    }
  }

  method NormalizeKeys(raw: seq<RawKey>) returns (r: Result<set<Key>, StoreError>)
    ensures r.Ok? <==> forall k :: k in raw ==> ValidRawKey(k)
    ensures r.Ok? ==> r.value == NamedKeys(raw)
    ensures r.Ok? ==> forall pn, location :: (pn, location) in r.value <==> Pair(pn, location) in raw
    ensures r.Err? ==> r.error == ValueError
  {
    var normalized: set<Key> := {};
    for i := 0 to |raw|
      invariant forall k :: k in raw[..i] ==> ValidRawKey(k)
      invariant normalized == NamedKeys(raw[..i])
    {
      assert raw[..i + 1] == raw[..i] + [raw[i]];
      if !ValidRawKey(raw[i]) {
        return Err(ValueError);
      }
      normalized := normalized + {(raw[i].pn, raw[i].location)};
    }
    assert raw[..|raw|] == raw;
    NamedKeysAre(raw);
    r := Ok(normalized);
  }

  lemma KeysOfSnoc(bundles: seq<Bundle>, b: Bundle)
    ensures KeysOf(bundles + [b]) == KeysOf(bundles) + {KeyOf(b)}
  {
    assert forall c :: c in bundles + [b] <==> c in bundles || c == b;
    assert KeyOf(b) in KeysOf(bundles + [b]);
    forall k | k in KeysOf(bundles) ensures k in KeysOf(bundles + [b]) {
      var c :| c in bundles && KeyOf(c) == k;
      assert c in bundles + [b];
    }
  }

  function KeysIn(listing: seq<Key>): set<Key> {
    set k | k in listing
  }

  /** One more key of the listing: its bundle extends the population, or it is incomplete. */
  lemma NextOfPopulation(bundles: seq<Bundle>, tenant: string, listing: seq<Key>, i: nat,
                         offline: (string, string) -> Features, required: set<string>)
    requires i < |listing| && Lists(listing, KeysIn(listing), PairLe)
    requires IsPopulation(bundles, tenant, KeysIn(listing[..i]), offline, required)
    ensures var next := bundles + [BundleFor(tenant, listing[i], offline)];
            IsPopulation(if Complete(listing[i], offline, required) then next else bundles,
                         tenant, KeysIn(listing[..i + 1]), offline, required)
  {
    hide Complete, PairLe;
    var key := listing[i];
    var b := BundleFor(tenant, key, offline);
    assert listing[..i + 1] == listing[..i] + [key];
    forall a | 0 <= a < |bundles| ensures KeyOf(bundles[a]) != key && PairLe(KeyOf(bundles[a]), key) {
      assert KeyOf(bundles[a]) in KeysOf(bundles);
      var n :| 0 <= n < i && listing[..i][n] == KeyOf(bundles[a]);
      assert listing[n] == KeyOf(bundles[a]);
    }
    KeysOfSnoc(bundles, b);
  }

  /** Materialize every named key in order; keys lacking a required group are counted, not written. */
  method Preflight(tenant: string, keys: set<Key>, offline: (string, string) -> Features, required: set<string>)
    returns (bundles: seq<Bundle>, skipped: nat)
    ensures IsPopulation(bundles, tenant, keys, offline, required)
    ensures Materializes(bundles, tenant, keys, offline, required)
    ensures |bundles| == |CompleteKeys(keys, offline, required)|
    ensures skipped == |keys - CompleteKeys(keys, offline, required)|
  {
    hide Complete, PairLe;
    PairLeIsTotalOrder();
    var listing := SortedList(keys, PairLe);
    assert keys == KeysIn(listing);
    bundles, skipped := [], 0;
    hide IsPopulation;
    EmptyPopulation(tenant, offline, required);
    for i := 0 to |listing|
      invariant |bundles| + skipped == i
      invariant IsPopulation(bundles, tenant, KeysIn(listing[..i]), offline, required)
    {
      NextOfPopulation(bundles, tenant, listing, i, offline, required);
      if Complete(listing[i], offline, required) {
        bundles := bundles + [BundleFor(tenant, listing[i], offline)];
      } else {
        skipped := skipped + 1;
      }
    }
    assert listing[..|listing|] == listing;
    PopulationCount(bundles, tenant, keys, offline, required);
    hide Materializes;
    PopulationMaterializes(bundles, tenant, keys, offline, required);
    assert CompleteKeys(keys, offline, required) <= keys;
  }

  lemma EmptyPopulation(tenant: string, offline: (string, string) -> Features, required: set<string>)
    ensures IsPopulation([], tenant, {}, offline, required)
  {
  }

  lemma PopulationCount(bundles: seq<Bundle>, tenant: string, keys: set<Key>,
                        offline: (string, string) -> Features, required: set<string>)
    requires IsPopulation(bundles, tenant, keys, offline, required)
    ensures |bundles| == |CompleteKeys(keys, offline, required)|
  {
    BatchKeyCount(bundles);
  }

  /** The complete named keys whose bundle would exceed the safe item size. */
  ghost function OversizedKeys(tenant: string, keys: set<Key>, offline: (string, string) -> Features,
                               required: set<string>): set<Key> {
    set k | k in keys && Complete(k, offline, required) && Oversized(BundleFor(tenant, k, offline))
  }

  function OversizedIn(bundles: seq<Bundle>): set<Key> {
    set b | b in bundles && Oversized(b) :: KeyOf(b)
  }

  lemma PopulationOversized(bundles: seq<Bundle>, tenant: string, keys: set<Key>,
                            offline: (string, string) -> Features, required: set<string>)
    requires IsPopulation(bundles, tenant, keys, offline, required)
    ensures OversizedIn(bundles) == OversizedKeys(tenant, keys, offline, required)
  {
    hide Oversized;
    forall k | k in OversizedKeys(tenant, keys, offline, required) ensures k in OversizedIn(bundles) {
      assert k in KeysOf(bundles);
      var b :| b in bundles && KeyOf(b) == k;
    }
    forall k | k in OversizedIn(bundles) ensures k in OversizedKeys(tenant, keys, offline, required) {
      assert k in KeysOf(bundles);
    }
  }

  method CountOversized(tenant: string, keys: set<Key>, bundles: seq<Bundle>,
                        offline: (string, string) -> Features, required: set<string>)
    returns (n: nat)
    requires IsPopulation(bundles, tenant, keys, offline, required)
    ensures n == |OversizedKeys(tenant, keys, offline, required)|
  {
    hide Oversized, PairLe, Complete;
    n := 0;
    ghost var found: set<Key> := {};
    for i := 0 to |bundles|
      invariant found == OversizedIn(bundles[..i])
      invariant n == |found|
    {
      assert bundles[..i + 1] == bundles[..i] + [bundles[i]];
      if Oversized(bundles[i]) {
        assert KeyOf(bundles[i]) !in found;
        n := n + 1;
        found := found + {KeyOf(bundles[i])};
      }
    }
    assert bundles[..|bundles|] == bundles;
    PopulationOversized(bundles, tenant, keys, offline, required);
  }

  /** The state in which run `me` is about to send its next request of this action. */
  ghost predicate AtStage(s: Sys, me: nat, tenant: string, bundles: seq<Bundle>, stage: Stage, next: nat) {
    && me in s.runs
    && s.runs[me] == Run(tenant, bundles, Some(stage), next, Staging)
  }

  // ----- what happens around this run -----

  /** The execution `trace` has led from `start` to the reachable state `now`. */
  ghost predicate Reached(start: Sys, trace: seq<Action>, now: Sys) {
    Inv(now) && Legal(start, trace) && now == After(start, trace)
  }

  /** None of the requests 0 to `n` of this run fails. */
  ghost predicate NoFaults(script: nat -> Gap, n: nat) {
    forall k: nat :: k <= n ==> script(k).fault == NoFault
  }

  /** Request `k`, after the pointer read, is the first to fail. */
  ghost predicate FirstFault(script: nat -> Gap, k: nat) {
    1 <= k && script(k).fault != NoFault && forall j :: 1 <= j < k ==> script(j).fault == NoFault
  }

  /** Some other process wants to take this action around one of the requests 0 to `n`. */
  ghost predicate Scripted(a: Action, script: nat -> Gap, n: nat) {
    exists k: nat :: k <= n && a in script(k).actions
  }

  /** The tenant's commits up to the `i`-th action of an execution. */
  ghost function HistoryAt(start: Sys, trace: seq<Action>, i: nat, tenant: string): seq<nat>
    requires Legal(start, trace) && i <= |trace|
  {
    LegalSplit(start, trace, i);
    HistoryOf(After(start, trace[..i]), tenant)
  }

  /**
   Between the actions `begin` and `commit` of an execution the pointer's generation changes
   exactly when somebody commits for the tenant.
   */
  lemma BaseStillCurrent(start: Sys, trace: seq<Action>, begin: nat, commit: nat, tenant: string)
    requires Inv(start) && Legal(start, trace) && begin <= commit <= |trace|
    requires Legal(start, trace[..begin]) && Legal(start, trace[..commit])
    ensures var s, e := After(start, trace[..begin]), After(start, trace[..commit]);
            HeadOf(e, HistoryOf(e, tenant)) == HeadOf(s, HistoryOf(s, tenant)) <==>
            HistoryAt(start, trace, commit, tenant) == HistoryAt(start, trace, begin, tenant)
  {
    LegalKeepsInv(start, trace[..begin]);
    LegalSplit(start, trace[..commit], begin);
    assert trace[..commit][..begin] == trace[..begin];
    HeadTellsHistory(After(start, trace[..begin]), trace[..commit][begin..], tenant);
  }

  /** Where no action in between is a commit, nobody commits for the tenant. */
  lemma NobodyCommitsBetween(start: Sys, trace: seq<Action>, begin: nat, commit: nat, tenant: string)
    requires Legal(start, trace) && begin <= commit <= |trace|
    requires forall i :: begin <= i < commit ==> !trace[i].Commit?
    ensures HistoryAt(start, trace, commit, tenant) == HistoryAt(start, trace, begin, tenant)
  {
    LegalSplit(start, trace, commit);
    LegalSplit(start, trace[..commit], begin);
    assert trace[..commit][..begin] == trace[..begin];
    HistoryGrowsByCommits(After(start, trace[..begin]), trace[..commit][begin..], tenant);
  }

  /** Others act; this run's own record stays as it was. */
  method OthersAct(world: World, gap: Gap, me: nat, uuid: string, ghost start: Sys, ghost trace: seq<Action>)
    returns (ghost trace': seq<Action>)
    requires Reached(start, trace, world.State())
    modifies world, world.table
    ensures Reached(start, trace', world.State())
    ensures me in old(world.State()).runs <==> me in world.State().runs
    ensures me in world.State().runs ==> world.State().runs[me] == old(world.State()).runs[me]
    ensures uuid !in old(world.State()).used ==> uuid !in world.State().used
    ensures trace <= trace'
    ensures forall i :: |trace| <= i < |trace'| ==> trace'[i].id != me && trace'[i] in gap.actions
  {
    ghost var taken := world.Interfere(gap.actions, Some(me), uuid);
    LegalAppend(start, trace, taken);
    OthersLeaveRunAlone(After(start, trace), taken, me, uuid);
    trace' := trace + taken;
    assert forall i :: |trace| <= i < |trace'| ==> trace'[i] == taken[i - |trace|] && trace'[i] in taken;
  }

  lemma {:induction false} OthersLeaveRunAlone(s: Sys, taken: seq<Action>, me: nat, uuid: string)
    requires Legal(s, taken) && forall a :: a in taken ==> Foreign(a, Some(me), uuid)
    ensures me in s.runs <==> me in After(s, taken).runs
    ensures me in s.runs ==> After(s, taken).runs[me] == s.runs[me]
    ensures uuid !in s.used ==> uuid !in After(s, taken).used
    decreases |taken|
  {
    if taken != [] {
      assert taken[0] in taken;
      OthersLeaveRunAlone(Step(s, taken[0]), taken[1..], me, uuid);
    }
  }

  /** This run takes the step `a`; the table already shows its effect. */
  method OwnStep(world: World, next: Sys, ghost a: Action, ghost start: Sys, ghost trace: seq<Action>, ghost s: Sys)
    returns (ghost trace': seq<Action>)
    requires Reached(start, trace, s)
    requires Enabled(s, a) && next == Step(s, a) && next.table == world.table.items
    modifies world
    ensures world.State() == next && trace' == trace + [a]
    ensures Reached(start, trace', next)
  {
    StepKeepsInv(s, a);
    LegalSnoc(start, trace, a);
    world.Adopt(next);
    trace' := trace + [a];
  }

  /** `trace'` continues `trace` by what others do around one request, and by one more action. */
  ghost predicate OneOwnAfter(trace: seq<Action>, trace': seq<Action>, me: nat, gap: Gap) {
    && trace < trace'
    && forall i :: |trace| <= i < |trace'| - 1 ==> trace'[i].id != me && trace'[i] in gap.actions
  }

  /** The caller starts the run. */
  method LaunchRun(world: World, me: nat, tenant: string, bundles: seq<Bundle>, ghost script: nat -> Gap, ghost n: nat)
    returns (ghost trace: seq<Action>)
    requires Inv(world.State()) && me !in world.State().runs && ValidBatch(tenant, bundles)
    modifies world
    ensures Reached(old(world.State()), trace, world.State()) && OwnOrScripted(trace, me, script, n)
    ensures world.State().used == old(world.State()).used
    ensures me in world.State().runs && world.State().runs[me] == Run(tenant, bundles, None, 0, Ready)
  {
    var start := world.State();
    var a := Launch(me, tenant, bundles);
    assert Reached(start, [], start);
    trace := OwnStep(world, Step(start, a), a, start, [], start);
  }

  /**
   Read the pointer and draw the generation. The base is the tenant's last commit of this
   moment; a failed read is raised to the caller, and the run is over.
   */
  method BeginRun(world: World, store: DynamoDbOnlineStore, me: nat, tenant: string, bundles: seq<Bundle>,
                  uuid: string, gap: Gap, ghost start: Sys, ghost trace: seq<Action>)
    returns (r: Result<Stage, StoreError>, ghost trace': seq<Action>)
    requires store.table == world.table && ValidGeneration(uuid) && uuid !in world.State().used
    requires Reached(start, trace, world.State())
    requires me in world.State().runs && world.State().runs[me] == Run(tenant, bundles, None, 0, Ready)
    modifies world, world.table
    ensures Reached(start, trace', world.State())
    ensures r == Err(ClientError) <==> gap.fault != NoFault
    ensures r.Err? ==> gap.fault != NoFault && Uncommitted(world.State(), me)
    ensures OneOwnAfter(trace, trace', me, gap) && trace' != []
    ensures trace'[|trace'| - 1] == if r.Ok? then Begin(me, uuid) else Crash(me)
    ensures Legal(start, trace'[..|trace'| - 1])
    ensures r.Ok? ==>
              && AtStage(world.State(), me, tenant, bundles, r.value, 0)
              && var s := After(start, trace'[..|trace'| - 1]);
                 r.value == Stage(tenant, uuid, HeadOf(s, HistoryOf(s, tenant)))
  {
    trace' := OthersAct(world, gap, me, uuid, start, trace);
    var s := world.State();
    if gap.fault != NoFault {
      var c := Crash(me);
      assert trace' == (trace' + [c])[..|trace'|];
      trace' := OwnStep(world, Step(s, c), c, start, trace', s);
      return Err(ClientError), trace';
    }
    PointerReadsNewest(s, tenant);
    r := store.BeginPopulation(tenant, uuid, s);
    var b := Begin(me, uuid);
    assert trace' == (trace' + [b])[..|trace'|];
    trace' := OwnStep(world, Step(s, b), b, start, trace', s);
  }

  /** One put. It fails only by its own request's fault: nothing other runs do makes a put fail. */
  method StageNext(world: World, store: DynamoDbOnlineStore, me: nat, bundles: seq<Bundle>, stage: Stage, i: nat,
                   gap: Gap, ghost start: Sys, ghost trace: seq<Action>)
    returns (ok: bool, ghost trace': seq<Action>)
    requires store.table == world.table && i < |bundles|
    requires Reached(start, trace, world.State())
    requires AtStage(world.State(), me, stage.tenant, bundles, stage, i)
    modifies world, world.table
    ensures Reached(start, trace', world.State())
    ensures ok <==> gap.fault == NoFault
    ensures ok ==> AtStage(world.State(), me, stage.tenant, bundles, stage, i + 1)
    ensures !ok ==>
              me in world.State().runs
              && world.State().runs[me] == Run(stage.tenant, bundles, Some(stage), i, Failed)
    ensures OneOwnAfter(trace, trace', me, gap) && trace'[|trace'| - 1] == Put(me, !ok)
  {
    trace' := OthersAct(world, gap, me, stage.generation, start, trace);
    var s := world.State();
    var a := Put(me, gap.fault != NoFault);
    assert WellFormedRun(s.runs[me], s.used) && Enabled(s, a);
    NextKeyIsAbsent(s, me);
    var next := Step(s, a);
    var put := store.PutBundle(bundles[i], stage, gap.fault != NoFault);
    trace' := OwnStep(world, next, a, start, trace', s);
    ok := put.Ok?;
  }

  /** `trace'` continues `trace` by puts of the run `me` and by actions of other processes. */
  ghost predicate StagedAmong(trace: seq<Action>, trace': seq<Action>, me: nat, script: nat -> Gap, n: nat) {
    && trace <= trace'
    && forall i :: |trace| <= i < |trace'| ==>
         if trace'[i].id == me then trace'[i].Put? else Scripted(trace'[i], script, n)
  }

  lemma NothingStaged(trace: seq<Action>, me: nat, script: nat -> Gap, n: nat)
    ensures StagedAmong(trace, trace, me, script, n)
  {
  }

  lemma StagedOneMore(trace: seq<Action>, before: seq<Action>, after: seq<Action>, me: nat, script: nat -> Gap,
                      n: nat, k: nat)
    requires StagedAmong(trace, before, me, script, n) && OneOwnAfter(before, after, me, script(k)) && k <= n
    requires after[|after| - 1].Put? && after[|after| - 1].id == me
    ensures StagedAmong(trace, after, me, script, n)
  {
    forall i | |trace| <= i < |after|
      ensures if after[i].id == me then after[i].Put? else Scripted(after[i], script, n)
    {
      if i < |before| {
        assert after[i] == before[i];
      }
    }
  }

  /**
   Stage `bundles` one put at a time. The run stops at its first failed request, and at no
   other put.
   */
  method StageAll(world: World, store: DynamoDbOnlineStore, me: nat, bundles: seq<Bundle>, stage: Stage,
                  script: nat -> Gap, ghost start: Sys, ghost trace: seq<Action>)
    returns (failure: Option<Fault>, ghost trace': seq<Action>)
    requires store.table == world.table
    requires Reached(start, trace, world.State())
    requires AtStage(world.State(), me, stage.tenant, bundles, stage, 0)
    modifies world, world.table
    ensures Reached(start, trace', world.State())
    ensures failure.None? <==> forall k :: 1 <= k <= |bundles| ==> script(k).fault == NoFault
    ensures failure.None? ==> AtStage(world.State(), me, stage.tenant, bundles, stage, |bundles|)
    ensures failure.Some? ==> Uncommitted(world.State(), me)
    ensures forall k :: 1 <= k <= |bundles| && FirstFault(script, k) ==>
              && failure == Some(script(k).fault)
              && me in world.State().runs
              && world.State().runs[me] == Run(stage.tenant, bundles, Some(stage), k - 1, Failed)
    ensures StagedAmong(trace, trace', me, script, |bundles|)
  {
    trace' := trace;
    hide Reached, AtStage, Scripted, StagedAmong;
    NothingStaged(trace, me, script, |bundles|);
    for i := 0 to |bundles|
      invariant Reached(start, trace', world.State())
      invariant AtStage(world.State(), me, stage.tenant, bundles, stage, i)
      invariant forall k :: 1 <= k <= i ==> script(k).fault == NoFault
      invariant StagedAmong(trace, trace', me, script, |bundles|)
    {
      ghost var before := trace';
      var ok;
      ok, trace' := StageNext(world, store, me, bundles, stage, i, script(i + 1), start, before);
      StagedOneMore(trace, before, trace', me, script, |bundles|, i + 1);
      if !ok {
        return Some(script(i + 1).fault), trace';
      }
    }
    failure := None;
  }

  /** The compare-and-swap, which goes through exactly when the stage's base still is the last commit. */
  method CommitRun(world: World, store: DynamoDbOnlineStore, me: nat, bundles: seq<Bundle>, stage: Stage,
                   gap: Gap, ghost start: Sys, ghost trace: seq<Action>)
    returns (committed: bool, ghost trace': seq<Action>)
    requires store.table == world.table && !Blank(stage.tenant)
    requires Reached(start, trace, world.State())
    requires AtStage(world.State(), me, stage.tenant, bundles, stage, |bundles|)
    modifies world, world.table
    ensures Reached(start, trace', world.State())
    ensures committed ==>
              && CommittedRun(world.State(), me, stage.tenant) && Gen(world.State(), me) == stage.generation
              && world.State().runs[me].bundles == bundles
    ensures !committed ==> Uncommitted(world.State(), me)
    ensures OneOwnAfter(trace, trace', me, gap) && trace' != []
    ensures trace'[|trace'| - 1] == Commit(me, gap.fault != NoFault)
    ensures Legal(start, trace'[..|trace'| - 1])
    ensures var s := After(start, trace'[..|trace'| - 1]);
            committed <==> gap.fault == NoFault && stage.previous == HeadOf(s, HistoryOf(s, stage.tenant))
  {
    hide StagedInv, TableInv, HistoryInv, PointerInv, Chain, ValidBatch, Legal, After;
    trace' := OthersAct(world, gap, me, stage.generation, start, trace);
    var s := world.State();
    var c := Commit(me, gap.fault != NoFault);
    assert WellFormedRun(s.runs[me], s.used);
    CommitSucceedsIff(s, me);
    var next := Step(s, c);
    var token := store.CommitPopulation(stage, |bundles|, gap.fault != NoFault);
    assert trace' == (trace' + [c])[..|trace'|];
    trace' := OwnStep(world, next, c, start, trace', s);
    committed := token.Ok?;
  }

  // ----- the outcome of a run -----

  /** How the writer counts a put that failed. */
  function StageFailure(skipped: nat, fault: Fault): PopulateResult {
    if fault == SizeRejected then PopulateResult(0, skipped, 1, 0, None)
    else PopulateResult(0, skipped, 0, 1, None)
  }

  /** Every action is this run's own or one that another process was scripted to take. */
  ghost predicate OwnOrScripted(trace: seq<Action>, me: nat, script: nat -> Gap, n: nat) {
    forall a :: a in trace ==> a.id == me || Scripted(a, script, n)
  }

  /** The run's pointer read and its compare-and-swap are at `begin` and `commit`, with only puts of its own between. */
  ghost predicate Attempted(trace: seq<Action>, begin: nat, commit: nat, me: nat, uuid: string) {
    && begin < commit < |trace|
    && trace[begin] == Begin(me, uuid) && trace[commit] == Commit(me, false)
    && forall i :: begin < i < commit && trace[i].id == me ==> trace[i].Put?
  }

  /**
   The result of a run of `n` bundles whose pointer read went through. It commits if and only
   if none of its requests fails and nobody commits for the tenant between its `begin` and
   its `commit` action; otherwise its first failed request, or the lost race, is counted.
   */
  ghost predicate Settled(r: PopulateResult, start: Sys, trace: seq<Action>, begin: nat, commit: nat, me: nat,
                          tenant: string, uuid: string, n: nat, skipped: nat, script: nat -> Gap) {
    && Legal(start, trace) && begin <= commit <= |trace|
    && OwnOrScripted(trace, me, script, n + 1)
    && (NoFaults(script, n + 1) ==> Attempted(trace, begin, commit, me, uuid))
    && (r.committedGeneration.Some? <==>
        NoFaults(script, n + 1)
        && HistoryAt(start, trace, commit, tenant) == HistoryAt(start, trace, begin, tenant))
    && (r.committedGeneration.Some? ==> r == PopulateResult(n, skipped, 0, 0, Some(uuid)))
    && (forall k :: 1 <= k <= n && FirstFault(script, k) ==>
          && r.written == 0 && r.skippedIncomplete == skipped && r.committedGeneration == None
          && r.failedOversize == (if script(k).fault == SizeRejected then 1 else 0)
          && r.failedWrites == (if script(k).fault == OtherError then 1 else 0))
    && (r.committedGeneration.None? && NoFaults(script, n) ==> r == PopulateResult(0, skipped, 0, 1, None))
  }

  /** Where no other process wants to commit, a run whose requests all go through commits. */
  lemma UncontestedRunCommits(r: PopulateResult, start: Sys, trace: seq<Action>, begin: nat, commit: nat, me: nat,
                              tenant: string, uuid: string, n: nat, skipped: nat, script: nat -> Gap)
    requires Settled(r, start, trace, begin, commit, me, tenant, uuid, n, skipped, script)
    requires NoFaults(script, n + 1)
    requires forall a :: Scripted(a, script, n + 1) ==> !a.Commit?
    ensures r == PopulateResult(n, skipped, 0, 0, Some(uuid))
  {
    forall i | begin <= i < commit ensures !trace[i].Commit? {
      assert trace[i] in trace;
    }
    NobodyCommitsBetween(start, trace, begin, commit, tenant);
  }

  lemma OneMoreRequest(before: seq<Action>, after: seq<Action>, me: nat, script: nat -> Gap, n: nat, k: nat)
    requires OwnOrScripted(before, me, script, n) && OneOwnAfter(before, after, me, script(k)) && k <= n
    requires after[|after| - 1].id == me
    ensures OwnOrScripted(after, me, script, n)
  {
    forall a | a in after ensures a.id == me || Scripted(a, script, n) {
      var i :| 0 <= i < |after| && after[i] == a;
      if i < |before| {
        assert before[i] == a;
      }
    }
  }

  lemma StagedRequests(before: seq<Action>, after: seq<Action>, me: nat, script: nat -> Gap, n: nat)
    requires OwnOrScripted(before, me, script, n + 1) && StagedAmong(before, after, me, script, n)
    ensures OwnOrScripted(after, me, script, n + 1)
  {
    forall a | a in after ensures a.id == me || Scripted(a, script, n + 1) {
      var i :| 0 <= i < |after| && after[i] == a;
      if i < |before| {
        assert before[i] == a;
      } else if a.id != me {
        var k: nat :| k <= n && a in script(k).actions;
        assert k <= n + 1;
      }
    }
  }

  /** A run that ends at a failed put. */
  lemma SettledByPut(start: Sys, begun: seq<Action>, trace: seq<Action>, now: Sys, me: nat, tenant: string,
                     uuid: string, n: nat, skipped: nat, script: nat -> Gap, fault: Fault)
    requires Reached(start, trace, now) && begun != []
    requires OwnOrScripted(begun, me, script, n + 1) && StagedAmong(begun, trace, me, script, n)
    requires !(forall k :: 1 <= k <= n ==> script(k).fault == NoFault)
    requires forall k :: 1 <= k <= n && FirstFault(script, k) ==> fault == script(k).fault
    ensures Settled(StageFailure(skipped, fault), start, trace, |begun| - 1, |begun| - 1, me, tenant, uuid, n,
                    skipped, script)
    ensures StageFailure(skipped, fault).skippedIncomplete == skipped &&
              StageFailure(skipped, fault).committedGeneration.None?
  {
    StagedRequests(begun, trace, me, script, n);
    assert !NoFaults(script, n) && !NoFaults(script, n + 1);
    hide Legal, HistoryAt, Inv, After;
  }

  /** A run that reaches its compare-and-swap, from the traces up to its begin, its last put and its commit. */
  lemma SettledByCommit(start: Sys, begun: seq<Action>, staged: seq<Action>, trace: seq<Action>, me: nat,
                        tenant: string, uuid: string, n: nat, skipped: nat, script: nat -> Gap, committed: bool,
                        now: Sys)
    requires Inv(start) && Reached(start, trace, now)
    requires script(0).fault == NoFault && forall k :: 1 <= k <= n ==> script(k).fault == NoFault
    requires begun != [] && begun[|begun| - 1] == Begin(me, uuid) && OwnOrScripted(begun, me, script, n + 1)
    requires StagedAmong(begun, staged, me, script, n)
    requires OneOwnAfter(staged, trace, me, script(n + 1))
    requires trace[|trace| - 1] == Commit(me, script(n + 1).fault != NoFault)
    requires Legal(start, begun[..|begun| - 1]) && Legal(start, trace[..|trace| - 1])
    requires var s, e := After(start, begun[..|begun| - 1]), After(start, trace[..|trace| - 1]);
             committed <==>
               script(n + 1).fault == NoFault
               && HeadOf(s, HistoryOf(s, tenant)) == HeadOf(e, HistoryOf(e, tenant))
    ensures Settled(if committed then PopulateResult(n, skipped, 0, 0, Some(uuid))
                    else PopulateResult(0, skipped, 0, 1, None),
                    start, trace, |begun| - 1, |trace| - 1, me, tenant, uuid, n, skipped, script)
  {
    hide *;
    ReachedIsLegal(start, trace, now);
    BegunIsPrefix(begun, staged, trace, me, script, n);
    var begin, commit := |begun| - 1, |trace| - 1;
    BaseStillCurrent(start, trace, begin, commit, tenant);
    StagedRequests(begun, staged, me, script, n);
    OneMoreRequest(staged, trace, me, script, n + 1, n + 1);
    if script(n + 1).fault == NoFault {
      AttemptedAt(begun, staged, trace, me, uuid, script, n);
    }
    SettledAtCommit(start, trace, begin, commit, me, tenant, uuid, n, skipped, script, committed);
  }

  lemma ReachedIsLegal(start: Sys, trace: seq<Action>, now: Sys)
    requires Reached(start, trace, now)
    ensures Legal(start, trace)
  {
  }

  lemma BegunIsPrefix(begun: seq<Action>, staged: seq<Action>, trace: seq<Action>, me: nat, script: nat -> Gap, n: nat)
    requires begun != [] && StagedAmong(begun, staged, me, script, n) && OneOwnAfter(staged, trace, me, script(n + 1))
    ensures |begun| < |trace| && trace[..|begun| - 1] == begun[..|begun| - 1]
  {
    assert begun <= trace;
  }

  lemma SettledAtCommit(start: Sys, trace: seq<Action>, begin: nat, commit: nat, me: nat, tenant: string, uuid: string,
                        n: nat, skipped: nat, script: nat -> Gap, committed: bool)
    requires Legal(start, trace) && begin <= commit <= |trace|
    requires OwnOrScripted(trace, me, script, n + 1)
    requires script(0).fault == NoFault && forall k :: 1 <= k <= n ==> script(k).fault == NoFault
    requires script(n + 1).fault == NoFault ==> Attempted(trace, begin, commit, me, uuid)
    requires committed <==>
               script(n + 1).fault == NoFault
               && HistoryAt(start, trace, commit, tenant) == HistoryAt(start, trace, begin, tenant)
    ensures Settled(if committed then PopulateResult(n, skipped, 0, 0, Some(uuid))
                    else PopulateResult(0, skipped, 0, 1, None),
                    start, trace, begin, commit, me, tenant, uuid, n, skipped, script)
  {
    hide Legal, HistoryAt, OwnOrScripted, Attempted;
    assert NoFaults(script, n);
    assert NoFaults(script, n + 1) <==> script(n + 1).fault == NoFault;
  }

  lemma AttemptedAt(begun: seq<Action>, staged: seq<Action>, trace: seq<Action>, me: nat, uuid: string,
                    script: nat -> Gap, n: nat)
    requires begun != [] && begun[|begun| - 1] == Begin(me, uuid)
    requires StagedAmong(begun, staged, me, script, n) && OneOwnAfter(staged, trace, me, script(n + 1))
    requires trace[|trace| - 1] == Commit(me, false)
    ensures Attempted(trace, |begun| - 1, |trace| - 1, me, uuid)
  {
    hide Scripted;
    forall i | |begun| - 1 < i < |trace| - 1 && trace[i].id == me ensures trace[i].Put? {
      if i < |staged| {
        assert trace[i] == staged[i];
      }
    }
    assert trace[|begun| - 1] == staged[|begun| - 1] == begun[|begun| - 1];
  }

  /**
   Everything after the preflight: begin, stage, commit. A failed pointer read is raised;
   otherwise the result is settled by the run's own requests and by who else commits.
   */
  method Publish(world: World, store: DynamoDbOnlineStore, me: nat, tenant: string, bundles: seq<Bundle>,
                 skipped: nat, uuid: string, script: nat -> Gap)
    returns (r: Result<PopulateResult, StoreError>, ghost trace: seq<Action>, ghost begin: nat, ghost commit: nat)
    requires store.table == world.table && Inv(world.State())
    requires me !in world.State().runs && uuid !in world.State().used && ValidGeneration(uuid)
    requires !Blank(tenant) && ValidBatch(tenant, bundles)
    modifies world, world.table
    ensures Reached(old(world.State()), trace, world.State())
    ensures r == Err(ClientError) <==> script(0).fault != NoFault
    ensures r.Err? ==> r.error == ClientError
    ensures r.Ok? ==>
              && r.value.skippedIncomplete == skipped
              && Settled(r.value, old(world.State()), trace, begin, commit, me, tenant, uuid, |bundles|, skipped,
                         script)
    ensures r.Ok? && r.value.committedGeneration.Some? ==>
              && CommittedRun(world.State(), me, tenant) && Gen(world.State(), me) == uuid
              && world.State().runs[me].bundles == bundles
    ensures r.Err? || r.value.committedGeneration.None? ==> Uncommitted(world.State(), me)
  {
    hide *;
    ghost var start := world.State();
    begin, commit := 0, 0;
    trace := LaunchRun(world, me, tenant, bundles, script, |bundles| + 1);
    ghost var launched := trace;
    var begun;
    begun, trace := BeginRun(world, store, me, tenant, bundles, uuid, script(0), start, launched);
    if begun.Err? {
      return Err(begun.error), trace, begin, commit;
    }
    var stage := begun.value;
    ghost var upToBegin := trace;
    OneMoreRequest(launched, trace, me, script, |bundles| + 1, 0);
    begin := |trace| - 1;
    commit := begin;

    var failure;
    failure, trace := StageAll(world, store, me, bundles, stage, script, start, upToBegin);
    ghost var staged := trace;
    if failure.Some? {
      SettledByPut(start, upToBegin, staged, world.State(), me, tenant, uuid, |bundles|, skipped, script,
                   failure.value);
      r := Ok(StageFailure(skipped, failure.value));
      return r, trace, begin, commit;
    }
    var committed;
    committed, trace := CommitRun(world, store, me, bundles, stage, script(|bundles| + 1), start, staged);
    commit := |trace| - 1;
    SettledByCommit(start, upToBegin, staged, trace, me, tenant, uuid, |bundles|, skipped, script, committed,
                    world.State());
    r := Ok(if committed then PopulateResult(|bundles|, skipped, 0, 0, Some(stage.generation))
            else PopulateResult(0, skipped, 0, 1, None));
  }

  /**
   One whole population run `me` with the fresh generation `uuid`, under arbitrary steps of all
   other runs and any request failures. A bad key or an oversized bundle is refused before the
   table is touched at all, and a failed pointer read is raised. Otherwise the result is
   `Settled` for one bundle per complete named key. A run that does not commit has written
   nothing anybody can read, by `FailedRunIsInvisible`.
   */
  method PopulateOnline(world: World, store: DynamoDbOnlineStore, me: nat, tenant: string, raw: seq<RawKey>,
                        offline: (string, string) -> Features, required: set<string>, uuid: string,
                        script: nat -> Gap)
    returns (r: Result<PopulateResult, StoreError>, ghost trace: seq<Action>, ghost begin: nat, ghost commit: nat)
    requires store.table == world.table && Inv(world.State())
    requires me !in world.State().runs && uuid !in world.State().used && ValidGeneration(uuid)
    requires !Blank(tenant)
    modifies world, world.table
    ensures Reached(old(world.State()), trace, world.State())
    ensures r == Err(ValueError) <==> exists k :: k in raw && !ValidRawKey(k)
    ensures r == Err(ClientError) <==>
            (forall k :: k in raw ==> ValidRawKey(k)) && script(0).fault != NoFault
            && OversizedKeys(tenant, NamedKeys(raw), offline, required) == {}
    ensures r.Err? ==> r.error in {ValueError, ClientError}
    ensures r == Err(ValueError) ==> world.State() == old(world.State())
    ensures r.Ok? ==> r.value.skippedIncomplete == |NamedKeys(raw) - CompleteKeys(NamedKeys(raw), offline, required)|
    ensures r.Ok? && OversizedKeys(tenant, NamedKeys(raw), offline, required) != {} ==>
              && r.value.failedOversize == |OversizedKeys(tenant, NamedKeys(raw), offline, required)|
              && r.value.written == r.value.failedWrites == 0
              && r.value.committedGeneration.None? && world.State() == old(world.State())
    ensures r.Ok? && OversizedKeys(tenant, NamedKeys(raw), offline, required) == {} ==>
              Settled(r.value, old(world.State()), trace, begin, commit, me, tenant, uuid,
                      |CompleteKeys(NamedKeys(raw), offline, required)|, r.value.skippedIncomplete, script)
    ensures r.Ok? && r.value.committedGeneration.Some? ==>
              && CommittedRun(world.State(), me, tenant) && Gen(world.State(), me) == uuid
              && IsPopulation(world.State().runs[me].bundles, tenant, NamedKeys(raw), offline, required)
              && Materializes(world.State().runs[me].bundles, tenant, NamedKeys(raw), offline, required)
              && (forall pn, location :: (pn, location) in NamedKeys(raw) <==> Pair(pn, location) in raw)
    ensures r.Err? || r.value.committedGeneration.None? ==> Uncommitted(world.State(), me)
  {
    hide Settled, Inv, ValidBatch, ValidGeneration, Blank, IsPopulation, Materializes, OversizedKeys, CompleteKeys;
    trace, begin, commit := [], 0, 0;
    var normalized := NormalizeKeys(raw);
    if normalized.Err? {
      return Err(ValueError), trace, begin, commit;
    }
    var bundles, skipped := Preflight(tenant, normalized.value, offline, required);
    var oversized := CountOversized(tenant, normalized.value, bundles, offline, required);
    if oversized > 0 {
      return Ok(PopulateResult(0, skipped, oversized, 0, None)), trace, begin, commit;
    }
    PopulationIsValid(bundles, tenant, raw, offline, required);
    r, trace, begin, commit := Publish(world, store, me, tenant, bundles, skipped, uuid, script);
  }

  lemma PopulationIsValid(bundles: seq<Bundle>, tenant: string, raw: seq<RawKey>,
                          offline: (string, string) -> Features, required: set<string>)
    requires forall k :: k in raw ==> ValidRawKey(k)
    requires IsPopulation(bundles, tenant, NamedKeys(raw), offline, required)
    ensures ValidBatch(tenant, bundles)
  {
    forall b | b in bundles ensures b.tenant == tenant && b.pn != "" && b.location != "" {
      assert KeyOf(b) in KeysOf(bundles);
      assert KeyOf(b) in NamedKeys(raw);
    }
  }
}
