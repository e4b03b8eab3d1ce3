/**
 The DynamoDB table behind the online store as a value, and what one atomic request of
 `online_store.py` does to it or reads from it.
 */
module OnlineTable {
  import opened Wrappers
  import opened OnlineKeys

  /** A feature bundle: its key, the names of the feature groups it holds, and its JSON text. */
  datatype Bundle = Bundle(tenant: string, pn: string, location: string,
                           groups: set<string>, body: string)

  datatype Item = Pointer(generation: string, keyCount: int) | Staged(bundle: Bundle)

  /** Items by `(tenant_id, pn_location)`. */
  type Table = map<(string, string), Item>

  /** `OnlineGeneration`: the read token. */
  datatype Token = Token(tenant: string, generation: string, keyCount: int)

  /** `PopulationStage`: an uncommitted population and its compare-and-swap base. */
  datatype Stage = Stage(tenant: string, generation: string, previous: Option<string>)

  // ----- conditional puts -----

  datatype Condition = ItemAbsent | GenerationAbsent | GenerationIs(generation: string)

  predicate Holds(table: Table, key: (string, string), c: Condition) {
    match c
    case ItemAbsent => key !in table
    case GenerationAbsent => key !in table || table[key].Staged?
    case GenerationIs(g) => key in table && table[key].Pointer? && table[key].generation == g
  }

  /** One atomic conditional put: the new table and whether the condition held. */
  function PutItem(table: Table, key: (string, string), item: Item, c: Condition): (Table, bool) {
    if Holds(table, key, c) then (table[key := item], true) else (table, false)
  }

  function BundleKey(g: string, b: Bundle): (string, string) {
    (b.tenant, BundleSortKey(g, b.pn, b.location))
  }

  function PutBundle(table: Table, stage: Stage, b: Bundle): (Table, bool) {
    PutItem(table, BundleKey(stage.generation, b), Staged(b), ItemAbsent)
  }

  function PointerKey(tenant: string): (string, string) {
    (tenant, POINTER_SORT_KEY)
  }

  function PutPointer(table: Table, stage: Stage, keyCount: int): (Table, bool) {
    PutItem(table, PointerKey(stage.tenant), Pointer(stage.generation, keyCount),
            if stage.previous.None? then GenerationAbsent else GenerationIs(stage.previous.value))
  }

  /** A staged bundle is never overwritten: putting under a key that exists changes nothing and is refused. */
  lemma PutNeverOverwrites(table: Table, stage: Stage, b: Bundle)
    ensures PutBundle(table, stage, b) ==
            var key := (b.tenant, BundleSortKey(stage.generation, b.pn, b.location));
            if key in table then (table, false) else (table[key := Staged(b)], true)
  {
  }

  /** The pointer is swung exactly if it still is what the stage was begun from, and otherwise left alone. */
  lemma PutPointerCompares(table: Table, stage: Stage, keyCount: int)
    ensures var key := (stage.tenant, POINTER_SORT_KEY);
            var current := if key in table && table[key].Pointer? then Some(table[key].generation) else None;
            PutPointer(table, stage, keyCount) ==
            if current == stage.previous then (table[key := Pointer(stage.generation, keyCount)], true)
            else (table, false)
  {
  }

  // ----- reads, each on one table value -----

  /** An item `_read_current_generation` accepts as a tenant's pointer. */
  predicate WellFormedPointer(item: Item) {
    item.Pointer? && ValidGeneration(item.generation) && item.keyCount >= 0
  }

  /** `_read_current_generation`. */
  function ReadPointer(table: Table, tenant: string): Result<Option<Token>, string> {
    if PointerKey(tenant) !in table then Ok(None)
    else
      var item := table[PointerKey(tenant)];
      if !WellFormedPointer(item) then Err("invalid committed online population")
      else Ok(Some(Token(tenant, item.generation, item.keyCount)))
  }

  /** The sort keys a query for one generation's prefix ranges over. */
  function SortKeysUnder(table: Table, tenant: string, g: string): set<string> {
    set k | k in table && k.0 == tenant && BundlePrefix(g) <= k.1 :: k.1
  }

  /** The item `get_bundle` reads once its token is resolved, with its three checks. */
  function ReadBundle(table: Table, token: Token, pn: string, location: string): Result<Bundle, string> {
    var key := (token.tenant, BundleSortKey(token.generation, pn, location));
    if key !in table || !table[key].Staged? then Err("no online bundle")
    else
      var b := table[key].bundle;
      if b.tenant != token.tenant || b.pn != pn || b.location != location
      then Err("online bundle key mismatch")
      else Ok(b)
  }

  // ----- batches of bundles -----

  function KeyOf(b: Bundle): Key {
    (b.pn, b.location)
  }

  function KeysOf(bundles: seq<Bundle>): set<Key> {
    set b | b in bundles :: KeyOf(b)
  }

  /** What the writer's preflight guarantees: one tenant, non-empty keys, no key twice. */
  predicate ValidBatch(tenant: string, bundles: seq<Bundle>) {
    && (forall b :: b in bundles ==> b.tenant == tenant && b.pn != "" && b.location != "")
    && (forall i, j :: 0 <= i < j < |bundles| ==> KeyOf(bundles[i]) != KeyOf(bundles[j]))
  }

  lemma {:induction false} BatchKeyCount(bundles: seq<Bundle>)
    requires forall i, j :: 0 <= i < j < |bundles| ==> KeyOf(bundles[i]) != KeyOf(bundles[j])
    ensures |KeysOf(bundles)| == |bundles|
  {
    if bundles == [] {
      assert KeysOf(bundles) == {};
    } else {
      var rest := bundles[..|bundles| - 1];
      var last := bundles[|bundles| - 1];
      assert bundles == rest + [last];
      BatchKeyCount(rest);
      assert KeysOf(bundles) == KeysOf(rest) + {KeyOf(last)};
      assert KeyOf(last) !in KeysOf(rest);
    }
  }
}
