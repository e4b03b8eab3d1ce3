/**
 Snapshot persistence (`snapshot.py`) of the in-memory feature store (`client.py`): every bucket
 is written as its distinct model instances plus an index per key, and read back with the
 same instances shared by the same keys.
 */
module Snapshot {
  import opened Wrappers

  type Key = seq<string>

  /** A frozen feature model. Two models may hold equal fields and still be different objects. */
  class Model {
    const cls: string
    const fields: string

    constructor (cls: string, fields: string)
      ensures this.cls == cls && this.fields == fields
    {
      this.cls := cls;
      this.fields := fields;
    }
  }

  /** What `seed` accepts: a model, or any other object. */
  datatype Stored = Instance(model: Model) | Foreign

  type Bucket = map<Key, Stored>
  type Data = map<string, map<string, Bucket>>

  datatype SnapshotError =
    NotAModel | BadJson | BadFormat | NoTenants | UnknownBucket | MissingParts | InvalidValue | IndexOutOfRange

  const SNAPSHOT_FORMAT := 1

  /** `_BUCKET_MODELS`: the buckets, and the model class each is validated as. */
  const BUCKET_MODELS: map<string, string> := map[
    "demand_history" := "DemandHistory",
    "causal_utilization" := "CausalUtilization",
    "lead_time_distribution" := "LeadTimeDistribution",
    "wash_rate_history" := "WashRateHistory",
    "vendor_economics" := "VendorEconomics",
    "part_attributes" := "PartAttributes",
    "criticality" := "Criticality",
    "interchangeable_graph" := "InterchangeableGraph",
    "location_graph" := "LocationGraph",
    "open_orders_snapshot" := "OpenOrdersSnapshot",
    "requisition_snapshot" := "RequisitionSnapshot",
    "stock_position" := "StockPosition",
    "current_policy" := "CurrentPolicy"]

  // ----- the store -----

  /** Every tenant has a bucket and every bucket a key, and only known buckets occur. */
  ghost predicate SeedBuilt(data: Data) {
    && (forall t :: t in data ==> data[t] != map[])
    && (forall t, b :: t in data && b in data[t] ==> b in BUCKET_MODELS && data[t][b] != map[])
  }

  /** The store holds value `v` under this tenant, bucket and key. */
  ghost predicate Files(data: Data, tenant: string, bucket: string, key: Key, v: Stored) {
    tenant in data && bucket in data[tenant] && key in data[tenant][bucket] && data[tenant][bucket][key] == v
  }

  function Seeded(data: Data, tenant: string, bucket: string, key: Key, value: Stored): Data {
    var buckets := if tenant in data then data[tenant] else map[];
    var entries := if bucket in buckets then buckets[bucket] else map[];
    data[tenant := buckets[bucket := entries[key := value]]]
  }

  class InMemoryFeatureStore {
    var data: Data

    constructor ()
      ensures data == map[] && SeedBuilt(data)
    {
      data := map[];
    }

    /** False is the `ValueError` for an unknown bucket. */
    method Seed(tenant: string, bucket: string, key: Key, value: Stored) returns (ok: bool)
      requires SeedBuilt(data)
      modifies this
      ensures ok <==> bucket in BUCKET_MODELS
      ensures data == if ok then Seeded(old(data), tenant, bucket, key, value) else old(data)
      ensures forall t, b, k, v ::
                Files(data, t, b, k, v) <==>
                if ok && (t, b, k) == (tenant, bucket, key) then v == value else Files(old(data), t, b, k, v)
      ensures SeedBuilt(data)
    {
      ok := bucket in BUCKET_MODELS;
      if ok {
        SeedKeepsShape(data, tenant, bucket, key, value);
        data := Seeded(data, tenant, bucket, key, value);
      }
    }
  }

  lemma SeedKeepsShape(data: Data, tenant: string, bucket: string, key: Key, value: Stored)
    requires SeedBuilt(data) && bucket in BUCKET_MODELS
    ensures SeedBuilt(Seeded(data, tenant, bucket, key, value))
  {
    var d := Seeded(data, tenant, bucket, key, value);
    assert bucket in d[tenant] && key in d[tenant][bucket];
    forall t, b | t in d && b in d[t] ensures b in BUCKET_MODELS && d[t][b] != map[] {
      if t == tenant && b == bucket {
        assert key in d[t][b];
      } else {
        assert b in data[t];
      }
    }
  }

  // ----- the file -----

  datatype RawBucket = RawBucket(values: Option<seq<string>>, entries: Option<seq<(Key, int)>>)

  datatype Document = NotJson | Document(format: Option<int>, tenants: Option<map<string, map<string, RawBucket>>>)

  ghost predicate Listed(entries: seq<(Key, int)>, k: Key) {
    exists i :: 0 <= i < |entries| && entries[i].0 == k
  }

  ghost predicate Used(entries: seq<(Key, int)>, v: int) {
    exists i :: 0 <= i < |entries| && entries[i].1 == v
  }

  lemma MoreListed(entries: seq<(Key, int)>, e: (Key, int))
    ensures forall k :: Listed(entries + [e], k) <==> Listed(entries, k) || k == e.0
    ensures forall v :: Used(entries + [e], v) <==> Used(entries, v) || v == e.1
  {
    var all := entries + [e];
    assert all[|entries|] == e;
    forall k | Listed(entries, k) ensures Listed(all, k) {
      var i :| 0 <= i < |entries| && entries[i].0 == k;
      assert all[i].0 == k;
    }
    forall v | Used(entries, v) ensures Used(all, v) {
      var i :| 0 <= i < |entries| && entries[i].1 == v;
      assert all[i].1 == v;
    }
  }

  /** All values of the bucket are models. */
  predicate AllModels(bucket: Bucket) {
    forall k :: k in bucket ==> bucket[k].Instance?
  }

  /**
   `raw` lists every key of the bucket once, each with the fields of its model, and two keys
   carry the same index exactly when they hold the same object.
   */
  ghost predicate Faithful(bucket: Bucket, raw: RawBucket) {
    && AllModels(bucket) && raw.values.Some? && raw.entries.Some?
    && var values, entries := raw.values.value, raw.entries.value;
       && (forall k :: k in bucket <==> Listed(entries, k))
       && (forall i, j :: 0 <= i < j < |entries| ==> entries[i].0 != entries[j].0)
       && (forall i :: 0 <= i < |entries| ==>
             entries[i].0 in bucket && 0 <= entries[i].1 < |values|
             && values[entries[i].1] == bucket[entries[i].0].model.fields)
       && (forall i, j ::
             0 <= i < |entries| && 0 <= j < |entries| && entries[i].0 in bucket && entries[j].0 in bucket ==>
             (entries[i].1 == entries[j].1 <==> bucket[entries[i].0] == bucket[entries[j].0]))
       && (forall v :: 0 <= v < |values| ==> Used(entries, v))
  }

  /** Interning so far: the keys not in `rest` are written, and each model written has one index. */
  ghost predicate Interned(bucket: Bucket, rest: set<Key>, values: seq<string>, indexById: map<Model, nat>,
                           out: seq<(Key, int)>)
  {
    && rest <= bucket.Keys
    && (forall k :: k in bucket && k !in rest <==> Listed(out, k))
    && (forall i, j :: 0 <= i < j < |out| ==> out[i].0 != out[j].0)
    && (forall i :: 0 <= i < |out| ==> out[i].0 in bucket && bucket[out[i].0].Instance?
                                       && bucket[out[i].0].model in indexById
                                       && indexById[bucket[out[i].0].model] == out[i].1)
    && (forall m :: m in indexById ==> indexById[m] < |values| && values[indexById[m]] == m.fields)
    && (forall m, n :: m in indexById && n in indexById && indexById[m] == indexById[n] ==> m == n)
    && (forall v :: 0 <= v < |values| ==> Used(out, v))
  }

  lemma InternNext(bucket: Bucket, rest: set<Key>, values: seq<string>, indexById: map<Model, nat>,
                   out: seq<(Key, int)>, key: Key)
    requires Interned(bucket, rest, values, indexById, out)
    requires key in rest && bucket[key].Instance?
    ensures var m := bucket[key].model;
            if m in indexById then
              Interned(bucket, rest - {key}, values, indexById, out + [(key, indexById[m])])
            else
              Interned(bucket, rest - {key}, values + [m.fields], indexById[m := |values|], out + [(key, |values|)])
  {
    var m := bucket[key].model;
    var i := if m in indexById then indexById[m] else |values|;
    MoreListed(out, (key, i));
    assert !Listed(out, key);
    assert forall j :: 0 <= j < |out| ==> out[j].0 != key by {
      forall j | 0 <= j < |out| ensures out[j].0 != key {
        assert Listed(out, out[j].0);
      }
    }
  }

  lemma InternedIsFaithful(bucket: Bucket, values: seq<string>, indexById: map<Model, nat>, out: seq<(Key, int)>)
    requires Interned(bucket, {}, values, indexById, out)
    ensures Faithful(bucket, RawBucket(Some(values), Some(out)))
  {
    forall k | k in bucket ensures bucket[k].Instance? {
      assert Listed(out, k);
    }
  }

  /** The inner loop of `dump_store`: intern by identity, first come first numbered. */
  method DumpBucket(bucket: Bucket) returns (r: Option<RawBucket>)
    ensures r.Some? <==> AllModels(bucket)
    ensures r.Some? ==> Faithful(bucket, r.value)
  {
    var values: seq<string> := [];
    var indexById: map<Model, nat> := map[];
    var out: seq<(Key, int)> := [];
    var rest := bucket.Keys;
    assert Interned(bucket, rest, values, indexById, out);
    hide Interned, Faithful;
    while rest != {}
      invariant rest <= bucket.Keys
      invariant Interned(bucket, rest, values, indexById, out)
      invariant forall k :: k in bucket && k !in rest ==> bucket[k].Instance?
      decreases rest
    {
      var key :| key in rest;
      if bucket[key].Foreign? {
        return None;
      }
      var model := bucket[key].model;
      InternNext(bucket, rest, values, indexById, out, key);
      if model !in indexById {
        indexById := indexById[model := |values|];
        values := values + [model.fields];
      }
      out := out + [(key, indexById[model])];
      rest := rest - {key};
    }
    InternedIsFaithful(bucket, values, indexById, out);
    r := Some(RawBucket(Some(values), Some(out)));
  }

  ghost predicate FaithfulTenant(buckets: map<string, Bucket>, raws: map<string, RawBucket>) {
    raws.Keys == buckets.Keys && forall b :: b in buckets ==> Faithful(buckets[b], raws[b])
  }

  ghost predicate FaithfulDocument(data: Data, doc: Document) {
    && doc.Document? && doc.format == Some(SNAPSHOT_FORMAT) && doc.tenants.Some?
    && doc.tenants.value.Keys == data.Keys
    && forall t :: t in data ==> FaithfulTenant(data[t], doc.tenants.value[t])
  }

  method DumpTenant(buckets: map<string, Bucket>) returns (r: Option<map<string, RawBucket>>)
    ensures r.Some? <==> forall b :: b in buckets ==> AllModels(buckets[b])
    ensures r.Some? ==> FaithfulTenant(buckets, r.value)
  {
    var raws: map<string, RawBucket> := map[];
    var rest := buckets.Keys;
    while rest != {}
      invariant rest <= buckets.Keys && raws.Keys == buckets.Keys - rest
      invariant forall b :: b in raws ==> Faithful(buckets[b], raws[b])
      decreases rest
    {
      var b :| b in rest;
      var raw := DumpBucket(buckets[b]);
      if raw.None? {
        return None;
      }
      raws := raws[b := raw.value];
      rest := rest - {b};
    }
    r := Some(raws);
  }

  /** `dump_store`: fails exactly when some value is not a model. */
  method DumpStore(store: InMemoryFeatureStore) returns (r: Result<Document, SnapshotError>)
    ensures r == Err(NotAModel) <==>
              exists t, b :: t in store.data && b in store.data[t] && !AllModels(store.data[t][b])
    ensures r.Ok? <==> r != Err(NotAModel)
    ensures r.Ok? ==> FaithfulDocument(store.data, r.value)
  {
    var tenants: map<string, map<string, RawBucket>> := map[];
    var rest := store.data.Keys;
    while rest != {}
      invariant rest <= store.data.Keys && tenants.Keys == store.data.Keys - rest
      invariant forall t :: t in tenants ==> FaithfulTenant(store.data[t], tenants[t])
      decreases rest
    {
      var t :| t in rest;
      var raws := DumpTenant(store.data[t]);
      if raws.None? {
        return Err(NotAModel);
      }
      tenants := tenants[t := raws.value];
      rest := rest - {t};
    }
    forall t, b | t in store.data && b in store.data[t] ensures AllModels(store.data[t][b]) {
      assert FaithfulTenant(store.data[t], tenants[t]);
    }
    r := Ok(Document(Some(SNAPSHOT_FORMAT), Some(tenants)));
  }

  // ----- loading -----

  /** Python list indexing: a negative index counts from the end. */
  function Resolve(index: int, n: nat): Option<nat> {
    if 0 <= index < n then Some(index)
    else if index < 0 && 0 <= index + n then Some(index + n)
    else None
  }

  /** `seed` for each entry in order; `None` is the out-of-range index. */
  function SeedEntries(entries: seq<(Key, int)>, instances: seq<Model>): Option<Bucket> {
    if entries == [] then Some(map[])
    else
      var last := entries[|entries| - 1];
      match SeedEntries(entries[..|entries| - 1], instances)
      case None => None
      case Some(bucket) =>
        var i := Resolve(last.1, |instances|);
        if i.None? then None else Some(bucket[last.0 := Instance(instances[i.value])])
  }

  /** Entries with distinct keys and proper indices are all seeded, each with its own instance. */
  lemma {:induction false} DistinctEntriesSeed(entries: seq<(Key, int)>, instances: seq<Model>)
    requires forall i, j :: 0 <= i < j < |entries| ==> entries[i].0 != entries[j].0
    requires forall i :: 0 <= i < |entries| ==> 0 <= entries[i].1 < |instances|
    ensures var r := SeedEntries(entries, instances);
            && r.Some?
            && (forall k :: k in r.value ==> Listed(entries, k))
            && (forall i :: 0 <= i < |entries| ==>
                  entries[i].0 in r.value && r.value[entries[i].0] == Instance(instances[entries[i].1]))
  {
    if entries != [] {
      var n := |entries| - 1;
      DistinctEntriesSeed(entries[..n], instances);
      var before := SeedEntries(entries[..n], instances).value;
      var r := SeedEntries(entries, instances).value;
      assert entries == entries[..n] + [entries[n]];
      MoreListed(entries[..n], entries[n]);
      forall i | 0 <= i < |entries|
        ensures entries[i].0 in r && r[entries[i].0] == Instance(instances[entries[i].1])
      {
        if i < n {
          assert entries[..n][i] == entries[i] && entries[i].0 != entries[n].0;
        }
      }
    }
  }

  /** Seeding fails exactly on an entry whose index is out of range. */
  lemma {:induction false} SeedingFailsIff(entries: seq<(Key, int)>, instances: seq<Model>)
    ensures SeedEntries(entries, instances).None? <==> !IndicesResolve(entries, |instances|)
  {
    if entries != [] {
      var n := |entries| - 1;
      SeedingFailsIff(entries[..n], instances);
      if IndicesResolve(entries[..n], |instances|) && Resolve(entries[n].1, |instances|).Some? {
        forall i | 0 <= i < |entries| ensures 0 <= entries[i].1 + |instances| && entries[i].1 < |instances| {
          if i < n {
            assert entries[..n][i] == entries[i];
          }
        }
      }
    }
  }

  predicate IndicesResolve(entries: seq<(Key, int)>, n: nat) {
    forall i :: 0 <= i < |entries| ==> 0 <= entries[i].1 + n && entries[i].1 < n
  }

  /** Every listed key holds the instance of its last entry, a negative index counting from the end. */
  lemma {:induction false} LastEntryWins(entries: seq<(Key, int)>, instances: seq<Model>, k: Key)
    requires IndicesResolve(entries, |instances|)
    ensures var r, n := SeedEntries(entries, instances), |instances|;
            && r.Some? && (k in r.value <==> Listed(entries, k))
            && forall i: nat :: LastOf(entries, k, i) ==>
                 var index := entries[i].1;
                 r.value[k] == Instance(instances[if index < 0 then n + index else index])
  {
    if entries != [] {
      var m := |entries| - 1;
      LastEntryWins(entries[..m], instances, k);
      assert entries == entries[..m] + [entries[m]];
      MoreListed(entries[..m], entries[m]);
      if entries[m].0 != k {
        forall i: nat | LastOf(entries, k, i) ensures LastOf(entries[..m], k, i) {
        }
      }
    }
  }

  /** Entry `i` is the last one for the key. */
  ghost predicate LastOf(entries: seq<(Key, int)>, k: Key, i: nat) {
    i < |entries| && entries[i].0 == k && forall j :: i < j < |entries| ==> entries[j].0 != k
  }

  /** `accepts(cls, fields)`: the fields validate as that model class. */
  type Validator = (string, string) -> bool

  /** What is wrong with one bucket of a file, if anything, in the order in which it is looked for. */
  function BucketFault(cls: string, raw: RawBucket, accepts: Validator): Option<SnapshotError> {
    if raw.values.None? || raw.entries.None? then Some(MissingParts)
    else if exists v :: v in raw.values.value && !accepts(cls, v) then Some(InvalidValue)
    else if !IndicesResolve(raw.entries.value, |raw.values.value|) then Some(IndexOutOfRange)
    else None
  }

  function FaultOf(bucket: string, raw: RawBucket, accepts: Validator): Option<SnapshotError> {
    if bucket !in BUCKET_MODELS then Some(UnknownBucket) else BucketFault(BUCKET_MODELS[bucket], raw, accepts)
  }

  /** Validate every value once, as a new instance. */
  method Instantiate(cls: string, values: seq<string>, accepts: Validator) returns (r: Option<seq<Model>>)
    ensures r.Some? <==> forall v :: v in values ==> accepts(cls, v)
    ensures r.Some? ==> |r.value| == |values|
    ensures r.Some? ==> forall i :: 0 <= i < |values| ==> r.value[i].cls == cls && r.value[i].fields == values[i]
    ensures r.Some? ==> forall i :: 0 <= i < |r.value| ==> fresh(r.value[i])
    ensures r.Some? ==> forall i, j :: 0 <= i < j < |r.value| ==> r.value[i] != r.value[j]
  {
    var instances: seq<Model> := [];
    for n := 0 to |values|
      invariant |instances| == n && forall v :: v in values[..n] ==> accepts(cls, v)
      invariant forall i :: 0 <= i < n ==>
                  instances[i].cls == cls && instances[i].fields == values[i] && fresh(instances[i])
      invariant forall i, j :: 0 <= i < j < n ==> instances[i] != instances[j]
    {
      if !accepts(cls, values[n]) {
        return None;
      }
      var m := new Model(cls, values[n]);
      instances := instances + [m];
    }
    r := Some(instances);
  }

  /** Same keys, equal models, and the same keys sharing one object. */
  ghost predicate SameBucket(a: Bucket, b: Bucket) {
    && a.Keys == b.Keys && AllModels(a) && AllModels(b)
    && (forall k :: k in a ==> a[k].model.cls == b[k].model.cls && a[k].model.fields == b[k].model.fields)
    && (forall k, l :: k in a && l in a ==> (a[k] == a[l] <==> b[k] == b[l]))
  }

  /** Same, but read back as models of class `cls`. */
  ghost predicate ReadBackAs(a: Bucket, b: Bucket, cls: string) {
    && a.Keys == b.Keys && AllModels(a) && AllModels(b)
    && (forall k :: k in a ==> b[k].model.cls == cls && a[k].model.fields == b[k].model.fields)
    && (forall k, l :: k in a && l in a ==> (a[k] == a[l] <==> b[k] == b[l]))
  }

  /** The bucket holds models of one class only. */
  ghost predicate ClassesAre(bucket: Bucket, cls: string) {
    forall k :: k in bucket ==> bucket[k].Instance? && bucket[k].model.cls == cls
  }

  /** All fields of the bucket validate as `cls`. */
  ghost predicate Accepted(bucket: Bucket, cls: string, accepts: Validator) {
    forall k :: k in bucket && bucket[k].Instance? ==> accepts(cls, bucket[k].model.fields)
  }

  method LoadBucket(cls: string, raw: RawBucket, accepts: Validator, ghost a: Bucket)
    returns (r: Result<Bucket, SnapshotError>)
    ensures BucketFault(cls, raw, accepts) == if r.Err? then Some(r.error) else None
    ensures Faithful(a, raw) ==>
              if Accepted(a, cls, accepts) then r.Ok? && ReadBackAs(a, r.value, cls) else r == Err(InvalidValue)
    ensures r.Ok? ==> forall k :: k in r.value ==> r.value[k].Instance? && fresh(r.value[k].model)
    ensures r.Ok? ==> ClassesAre(r.value, cls)
  {
    if raw.values.None? || raw.entries.None? {
      return Err(MissingParts);
    }
    var values, entries := raw.values.value, raw.entries.value;
    var instances := Instantiate(cls, values, accepts);
    hide Faithful, Accepted, ReadBackAs;
    if Faithful(a, raw) {
      FaithfulValues(a, raw, cls, accepts);
    }
    if instances.None? {
      return Err(InvalidValue);
    }
    var seeded := SeedEntries(entries, instances.value);
    if Faithful(a, raw) {
      FaithfulReadsBack(a, raw, instances.value, cls);
    }
    SeededAreInstances(entries, instances.value);
    SeedingFailsIff(entries, instances.value);
    if seeded.None? {
      return Err(IndexOutOfRange);
    }
    r := Ok(seeded.value);
  }

  lemma FaithfulValues(a: Bucket, raw: RawBucket, cls: string, accepts: Validator)
    requires Faithful(a, raw)
    ensures Accepted(a, cls, accepts) <==> forall v :: v in raw.values.value ==> accepts(cls, v)
  {
    var values, entries := raw.values.value, raw.entries.value;
    if Accepted(a, cls, accepts) {
      forall v | v in values ensures accepts(cls, v) {
        var n :| 0 <= n < |values| && values[n] == v;
        assert Used(entries, n);
        var i :| 0 <= i < |entries| && entries[i].1 == n;
        assert a[entries[i].0].model.fields == v;
      }
    }
    if forall v :: v in values ==> accepts(cls, v) {
      forall k | k in a ensures accepts(cls, a[k].model.fields) {
        var i :| 0 <= i < |entries| && entries[i].0 == k;
        assert values[entries[i].1] in values;
      }
    }
  }

  lemma FaithfulReadsBack(a: Bucket, raw: RawBucket, instances: seq<Model>, cls: string)
    requires Faithful(a, raw) && |instances| == |raw.values.value|
    requires forall i :: 0 <= i < |instances| ==> instances[i].cls == cls && instances[i].fields == raw.values.value[i]
    requires forall i, j :: 0 <= i < j < |instances| ==> instances[i] != instances[j]
    ensures var b := SeedEntries(raw.entries.value, instances);
            b.Some? && ReadBackAs(a, b.value, cls)
  {
    var entries := raw.entries.value;
    DistinctEntriesSeed(entries, instances);
    var b := SeedEntries(entries, instances).value;
    forall k ensures k in a <==> k in b {
      if k in a {
        var i :| 0 <= i < |entries| && entries[i].0 == k;
      }
    }
    forall k | k in a ensures b[k].Instance? && b[k].model.cls == cls && a[k].model.fields == b[k].model.fields {
      var i :| 0 <= i < |entries| && entries[i].0 == k;
    }
    forall k, l | k in a && l in a ensures a[k] == a[l] <==> b[k] == b[l] {
      var i :| 0 <= i < |entries| && entries[i].0 == k;
      var j :| 0 <= j < |entries| && entries[j].0 == l;
    }
  }

  lemma {:induction false} SeededAreInstances(entries: seq<(Key, int)>, instances: seq<Model>)
    ensures var b := SeedEntries(entries, instances);
            b.Some? ==>
              forall k :: k in b.value ==> b.value[k].Instance? && b.value[k].model in instances
  {
    if entries != [] {
      var n := |entries| - 1;
      SeededAreInstances(entries[..n], instances);
    }
  }

  ghost predicate SameTenant(a: map<string, Bucket>, b: map<string, Bucket>) {
    a.Keys == b.Keys && forall n :: n in a ==> SameBucket(a[n], b[n])
  }

  /** Every bucket holds models of its own class only. */
  ghost predicate WellTyped(data: Data) {
    forall t :: t in data ==> WellTypedTenant(data[t])
  }

  ghost predicate WellTypedTenant(buckets: map<string, Bucket>) {
    forall b :: b in buckets ==> b in BUCKET_MODELS && ClassesAre(buckets[b], BUCKET_MODELS[b])
  }

  /** Models are valid instances of their class. */
  ghost predicate Validated(data: Data, accepts: Validator) {
    forall t, b, k :: t in data && b in data[t] && k in data[t][b] && data[t][b][k].Instance? ==>
      accepts(data[t][b][k].model.cls, data[t][b][k].model.fields)
  }

  ghost predicate SameData(a: Data, b: Data) {
    a.Keys == b.Keys && forall t :: t in a ==> SameTenant(a[t], b[t])
  }

  /** The tenant's buckets of the file, read back where the file is a faithful dump of `buckets`. */
  method LoadTenant(raws: map<string, RawBucket>, accepts: Validator, ghost buckets: map<string, Bucket>)
    returns (r: Result<map<string, Bucket>, SnapshotError>)
    ensures r.Ok? <==> forall b :: b in raws ==> FaultOf(b, raws[b], accepts).None?
    ensures r.Err? ==> exists b :: b in raws && FaultOf(b, raws[b], accepts) == Some(r.error)
    ensures r.Ok? ==> WellTypedTenant(r.value)
    ensures Restorable(buckets, raws, accepts) ==> r.Ok? && SameTenant(buckets, r.value) && r.value != map[]
  {
    hide Faithful, Accepted, ReadBackAs, SameBucket, TypedBucket, ClassesAre, BucketFault;
    var loaded: map<string, Bucket> := map[];
    var rest := raws.Keys;
    ghost var good := Restorable(buckets, raws, accepts);
    while rest != {}
      invariant rest <= raws.Keys
      invariant forall b :: b in raws && b !in rest ==> FaultOf(b, raws[b], accepts).None?
      invariant WellTypedTenant(loaded)
      invariant good ==> loaded.Keys == raws.Keys - rest
      invariant good ==> forall b :: b in loaded ==> SameBucket(buckets[b], loaded[b])
      decreases rest
    {
      var b :| b in rest;
      if b !in BUCKET_MODELS {
        return Err(UnknownBucket);
      }
      ghost var expected := if b in buckets then buckets[b] else map[];
      var bucket := LoadBucket(BUCKET_MODELS[b], raws[b], accepts, expected);
      if good {
        TypedIsAccepted(expected, BUCKET_MODELS[b], accepts);
      }
      if bucket.Err? {
        return Err(bucket.error);
      }
      if good {
        TypedReadsBackSame(expected, bucket.value, BUCKET_MODELS[b], accepts);
      }
      if bucket.value != map[] {
        loaded := loaded[b := bucket.value];
      }
      rest := rest - {b};
    }
    if good {
      SameTenantNotEmpty(buckets, loaded);
    }
    r := Ok(loaded);
  }

  /** The file holds a faithful dump of the tenant's non-empty, well-typed buckets. */
  ghost predicate Restorable(buckets: map<string, Bucket>, raws: map<string, RawBucket>, accepts: Validator) {
    buckets != map[] && FaithfulTenant(buckets, raws) && TypedBuckets(buckets, accepts)
  }

  ghost predicate TypedBuckets(buckets: map<string, Bucket>, accepts: Validator) {
    forall b :: b in buckets ==>
      b in BUCKET_MODELS && buckets[b] != map[] && TypedBucket(buckets[b], BUCKET_MODELS[b], accepts)
  }

  ghost predicate TypedBucket(bucket: Bucket, cls: string, accepts: Validator) {
    forall k :: k in bucket ==>
      bucket[k].Instance? && bucket[k].model.cls == cls && accepts(cls, bucket[k].model.fields)
  }

  lemma TypedIsAccepted(a: Bucket, cls: string, accepts: Validator)
    requires TypedBucket(a, cls, accepts)
    ensures Accepted(a, cls, accepts)
  {
  }

  lemma TypedReadsBackSame(a: Bucket, b: Bucket, cls: string, accepts: Validator)
    requires TypedBucket(a, cls, accepts) && ReadBackAs(a, b, cls) && a != map[]
    ensures SameBucket(a, b) && b != map[]
  {
    var k :| k in a;
    assert k in b;
  }

  predicate ProperHead(doc: Document) {
    doc.Document? && doc.format == Some(SNAPSHOT_FORMAT) && doc.tenants.Some?
  }

  /**
   `load_store`. A file with a proper head loads exactly when no bucket in it has a fault, and the
   error raised is the fault of one of its buckets. On a faithful dump of a store in which
   every bucket holds valid models of its own class it rebuilds that store.
   */
  method LoadStore(doc: Document, accepts: Validator, ghost data: Data)
    returns (r: Result<InMemoryFeatureStore, SnapshotError>)
    ensures doc.NotJson? <==> r == Err(BadJson)
    ensures doc.Document? && doc.format != Some(SNAPSHOT_FORMAT) <==> r == Err(BadFormat)
    ensures doc.Document? && doc.format == Some(SNAPSHOT_FORMAT) && doc.tenants.None? <==> r == Err(NoTenants)
    ensures ProperHead(doc) ==>
              (r.Ok? <==> forall t, b :: t in doc.tenants.value && b in doc.tenants.value[t] ==>
                            FaultOf(b, doc.tenants.value[t][b], accepts).None?)
    ensures ProperHead(doc) && r.Err? ==>
              exists t, b :: t in doc.tenants.value && b in doc.tenants.value[t]
                             && FaultOf(b, doc.tenants.value[t][b], accepts) == Some(r.error)
    ensures FaithfulDocument(data, doc) && SeedBuilt(data) && WellTyped(data) && Validated(data, accepts) ==>
              r.Ok? && SameData(data, r.value.data)
    ensures r.Ok? ==> fresh(r.value) && WellTyped(r.value.data)
  {
    if doc.NotJson? { return Err(BadJson); }
    if doc.format != Some(SNAPSHOT_FORMAT) { return Err(BadFormat); }
    if doc.tenants.None? { return Err(NoTenants); }
    var rebuilt := LoadTenants(doc.tenants.value, accepts, data);
    if FaithfulDocument(data, doc) && SeedBuilt(data) && WellTyped(data) && Validated(data, accepts) {
      forall t | t in data ensures Restorable(data[t], doc.tenants.value[t], accepts) {
        TypedTenant(data, t, accepts);
      }
    }
    if rebuilt.Err? { return Err(rebuilt.error); }
    var store := new InMemoryFeatureStore();
    store.data := rebuilt.value;
    r := Ok(store);
  }

  method LoadTenants(tenants: map<string, map<string, RawBucket>>, accepts: Validator, ghost data: Data)
    returns (r: Result<Data, SnapshotError>)
    ensures r.Ok? <==> forall t, b :: t in tenants && b in tenants[t] ==> FaultOf(b, tenants[t][b], accepts).None?
    ensures r.Err? ==>
              exists t, b :: t in tenants && b in tenants[t] && FaultOf(b, tenants[t][b], accepts) == Some(r.error)
    ensures tenants.Keys == data.Keys && (forall t :: t in data ==> Restorable(data[t], tenants[t], accepts)) ==>
              r.Ok? && SameData(data, r.value)
    ensures r.Ok? ==> WellTyped(r.value)
  {
    hide Restorable, SameTenant, WellTypedTenant, FaultOf;
    var rebuilt: Data := map[];
    var rest := tenants.Keys;
    ghost var good := tenants.Keys == data.Keys && forall t :: t in data ==> Restorable(data[t], tenants[t], accepts);
    while rest != {}
      invariant rest <= tenants.Keys
      invariant WellTyped(rebuilt)
      invariant forall t, b :: t in tenants && t !in rest && b in tenants[t] ==>
                  FaultOf(b, tenants[t][b], accepts).None?
      invariant good ==> rebuilt.Keys == tenants.Keys - rest
      invariant good ==> forall t :: t in rebuilt ==> SameTenant(data[t], rebuilt[t])
      decreases rest
    {
      var t :| t in rest;
      ghost var expected := if t in data then data[t] else map[];
      var loaded := LoadTenant(tenants[t], accepts, expected);
      if loaded.Err? {
        return Err(loaded.error);
      }
      if loaded.value != map[] {
        rebuilt := rebuilt[t := loaded.value];
      }
      rest := rest - {t};
    }
    r := Ok(rebuilt);
  }

  lemma SameTenantNotEmpty(a: map<string, Bucket>, b: map<string, Bucket>)
    requires SameTenant(a, b) && a != map[]
    ensures b != map[]
  {
    var n :| n in a;
    assert n in b;
  }

  lemma TypedTenant(data: Data, t: string, accepts: Validator)
    requires SeedBuilt(data) && WellTyped(data) && Validated(data, accepts) && t in data
    ensures TypedBuckets(data[t], accepts)
  {
    assert WellTypedTenant(data[t]);
    forall b | b in data[t]
      ensures b in BUCKET_MODELS && data[t][b] != map[] && TypedBucket(data[t][b], BUCKET_MODELS[b], accepts)
    {
      assert ClassesAre(data[t][b], BUCKET_MODELS[b]);
      forall k | k in data[t][b]
        ensures data[t][b][k].Instance? && data[t][b][k].model.cls == BUCKET_MODELS[b]
                && accepts(BUCKET_MODELS[b], data[t][b][k].model.fields)
      {
      }
    }
  }

  lemma SameDataSameClasses(a: Data, b: Data)
    requires SameData(a, b) && WellTyped(b)
    ensures WellTyped(a)
  {
    forall t | t in a ensures WellTypedTenant(a[t]) {
      assert SameTenant(a[t], b[t]) && WellTypedTenant(b[t]);
      forall n | n in a[t] ensures n in BUCKET_MODELS && ClassesAre(a[t][n], BUCKET_MODELS[n]) {
        assert SameBucket(a[t][n], b[t][n]) && ClassesAre(b[t][n], BUCKET_MODELS[n]);
      }
    }
  }

  lemma WellTypedHasModels(data: Data)
    requires WellTyped(data)
    ensures forall t, b :: t in data && b in data[t] ==> AllModels(data[t][b])
  {
    forall t, b | t in data && b in data[t] ensures AllModels(data[t][b]) {
      assert WellTypedTenant(data[t]) && ClassesAre(data[t][b], BUCKET_MODELS[b]);
    }
  }

  /**
   The round trip, for every store built by `seed` from valid models. Dumping and loading gives
   back the same tenants, buckets, keys and models, with two keys of a bucket sharing one
   object afterwards exactly when they did before, if and only if every bucket holds models of
   its own class. (`seed` does not check the class, so this is the caller's to keep.)
   */
  method RoundTrip(store: InMemoryFeatureStore, accepts: Validator)
    returns (copy: Result<InMemoryFeatureStore, SnapshotError>)
    requires SeedBuilt(store.data) && Validated(store.data, accepts)
    ensures copy.Ok? && SameData(store.data, copy.value.data) <==> WellTyped(store.data)
    ensures copy.Ok? ==> fresh(copy.value)
  {
    ghost var data := store.data;
    var doc := DumpStore(store);
    if WellTyped(data) {
      WellTypedHasModels(data);
    }
    if doc.Err? {
      return Err(doc.error);
    }
    copy := LoadStore(doc.value, accepts, data);
    if copy.Ok? && SameData(data, copy.value.data) {
      SameDataSameClasses(data, copy.value.data);
    }
  }

  /** Any model filed in a bucket of another class makes the store ill-typed; `seed` lets it in. */
  lemma MisfiledModel(tenant: string, bucket: string, key: Key, model: Model, accepts: Validator)
    requires bucket in BUCKET_MODELS && model.cls != BUCKET_MODELS[bucket] && accepts(model.cls, model.fields)
    ensures var data := Seeded(map[], tenant, bucket, key, Instance(model));
            SeedBuilt(data) && Validated(data, accepts) && !WellTyped(data)
  {
    var data := Seeded(map[], tenant, bucket, key, Instance(model));
    SeedKeepsShape(map[], tenant, bucket, key, Instance(model));
    assert data[tenant][bucket][key] == Instance(model);
    assert !ClassesAre(data[tenant][bucket], BUCKET_MODELS[bucket]);
    assert !WellTypedTenant(data[tenant]);
  }

  /** A valid stock position filed as a current policy does not survive the round trip. */
  method MisfiledExample(fields: string, accepts: Validator)
    returns (store: InMemoryFeatureStore, copy: Result<InMemoryFeatureStore, SnapshotError>)
    requires accepts("StockPosition", fields)
    ensures store.data.Keys == {"t"} && SeedBuilt(store.data) && Validated(store.data, accepts)
    ensures copy.Ok? ==> !SameData(store.data, copy.value.data)
  {
    var model := new Model("StockPosition", fields);
    assert model.cls[0] != BUCKET_MODELS["current_policy"][0];
    MisfiledModel("t", "current_policy", ["P", "L"], model, accepts);
    store := new InMemoryFeatureStore();
    var _ := store.Seed("t", "current_policy", ["P", "L"], Instance(model));
    copy := RoundTrip(store, accepts);
  }
}
