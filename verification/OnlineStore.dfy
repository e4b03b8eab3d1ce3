/**
 `DynamoDbOnlineStore` over a shared table that other runs keep changing, and the serving
 runtime that pins a snapshot on it.
 */
module OnlineStore {
  import opened Wrappers
  import opened Ordering
  import opened PythonText
  import opened OnlineKeys
  import opened OnlineTable
  import opened OnlineProtocol
  import opened OnlineGuarantees

  datatype StoreError = LookupError | ValueError | ClientError

  /** The boto3 table resource. Each method is one atomic, strongly consistent request. */
  class DynamoTable {
    var items: Table

    constructor ()
      ensures items == map[]
    {
      items := map[];
    }

    method GetItem(key: (string, string)) returns (r: Option<Item>)
      ensures r == if key in items then Some(items[key]) else None
    {
      r := if key in items then Some(items[key]) else None;
    }

    /** A put that either meets its condition or raises; with `fault` it raises without effect. */
    method PutItem(key: (string, string), item: Item, c: Condition, fault: bool) returns (ok: bool)
      modifies this
      ensures fault ==> !ok && items == old(items)
      ensures !fault ==> (items, ok) == OnlineTable.PutItem(old(items), key, item, c)
    {
      ok := !fault && Holds(items, key, c);
      if ok {
        items := items[key := item];
      }
    }

    /**
     One page of a prefix query after an exclusive start key: the first `limit` matches in key
     order. The continuation key is the last one returned; it is present while matches
     remain, and `more` lets it be present on the last page as well.
     */
    method Query(tenant: string, prefix: string, after: Option<string>, limit: nat, more: bool)
      returns (page: seq<string>, lastKey: Option<string>)
      requires limit > 0
      ensures forall k :: k in page ==> k in Remaining(items, tenant, prefix, after)
      ensures lastKey.None? ==> forall k :: k in Remaining(items, tenant, prefix, after) ==> k in page
      ensures lastKey.Some? ==> lastKey.value in page
      ensures lastKey.Some? ==> forall k :: k in Remaining(items, tenant, prefix, after) ==>
                                  (k in page <==> StringLe(k, lastKey.value))
      ensures |Remaining(items, tenant, prefix, after)| <= limit && !more ==> lastKey.None?
    {
      var matches := Remaining(items, tenant, prefix, after);
      StringLeIsTotalOrder();
      var listing := SortedList(matches, StringLe);
      if limit < |listing| {
        page := listing[..limit];
        lastKey := Some(listing[limit - 1]);
        PageIsPrefix(listing, matches, limit);
      } else {
        page := listing;
        lastKey := if more && listing != [] then Some(listing[|listing| - 1]) else None;
        if lastKey.Some? {
          PageIsPrefix(listing, matches, |listing|);
        }
        assert page == listing[..|listing|];
      }
    }
  }

  function Remaining(items: Table, tenant: string, prefix: string, after: Option<string>): set<string> {
    set k | k in items && k.0 == tenant && prefix <= k.1 && (after.None? || Less(after.value, k.1)) :: k.1
  }

  lemma PageIsPrefix(listing: seq<string>, s: set<string>, n: nat)
    requires Lists(listing, s, StringLe) && 0 < n <= |listing|
    ensures forall k :: k in s ==> (k in listing[..n] <==> StringLe(k, listing[n - 1]))
  {
    StringLeIsTotalOrder();
    forall k | k in s ensures k in listing[..n] <==> StringLe(k, listing[n - 1]) {
      assert k in listing;
      var i :| 0 <= i < |listing| && listing[i] == k;
      if i < n {
        assert listing[..n][i] == k;
      } else {
        assert StringLe(listing[n - 1], listing[i]) && listing[n - 1] != listing[i];
      }
    }
  }

  /** Everything that shares the table: the table itself and all population runs under way. */
  class World {
    const table: DynamoTable
    var runs: map<nat, Run>
    var used: set<string>
    var history: map<string, seq<nat>>

    constructor (t: DynamoTable)
      requires t.items == map[]
      ensures table == t && State() == INIT
    {
      table := t;
      runs, used, history := map[], {}, map[];
    }

    function State(): Sys
      reads this, table
    {
      Sys(table.items, runs, used, history)
    }

    /** Take over the bookkeeping of a state whose table the table already shows. */
    method Adopt(s: Sys)
      requires s.table == table.items
      modifies this
      ensures State() == s
    {
      runs, used, history := s.runs, s.used, s.history;
    }

    /**
     Other processes act: every listed action that is enabled when its turn comes takes
     place. A run never acts in another's name, and nobody draws a uuid drawn elsewhere.
     */
    method Interfere(actions: seq<Action>, me: Option<nat>, uuid: string) returns (ghost taken: seq<Action>)
      requires Inv(State())
      modifies this, table
      ensures Inv(State())
      ensures Legal(old(State()), taken) && State() == After(old(State()), taken)
      ensures forall a :: a in taken ==> a in actions && Foreign(a, me, uuid)
    {
      taken := [];
      ghost var start := State();
      for i := 0 to |actions|
        invariant Inv(State())
        invariant Legal(start, taken) && State() == After(start, taken)
        invariant forall a :: a in taken ==> a in actions && Foreign(a, me, uuid)
      {
        var a := actions[i];
        if Foreign(a, me, uuid) && Enabled(State(), a) {
          var next := Step(State(), a);
          StepKeepsInv(State(), a);
          LegalSnoc(start, taken, a);
          taken := taken + [a];
          table.items := next.table;
          Adopt(next);
        }
      }
    }
  }

  predicate Foreign(a: Action, me: Option<nat>, uuid: string) {
    me != Some(a.id) && !(a.Begin? && a.generation == uuid)
  }

  lemma {:induction false} LegalAppend(s: Sys, xs: seq<Action>, ys: seq<Action>)
    requires Legal(s, xs) && Legal(After(s, xs), ys)
    ensures Legal(s, xs + ys) && After(s, xs + ys) == After(After(s, xs), ys)
    decreases |xs|
  {
    if xs == [] {
      assert xs + ys == ys;
    } else {
      LegalAppend(Step(s, xs[0]), xs[1..], ys);
      assert (xs + ys)[0] == xs[0] && (xs + ys)[1..] == xs[1..] + ys;
    }
  }

  lemma {:induction false} LegalSplit(s: Sys, xs: seq<Action>, i: nat)
    requires Legal(s, xs) && i <= |xs|
    ensures Legal(s, xs[..i]) && Legal(After(s, xs[..i]), xs[i..])
    ensures After(After(s, xs[..i]), xs[i..]) == After(s, xs)
    decreases i
  {
    if i == 0 {
      assert xs[..i] == [] && xs[i..] == xs;
    } else {
      LegalSplit(Step(s, xs[0]), xs[1..], i - 1);
      assert xs[..i][0] == xs[0] && xs[..i][1..] == xs[1..][..i - 1] && xs[i..] == xs[1..][i - 1..];
    }
  }

  lemma LegalSnoc(s: Sys, xs: seq<Action>, a: Action)
    requires Legal(s, xs) && Enabled(After(s, xs), a)
    ensures Legal(s, xs + [a]) && After(s, xs + [a]) == Step(After(s, xs), a)
  {
    var t := After(s, xs);
    assert [a][1..] == [];
    assert Legal(Step(t, a), []);
    assert Legal(t, [a]);
    assert After(t, [a]) == After(Step(t, a), []);
    LegalAppend(s, xs, [a]);
  }

  /** What happens while one page is fetched: its size, and what others do before the next. */
  datatype Page = Page(limit: nat, more: bool, actions: seq<Action>)

  /** `token` (or, without one, the current pointer) denotes the population committed by run `id`. */
  ghost predicate Denotes(s: Sys, tenant: string, token: Option<Token>, id: nat) {
    && CommittedRun(s, id, tenant)
    && match token
       case None => HistoryOf(s, tenant) != [] && HistoryOf(s, tenant)[|HistoryOf(s, tenant)| - 1] == id
       case Some(t) => t == TokenOf(s, id)
  }

  method DecodePage(page: seq<string>, g: string) returns (r: Result<set<Key>, StoreError>)
    ensures r.Ok? <==> forall k :: k in page ==> DecodeBundleSortKey(k, g).Ok?
    ensures r.Ok? ==> r.value == Decoded(page, g)
    ensures r.Err? ==> r.error == LookupError
  {
    hide DecodeBundleSortKey;
    var keys: set<Key> := {};
    for i := 0 to |page|
      invariant forall k :: k in page[..i] ==> DecodeBundleSortKey(k, g).Ok?
      invariant keys == Decoded(page[..i], g)
    {
      assert page[..i + 1] == page[..i] + [page[i]];
      match DecodeBundleSortKey(page[i], g)
      case Err(_) => return Err(LookupError);
      case Ok(key) => keys := keys + {key};
    }
    assert page[..|page|] == page;
    r := Ok(keys);
  }

  function Decoded(page: seq<string>, g: string): set<Key> {
    set k | k in page && DecodeBundleSortKey(k, g).Ok? :: DecodeBundleSortKey(k, g).value
  }

  class DynamoDbOnlineStore {
    const table: DynamoTable

    constructor (t: DynamoTable)
      ensures table == t
    {
      table := t;
    }

    /** `_read_current_generation`: one consistent read of the pointer item, validated. */
    method ReadCurrentGeneration(tenant: string) returns (r: Result<Option<Token>, StoreError>)
      ensures r == match ReadPointer(table.items, tenant)
                   case Err(_) => Err(LookupError)
                   case Ok(p) => Ok(p)
    {
      var item := table.GetItem(PointerKey(tenant));
      match item
      case None => r := Ok(None);
      case Some(Staged(_)) => r := Err(LookupError);
      case Some(Pointer(g, n)) =>
        r := if !ValidGeneration(g) || n < 0 then Err(LookupError) else Ok(Some(Token(tenant, g, n)));
    }

    method CurrentGeneration(tenant: string) returns (r: Result<Token, StoreError>)
      ensures r == match ReadPointer(table.items, tenant)
                   case Err(_) => Err(LookupError)
                   case Ok(None) => Err(LookupError)
                   case Ok(Some(t)) => Ok(t)
    {
      var current := ReadCurrentGeneration(tenant);
      match current
      case Err(e) => r := Err(e);
      case Ok(None) => r := Err(LookupError);
      case Ok(Some(t)) => r := Ok(t);
    }

    /**
     `uuid` is the fresh generation. In every state `s` the writers can reach, the base that
     the stage records is the generation of the tenant's last commit, and the read never fails;
     on any other table it fails exactly when a malformed item stands where the pointer belongs.
     */
    method BeginPopulation(tenant: string, uuid: string, ghost s: Sys) returns (r: Result<Stage, StoreError>)
      ensures Inv(s) && s.table == table.items ==> r == Ok(Stage(tenant, uuid, HeadOf(s, HistoryOf(s, tenant))))
      ensures r.Ok? ==> r.value.tenant == tenant && r.value.generation == uuid
      ensures r.Err? <==> PointerKey(tenant) in table.items && !WellFormedPointer(table.items[PointerKey(tenant)])
      ensures r.Err? ==> r.error == LookupError
      ensures r.Ok? ==> match r.value.previous
                        case None => PointerKey(tenant) !in table.items
                        case Some(g) => PointerKey(tenant) in table.items && table.items[PointerKey(tenant)].Pointer?
                                        && g == table.items[PointerKey(tenant)].generation
    {
      if Inv(s) && s.table == table.items {
        PointerReadsNewest(s, tenant);
      }
      var current := ReadCurrentGeneration(tenant);
      match current
      case Err(e) => r := Err(e);
      case Ok(p) => r := Ok(Stage(tenant, uuid, if p.None? then None else Some(p.value.generation)));
    }

    method PutBundle(bundle: Bundle, stage: Stage, fault: bool) returns (r: Result<(), StoreError>)
      modifies table
      ensures bundle.tenant != stage.tenant || !ValidGeneration(stage.generation) ==>
                r == Err(ValueError) && table.items == old(table.items)
      ensures bundle.tenant == stage.tenant && ValidGeneration(stage.generation) ==>
                if fault || !OnlineTable.PutBundle(old(table.items), stage, bundle).1
                then r == Err(ClientError) && table.items == old(table.items)
                else r == Ok(()) && table.items == OnlineTable.PutBundle(old(table.items), stage, bundle).0
    {
      if bundle.tenant != stage.tenant || !ValidGeneration(stage.generation) {
        return Err(ValueError);
      }
      var ok := table.PutItem(BundleKey(stage.generation, bundle), Staged(bundle), ItemAbsent, fault);
      r := if ok then Ok(()) else Err(ClientError);
    }

    method CommitPopulation(stage: Stage, keyCount: int, fault: bool) returns (r: Result<Token, StoreError>)
      modifies table
      ensures Blank(stage.tenant) || !ValidGeneration(stage.generation) || keyCount < 0
              || (stage.previous.Some? && !ValidGeneration(stage.previous.value)) ==>
                r == Err(ValueError) && table.items == old(table.items)
      ensures !Blank(stage.tenant) && ValidGeneration(stage.generation) && keyCount >= 0
              && (stage.previous.Some? ==> ValidGeneration(stage.previous.value)) ==>
                if fault || !PutPointer(old(table.items), stage, keyCount).1
                then r == Err(ClientError) && table.items == old(table.items)
                else r == Ok(Token(stage.tenant, stage.generation, keyCount))
                     && table.items == PutPointer(old(table.items), stage, keyCount).0
    {
      if Blank(stage.tenant) || !ValidGeneration(stage.generation) || keyCount < 0
         || (stage.previous.Some? && !ValidGeneration(stage.previous.value)) {
        return Err(ValueError);
      }
      var c := if stage.previous.None? then GenerationAbsent else GenerationIs(stage.previous.value);
      var ok := table.PutItem(PointerKey(stage.tenant), Pointer(stage.generation, keyCount), c, fault);
      r := if ok then Ok(Token(stage.tenant, stage.generation, keyCount)) else Err(ClientError);
    }

    /**
     A given token is accepted exactly when it is the tenant's and well formed; without one the
     pointer decides. In every state `s` the writers can reach, whatever denotes the
     population of a run resolves to that run's token, and before the first commit
     nothing resolves without a token.
     */
    method ResolveGeneration(tenant: string, generation: Option<Token>, ghost s: Sys)
      returns (r: Result<Token, StoreError>)
      ensures r.Ok? ==> r.value.tenant == tenant && ValidGeneration(r.value.generation) && r.value.keyCount >= 0
      ensures r.Err? ==> r.error == LookupError
      ensures generation.Some? && r.Ok? ==> r.value == generation.value
      ensures generation.Some? && r.Err? ==>
                var t := generation.value;
                t.tenant != tenant || !ValidGeneration(t.generation) || t.keyCount < 0
      ensures Inv(s) && s.table == table.items ==>
                forall who :: Denotes(s, tenant, generation, who) ==> r == Ok(TokenOf(s, who))
      ensures Inv(s) && s.table == table.items && generation.None? ==> (r.Err? <==> HistoryOf(s, tenant) == [])
    {
      if Inv(s) && s.table == table.items {
        PointerReadsNewest(s, tenant);
        forall who | Denotes(s, tenant, generation, who) ensures WellFormedRun(s.runs[who], s.used) {
        }
      }
      if generation.None? {
        r := CurrentGeneration(tenant);
      } else {
        var t := generation.value;
        r := if t.tenant != tenant || !ValidGeneration(t.generation) || t.keyCount < 0
             then Err(LookupError) else Ok(t);
      }
    }

    /**
     Page through the keys of one population while `script` says what every other process does
     between the pages. Whatever they do, a token (or current pointer) that denotes the
     population committed by run `who` yields exactly the sorted keys of that run; the
     key-count error never strikes it. An unresolvable token always errors.
     */
    method IterKeys(world: World, tenant: string, generation: Option<Token>, script: seq<Page>, ghost who: nat)
      returns (r: Result<seq<Key>, StoreError>, ghost trace: seq<Action>)
      requires world.table == table && Inv(world.State())
      requires forall p :: p in script ==> p.limit > 0
      modifies world, table
      ensures Inv(world.State())
      ensures Legal(old(world.State()), trace) && world.State() == After(old(world.State()), trace)
      ensures Denotes(old(world.State()), tenant, generation, who) ==>
                r.Ok? && Lists(r.value, KeysOf(old(world.State()).runs[who].bundles), PairLe)
                && |r.value| == |old(world.State()).runs[who].bundles|
      ensures generation.None? && HistoryOf(old(world.State()), tenant) == [] ==> r == Err(LookupError)
      ensures generation.Some? && generation.value.tenant != tenant ==> r == Err(LookupError)
      ensures generation.Some? && r.Ok? ==> |r.value| == generation.value.keyCount
      ensures r.Err? ==> r.error == LookupError
    {
      trace := [];
      ghost var start := world.State();
      ghost var pinned := Denotes(start, tenant, generation, who);
      var resolved := ResolveGeneration(tenant, generation, start);
      if resolved.Err? {
        return Err(LookupError), trace;
      }
      var token := resolved.value;
      assert pinned ==> token == TokenOf(start, who);
      var prefix := BundlePrefix(token.generation);
      ghost var range := SortKeysUnder(start.table, tenant, token.generation);
      var keys: set<Key> := {};
      var after: Option<string> := None;
      var fetched := 0;
      var done := false;
      while !done
        invariant world.table == table && Inv(world.State()) && fetched <= |script|
        invariant Legal(start, trace) && world.State() == After(start, trace)
        invariant pinned ==> SortKeysUnder(world.State().table, tenant, token.generation) == range
        invariant pinned && !done ==> keys == DecodedUpTo(range, after, token.generation)
        invariant pinned && done ==> keys == DecodedSet(range, token.generation)
        decreases !done, |script| - fetched
      {
        var scripted := fetched < |script|;
        var limit := if scripted then script[fetched].limit else |table.items| + 1;
        var page, lastKey := table.Query(tenant, prefix, after, limit, scripted && script[fetched].more);
        if !scripted {
          RemainingIsSmall(table.items, tenant, prefix, after);
        }
        var decoded := DecodePage(page, token.generation);
        RemainingOfRange(table.items, tenant, token.generation, after);
        if pinned {
          forall k | k in page ensures DecodeBundleSortKey(k, token.generation).Ok? {
            CommittedRangeIsOneRun(start, who, tenant, k);
          }
        }
        if decoded.Err? {
          return Err(LookupError), trace;
        }
        if pinned {
          NextPage(range, after, page, lastKey, token.generation);
        }
        keys := keys + decoded.value;
        if lastKey.None? {
          done := true;
        } else {
          after := lastKey;
          ghost var taken := world.Interfere(script[fetched].actions, None, "");
          LegalAppend(start, trace, taken);
          if pinned {
            PinnedReadsAreStable(start, trace + taken, who, tenant);
          }
          trace := trace + taken;
          fetched := fetched + 1;
        }
      }
      if pinned {
        WholeRangeDecodes(start, who, tenant);
      }
      if |keys| != token.keyCount {
        return Err(LookupError), trace;
      }
      PairLeIsTotalOrder();
      var listing := SortedList(keys, PairLe);
      r := Ok(listing);
    }

    /**
     One bundle read; with no token given, others may act between the pointer read and the
     item read. Under whatever they do, a token (or pointer) that denotes the population of
     run `who` yields that run's bundle, and misses exactly the keys that run did not stage.
     */
    method GetBundle(world: World, tenant: string, pn: string, location: string, generation: Option<Token>,
                     actions: seq<Action>, ghost who: nat)
      returns (r: Result<Bundle, StoreError>, ghost trace: seq<Action>)
      requires world.table == table && Inv(world.State())
      modifies world, table
      ensures Inv(world.State())
      ensures Legal(old(world.State()), trace) && world.State() == After(old(world.State()), trace)
      ensures Denotes(old(world.State()), tenant, generation, who) ==>
                && (r.Ok? <==> (pn, location) in KeysOf(old(world.State()).runs[who].bundles))
                && (r.Ok? ==> r.value in old(world.State()).runs[who].bundles && KeyOf(r.value) == (pn, location))
      ensures r.Ok? ==> r.value.tenant == tenant && KeyOf(r.value) == (pn, location)
      ensures generation.Some? && generation.value.tenant != tenant ==> r == Err(LookupError)
    {
      trace := [];
      ghost var start := world.State();
      var resolved := ResolveGeneration(tenant, generation, start);
      if resolved.Err? {
        return Err(LookupError), trace;
      }
      var token := resolved.value;
      trace := world.Interfere(actions, None, "");
      var found := ReadBundle(table.items, token, pn, location);
      if Denotes(start, tenant, generation, who) {
        PinnedReadsAreStable(start, trace, who, tenant);
        CommittedReads(world.State(), who, tenant, pn, location);
      }
      match found
      case Err(_) => r := Err(LookupError);
      case Ok(b) => r := Ok(b);
    }
  }

  // ----- what a page adds -----

  function DecodedSet(range: set<string>, g: string): set<Key> {
    set k | k in range && DecodeBundleSortKey(k, g).Ok? :: DecodeBundleSortKey(k, g).value
  }

  /** The keys of the range up to and including the continuation key. */
  function DecodedUpTo(range: set<string>, after: Option<string>, g: string): set<Key> {
    DecodedSet((set k | k in range && after.Some? && StringLe(k, after.value)), g)
  }

  lemma RemainingOfRange(items: Table, tenant: string, g: string, after: Option<string>)
    ensures forall k :: k in Remaining(items, tenant, BundlePrefix(g), after) <==>
                        k in SortKeysUnder(items, tenant, g) && (after.None? || !StringLe(k, after.value))
  {
    forall k | k in SortKeysUnder(items, tenant, g) && (after.None? || !StringLe(k, after.value))
      ensures k in Remaining(items, tenant, BundlePrefix(g), after)
    {
      assert (tenant, k) in items && (tenant, k).0 == tenant && BundlePrefix(g) <= (tenant, k).1;
    }
    forall k | k in Remaining(items, tenant, BundlePrefix(g), after)
      ensures k in SortKeysUnder(items, tenant, g)
    {
      assert (tenant, k) in items && (tenant, k).0 == tenant && BundlePrefix(g) <= (tenant, k).1;
    }
  }

  lemma RemainingIsSmall(items: Table, tenant: string, prefix: string, after: Option<string>)
    ensures |Remaining(items, tenant, prefix, after)| <= |items|
  {
    var r := Remaining(items, tenant, prefix, after);
    PairedIsSubset(r, tenant, items.Keys);
  }

  lemma {:induction false} PairedIsSubset(r: set<string>, tenant: string, keys: set<(string, string)>)
    requires forall k :: k in r ==> (tenant, k) in keys
    ensures |r| <= |keys|
    decreases r
  {
    if r != {} {
      var k :| k in r;
      PairedIsSubset(r - {k}, tenant, keys - {(tenant, k)});
    }
  }

  lemma NextPage(range: set<string>, after: Option<string>, page: seq<string>, lastKey: Option<string>, g: string)
    requires forall k :: k in page ==> k in range && (after.None? || !StringLe(k, after.value))
    requires lastKey.None? ==> forall k :: k in range && (after.None? || !StringLe(k, after.value)) ==> k in page
    requires lastKey.Some? ==> lastKey.value in page
    requires lastKey.Some? ==> forall k :: k in range && (after.None? || !StringLe(k, after.value)) ==>
                                 (k in page <==> StringLe(k, lastKey.value))
    ensures lastKey.None? ==> DecodedUpTo(range, after, g) + Decoded(page, g) == DecodedSet(range, g)
    ensures lastKey.Some? ==> DecodedUpTo(range, after, g) + Decoded(page, g) == DecodedUpTo(range, lastKey, g)
  {
    StringLeIsTotalOrder();
    var seen := set k | k in range && after.Some? && StringLe(k, after.value);
    if lastKey.None? {
      forall k ensures k in range <==> k in seen || k in page {
      }
    } else {
      var seen' := set k | k in range && StringLe(k, lastKey.value);
      forall k ensures k in seen' <==> k in seen || k in page {
        if k in seen {
          assert StringLe(k, after.value) && !StringLe(lastKey.value, after.value);
          assert StringLe(after.value, lastKey.value);
          assert StringLe(k, lastKey.value);
        }
      }
      assert seen' == set k | k in range && lastKey.Some? && StringLe(k, lastKey.value);
    }
  }

  lemma WholeRangeDecodes(s: Sys, id: nat, tenant: string)
    requires Inv(s) && CommittedRun(s, id, tenant)
    ensures DecodedSet(SortKeysUnder(s.table, tenant, Gen(s, id)), Gen(s, id)) == KeysOf(s.runs[id].bundles)
    ensures |KeysOf(s.runs[id].bundles)| == |s.runs[id].bundles|
  {
    var g := Gen(s, id);
    var range := SortKeysUnder(s.table, tenant, g);
    assert WellFormedRun(s.runs[id], s.used);
    hide Inv, WellFormedRun, ValidBatch, DecodeBundleSortKey, BundleSortKey, SortKeysUnder;
    CommittedRangeIsOneRun(s, id, tenant, "");
    forall key | key in DecodedSet(range, g) ensures key in KeysOf(s.runs[id].bundles) {
      var k :| k in range && DecodeBundleSortKey(k, g).Ok? && DecodeBundleSortKey(k, g).value == key;
      CommittedRangeIsOneRun(s, id, tenant, k);
    }
    forall key | key in KeysOf(s.runs[id].bundles) ensures key in DecodedSet(range, g) {
      var k := BundleSortKey(g, key.0, key.1);
      DecodeBundleInvertsEncode(k, g, key.0, key.1);
      CommittedRangeIsOneRun(s, id, tenant, k);
    }
  }

  // ----- the serving runtime -----

  /** `NativeOnlineSnapshot`. */
  datatype Snapshot = Snapshot(generation: Token, keys: seq<Key>)

  /**
   `NativeOnlineRuntime.snapshot`: read the pointer, then list its keys, while other runs act in
   between and between the pages. The snapshot is the population that was current at
   the pointer read, complete and unmixed, and exists exactly when the tenant had one.
   */
  method TakeSnapshot(world: World, store: DynamoDbOnlineStore, tenant: string,
                      actions: seq<Action>, script: seq<Page>)
    returns (r: Result<Snapshot, StoreError>, ghost trace: seq<Action>)
    requires store.table == world.table && Inv(world.State())
    requires forall p :: p in script ==> p.limit > 0
    modifies world, world.table
    ensures Inv(world.State())
    ensures Legal(old(world.State()), trace) && world.State() == After(old(world.State()), trace)
    ensures r.Ok? <==> HistoryOf(old(world.State()), tenant) != []
    ensures r.Ok? ==>
              var s := old(world.State());
              var who := HistoryOf(s, tenant)[|HistoryOf(s, tenant)| - 1];
              && CommittedRun(s, who, tenant) && r.value.generation == TokenOf(s, who)
              && Lists(r.value.keys, KeysOf(s.runs[who].bundles), PairLe)
  {
    trace := [];
    ghost var start := world.State();
    PointerReadsNewest(start, tenant);
    var generation := store.CurrentGeneration(tenant);
    if generation.Err? {
      return Err(generation.error), trace;
    }
    ghost var h := HistoryOf(start, tenant);
    ghost var who := h[|h| - 1];
    ghost var taken := world.Interfere(actions, None, "");
    PinnedReadsAreStable(start, taken, who, tenant);
    var keys;
    ghost var rest;
    keys, rest := store.IterKeys(world, tenant, Some(generation.value), script, who);
    LegalAppend(start, taken, rest);
    trace := taken + rest;
    r := Ok(Snapshot(generation.value, keys.value));
  }
}
