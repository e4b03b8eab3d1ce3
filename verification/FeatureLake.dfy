/**
 The append-only feature lake and its read client (`iceberg_store.py`): which batch a read
 resolves to, with and without the run ledger, and the in-memory store (`client.py`) it must
 agree with.
 */
module FeatureLake {
  import opened Filtering
  import opened PythonText
  import opened Sequences
  import opened Wrappers

  // ----- tables: growing sequences of rows -----

  /** A manifest run in `extract_run_status`; `status` is the artifact-status JSON text. */
  datatype LedgerRow = LedgerRow(tenant: string, runId: Option<string>, date: int, ingested: Option<int>,
                                 status: string, runStatus: Option<string>)

  /** A materialization batch in `feature_batch_status`. */
  datatype BatchRow = BatchRow(tenant: string, date: int, group: string, runId: string, status: string,
                               ingested: Option<int>, batchIngested: Option<int>, rowCount: int)

  /** A feature row: its key and value columns, and the batch it was appended with. */
  datatype FeatureRow = FeatureRow(tenant: string, date: int, ingested: Option<int>, columns: map<string, string>)

  /** A table that was never created is `None` (or, for features, not in the map). */
  datatype Lake = Lake(ledger: Option<seq<LedgerRow>>, batches: Option<seq<BatchRow>>,
                       features: map<string, seq<FeatureRow>>)

  /** `FeatureStoreLookupError`, whatever its message. */
  datatype Miss = LookupError

  // ----- newest rows -----

  /** The greatest value of `f` over some rows. */
  function MaxOf<T(!new)>(rows: seq<T>, f: T -> int): (m: int)
    requires rows != []
    ensures exists x :: x in rows && f(x) == m
    ensures forall x :: x in rows ==> f(x) <= m
  {
    assert rows == [rows[0]] + rows[1..];
    if |rows| == 1 then f(rows[0])
    else
      var m := MaxOf(rows[1..], f);
      if f(rows[0]) >= m then f(rows[0]) else m
  }

  /** The newest non-null stamp, if any row carries one. */
  function NewestStamp<T(!new)>(rows: seq<T>, stamp: T -> Option<int>): (m: Option<int>)
    ensures m.None? ==> forall x :: x in rows ==> stamp(x).None?
    ensures m.Some? ==> exists x :: x in rows && stamp(x) == m
    ensures m.Some? ==> forall x :: x in rows && stamp(x).Some? ==> stamp(x).value <= m.value
  {
    if rows == [] then None
    else
      assert rows == [rows[0]] + rows[1..];
      var m := NewestStamp(rows[1..], stamp);
      if stamp(rows[0]).None? then m
      else if m.None? || stamp(rows[0]).value >= m.value then stamp(rows[0])
      else m
  }

  /** The rows carrying the newest stamp; all rows when none is stamped. */
  function Freshest<T(!new)>(rows: seq<T>, stamp: T -> Option<int>): seq<T> {
    var newest := NewestStamp(rows, stamp);
    if newest.None? then rows else WithStamp(rows, stamp, newest)
  }

  function WithStamp<T(!new)>(rows: seq<T>, stamp: T -> Option<int>, s: Option<int>): (r: seq<T>)
    ensures forall x :: x in r <==> x in rows && stamp(x) == s
  {
    if rows == [] then []
    else
      assert rows == [rows[0]] + rows[1..];
      (if stamp(rows[0]) == s then [rows[0]] else []) + WithStamp(rows[1..], stamp, s)
  }

  // ----- the run ledger -----

  /** A reader is unpinned, or fixed to one manifest run. */
  datatype Reader = Reader(pinned: Option<string>)

  datatype RunStatus = RunStatus(date: int, statuses: map<string, string>,
                                 runId: Option<string>, runStatus: Option<string>)

  /** `parse` stands for reading a status JSON object of strings; `None` for anything else. */
  type Parser = string -> Option<map<string, string>>

  function OfTenant(rows: seq<LedgerRow>, tenant: string): seq<LedgerRow> {
    Filter(rows, (x: LedgerRow) => x.tenant == tenant)
  }

  function OfRun(rows: seq<LedgerRow>, run: string): seq<LedgerRow> {
    Filter(rows, (x: LedgerRow) => x.runId == Some(run))
  }

  function NewestDate(rows: seq<LedgerRow>): int
    requires rows != []
  {
    MaxOf(rows, (x: LedgerRow) => x.date)
  }

  /** The newest rows: latest date, and within it the newest stamp. */
  function LatestRows(rows: seq<LedgerRow>): seq<LedgerRow>
    requires rows != []
  {
    var date := NewestDate(rows);
    Freshest(Filter(rows, (x: LedgerRow) => x.date == date), (x: LedgerRow) => x.ingested)
  }

  lemma LatestRowsExist(rows: seq<LedgerRow>)
    requires rows != []
    ensures LatestRows(rows) != []
    ensures forall x :: x in LatestRows(rows) ==> x in rows && x.date == NewestDate(rows)
  {
    var dated := Filter(rows, (x: LedgerRow) => x.date == NewestDate(rows));
    var y :| y in rows && y.date == NewestDate(rows);
    assert y in dated;
    var newest := NewestStamp(dated, (x: LedgerRow) => x.ingested);
    if newest.Some? {
      var x :| x in dated && x.ingested == newest;
      assert x in LatestRows(rows);
    }
  }

  /** In `(date, stamp)` order `x` is not newer than `y`; a missing stamp is below every stamp. */
  predicate LedgerNotNewer(x: LedgerRow, y: LedgerRow) {
    x.date < y.date || (x.date == y.date && StampNotNewer(x.ingested, y.ingested))
  }

  predicate StampNotNewer(a: Option<int>, b: Option<int>) {
    a.None? || (b.Some? && a.value <= b.value)
  }

  /** The rows that carry the newest stamp are those no other row is newer than. */
  lemma FreshestAreNewest<T(!new)>(rows: seq<T>, stamp: T -> Option<int>, x: T)
    ensures x in Freshest(rows, stamp) <==> x in rows && forall y :: y in rows ==> StampNotNewer(stamp(y), stamp(x))
  {
    var newest := NewestStamp(rows, stamp);
    if newest.Some? {
      var z :| z in rows && stamp(z) == newest;
    }
  }

  /** The ledger rows that count are the lexicographically newest ones. */
  lemma LatestRowsAreNewest(rows: seq<LedgerRow>, x: LedgerRow)
    requires rows != []
    ensures x in LatestRows(rows) <==> x in rows && forall y :: y in rows ==> LedgerNotNewer(y, x)
  {
    var date := NewestDate(rows);
    var dated := Filter(rows, (y: LedgerRow) => y.date == date);
    var z :| z in rows && z.date == date;
    FreshestAreNewest(dated, (y: LedgerRow) => y.ingested, x);
    hide Freshest, Filter;
    if x in LatestRows(rows) {
      forall y | y in rows ensures LedgerNotNewer(y, x) {
        if y.date == date { assert y in dated; }
      }
    }
    if x in rows && forall y :: y in rows ==> LedgerNotNewer(y, x) {
      assert LedgerNotNewer(z, x);
      assert x in dated;
      forall y | y in dated ensures StampNotNewer(y.ingested, x.ingested) {
        assert LedgerNotNewer(y, x);
      }
    }
  }

  /** What the newest rows say; they must agree on one well-formed payload. */
  function StatusOfRows(rows: seq<LedgerRow>, parse: Parser): Result<RunStatus, Miss>
    requires rows != []
  {
    if exists x :: x in rows && x.status != rows[0].status then Err(LookupError)
    else match parse(rows[0].status)
      case None => Err(LookupError)
      case Some(statuses) => Ok(RunStatus(rows[0].date, statuses, rows[0].runId, rows[0].runStatus))
  }

  /** `_latest_run_status`: `Ok(None)` when no ledger is provisioned for the tenant. */
  function LatestRunStatus(lake: Lake, reader: Reader, tenant: string, parse: Parser): Result<Option<RunStatus>, Miss> {
    if lake.ledger.None? then Ok(None)
    else
      var rows := OfTenant(lake.ledger.value, tenant);
      if rows == [] then Ok(None)
      else
        var chosen := if reader.pinned.None? then rows else OfRun(rows, reader.pinned.value);
        if chosen == [] then Err(LookupError)
        else
          LatestRowsExist(chosen);
          match StatusOfRows(LatestRows(chosen), parse)
          case Err(e) => Err(e)
          case Ok(s) => Ok(Some(s))
  }

  /** `pin_latest_run`. */
  function PinLatestRun(lake: Lake, reader: Reader, tenant: string, parse: Parser): Result<Reader, Miss> {
    match LatestRunStatus(lake, reader, tenant, parse)
    case Err(e) => Err(e)
    case Ok(None) => Ok(reader)
    case Ok(Some(status)) =>
      if reader.pinned.Some? then Ok(reader)
      else if status.runId.None? || Blank(status.runId.value) then Err(LookupError)
      else Ok(Reader(status.runId))
  }

  /** No ledger row says anything about the tenant. */
  ghost predicate NoLedger(lake: Lake, tenant: string) {
    lake.ledger.Some? ==> forall x :: x in lake.ledger.value ==> x.tenant != tenant
  }

  /** A ledger row the reader may go by: the tenant's, and for a pinned reader its run's. */
  ghost predicate Concerns(lake: Lake, reader: Reader, tenant: string, x: LedgerRow) {
    lake.ledger.Some? && x in lake.ledger.value && x.tenant == tenant
    && (reader.pinned.Some? ==> x.runId == reader.pinned)
  }

  /** One of them that no other is newer than. */
  ghost predicate Newest(lake: Lake, reader: Reader, tenant: string, x: LedgerRow) {
    Concerns(lake, reader, tenant, x) && forall y :: Concerns(lake, reader, tenant, y) ==> LedgerNotNewer(y, x)
  }

  /** `s` is what the row says. */
  ghost predicate Says(x: LedgerRow, s: RunStatus, parse: Parser) {
    x.date == s.date && x.runId == s.runId && x.runStatus == s.runStatus && parse(x.status) == Some(s.statuses)
  }

  lemma NoLedgerIff(lake: Lake, tenant: string)
    ensures NoLedger(lake, tenant) <==> lake.ledger.None? || OfTenant(lake.ledger.value, tenant) == []
  {
    if lake.ledger.Some? && OfTenant(lake.ledger.value, tenant) != [] {
      var x := OfTenant(lake.ledger.value, tenant)[0];
      assert x in OfTenant(lake.ledger.value, tenant);
    }
    if !NoLedger(lake, tenant) {
      var x :| x in lake.ledger.value && x.tenant == tenant;
      assert x in OfTenant(lake.ledger.value, tenant);
    }
  }

  /** The rows chosen for a reader are those that concern it. */
  lemma ChosenRows(lake: Lake, reader: Reader, tenant: string, chosen: seq<LedgerRow>)
    requires lake.ledger.Some?
    requires chosen == var rows := OfTenant(lake.ledger.value, tenant);
                       if reader.pinned.None? then rows else OfRun(rows, reader.pinned.value)
    ensures forall x :: x in chosen <==> Concerns(lake, reader, tenant, x)
  {
  }

  /**
   What the ledger says to a reader. It says nothing exactly when it has no row of the tenant; it
   gives a status exactly when some row concerns the reader and the newest ones agree on one
   well-formed payload; and the status is that of one of the newest rows.
   */
  lemma LatestRunStatusIff(lake: Lake, reader: Reader, tenant: string, parse: Parser)
    ensures var r := LatestRunStatus(lake, reader, tenant, parse);
            && (r == Ok(None) <==> NoLedger(lake, tenant))
            && (r.Ok? && r.value.Some? <==>
                && (exists x :: Newest(lake, reader, tenant, x))
                && (forall x, y :: Newest(lake, reader, tenant, x) && Newest(lake, reader, tenant, y) ==>
                      x.status == y.status && parse(x.status).Some?))
            && (r.Ok? && r.value.Some? ==>
                exists x :: Newest(lake, reader, tenant, x) && Says(x, r.value.value, parse))
  {
    NoLedgerIff(lake, tenant);
    if lake.ledger.Some? {
      var rows := OfTenant(lake.ledger.value, tenant);
      var chosen := if reader.pinned.None? then rows else OfRun(rows, reader.pinned.value);
      ChosenRows(lake, reader, tenant, chosen);
      if chosen != [] {
        LatestRowsExist(chosen);
        var latest := LatestRows(chosen);
        forall x ensures x in latest <==> Newest(lake, reader, tenant, x) {
          LatestRowsAreNewest(chosen, x);
        }
        assert latest[0] in latest;
        hide LatestRows, OfTenant, OfRun, Newest, Concerns;
        StatusOfRowsIff(latest, parse);
      } else {
        forall x ensures !Newest(lake, reader, tenant, x) {
        }
      }
    } else {
      forall x ensures !Newest(lake, reader, tenant, x) {
      }
    }
  }

  lemma StatusOfRowsIff(rows: seq<LedgerRow>, parse: Parser)
    requires rows != []
    ensures StatusOfRows(rows, parse).Ok? <==>
            forall x, y :: x in rows && y in rows ==> x.status == y.status && parse(x.status).Some?
    ensures StatusOfRows(rows, parse).Ok? ==> Says(rows[0], StatusOfRows(rows, parse).value, parse)
  {
    assert rows[0] in rows;
  }

  /**
   What pinning does. Without a ledger row of the tenant an unpinned reader stays unpinned; with
   one it is pinned, exactly when the ledger resolves to a run that has a name, and then to the
   run of one of the tenant's newest rows. A pinned reader stays as it is.
   */
  lemma PinLatestRunIff(lake: Lake, tenant: string, parse: Parser)
    ensures NoLedger(lake, tenant) ==> PinLatestRun(lake, Reader(None), tenant, parse) == Ok(Reader(None))
    ensures !NoLedger(lake, tenant) ==>
              var r := PinLatestRun(lake, Reader(None), tenant, parse);
              var s := LatestRunStatus(lake, Reader(None), tenant, parse);
              && (r.Ok? <==> s.Ok? && s.value.Some? && s.value.value.runId.Some? && !Blank(s.value.value.runId.value))
              && (r.Ok? ==>
                  && r.value.pinned.Some? && !Blank(r.value.pinned.value)
                  && exists x :: Newest(lake, Reader(None), tenant, x) && x.runId == r.value.pinned
                                 && Says(x, s.value.value, parse))
    ensures forall run :: PinLatestRun(lake, Reader(Some(run)), tenant, parse) ==
                          if LatestRunStatus(lake, Reader(Some(run)), tenant, parse).Ok?
                          then Ok(Reader(Some(run))) else Err(LookupError)
  {
    LatestRunStatusIff(lake, Reader(None), tenant, parse);
    hide LatestRunStatus, Newest, NoLedger;
    forall run
      ensures PinLatestRun(lake, Reader(Some(run)), tenant, parse) ==
              if LatestRunStatus(lake, Reader(Some(run)), tenant, parse).Ok?
              then Ok(Reader(Some(run))) else Err(LookupError)
    {
      var s := LatestRunStatus(lake, Reader(Some(run)), tenant, parse);
      assert s.Err? ==> s.error == LookupError;
    }
  }

  // ----- batches -----

  /** The batch a read is served from: its date, its stamp, and the rows the batch claims. */
  datatype Cutoff = Cutoff(date: int, stamp: Option<int>)

  predicate BatchOf(x: BatchRow, tenant: string, date: int, group: string, run: string) {
    x.tenant == tenant && x.date == date && x.group == group && x.runId == run
  }

  /** `_committed_feature_cutoff`. */
  function CommittedCutoff(lake: Lake, tenant: string, group: string, status: RunStatus): Result<(Cutoff, int), Miss> {
    if lake.batches.None? || status.runId.None? || status.runId.value == "" then Err(LookupError)
    else
      var rows := Filter(lake.batches.value,
                         (x: BatchRow) => BatchOf(x, tenant, status.date, group, status.runId.value));
      var completed := Filter(rows, (x: BatchRow) => x.status == "completed");
      if completed == [] then Err(LookupError)
      else
        var newest := Freshest(completed, (x: BatchRow) => x.ingested);
        if newest == []
           || exists x :: x in newest && (x.batchIngested, x.rowCount) != (newest[0].batchIngested, newest[0].rowCount)
        then Err(LookupError)
        else Ok((Cutoff(status.date, newest[0].batchIngested), newest[0].rowCount))
  }

  /** A completed batch row of the run that no other completed batch row of it is newer than. */
  ghost predicate NewestCommit(lake: Lake, tenant: string, group: string, status: RunStatus, x: BatchRow) {
    Commits(lake, tenant, group, status, x)
    && forall y :: Commits(lake, tenant, group, status, y) ==> StampNotNewer(y.ingested, x.ingested)
  }

  ghost predicate Commits(lake: Lake, tenant: string, group: string, status: RunStatus, x: BatchRow) {
    lake.batches.Some? && status.runId.Some? && status.runId.value != "" && x in lake.batches.value
    && BatchOf(x, tenant, status.date, group, status.runId.value) && x.status == "completed"
  }

  /**
   The committed cutoff is what the newest commits of the run agree on: it is found exactly when
   there is a completed batch and all newest ones carry the same stamp and row count.
   */
  lemma CommittedCutoffIsNewest(lake: Lake, tenant: string, group: string, status: RunStatus, c: Cutoff, n: int)
    ensures CommittedCutoff(lake, tenant, group, status) == Ok((c, n)) <==>
              && c.date == status.date
              && (exists x :: NewestCommit(lake, tenant, group, status, x))
              && (forall x :: NewestCommit(lake, tenant, group, status, x) ==>
                    (x.batchIngested, x.rowCount) == (c.stamp, n))
  {
    if lake.batches.Some? && status.runId.Some? && status.runId.value != "" {
      var rows := Filter(lake.batches.value,
                         (x: BatchRow) => BatchOf(x, tenant, status.date, group, status.runId.value));
      var completed := Filter(rows, (x: BatchRow) => x.status == "completed");
      var newest := Freshest(completed, (x: BatchRow) => x.ingested);
      assert forall x :: x in completed <==> Commits(lake, tenant, group, status, x);
      forall x ensures x in newest <==> NewestCommit(lake, tenant, group, status, x) {
        FreshestAreNewest(completed, (y: BatchRow) => y.ingested, x);
      }
      hide Freshest, Filter, Commits, NewestCommit;
      if newest != [] {
        assert newest[0] in newest;
      }
    }
  }

  /** `_table_cutoff` without a date: the newest date, and the newest stamp within it. */
  function TableCutoff(table: seq<FeatureRow>, tenant: string): Option<Cutoff> {
    var rows := Filter(table, (x: FeatureRow) => x.tenant == tenant);
    if rows == [] then None
    else
      var date := MaxOf(rows, (x: FeatureRow) => x.date);
      var dated := Filter(rows, (x: FeatureRow) => x.date == date);
      Some(Cutoff(date, NewestStamp(dated, (x: FeatureRow) => x.ingested)))
  }

  /** `_FEATURE_SOURCE_DOMAINS`. */
  function RequiredDomains(group: string): set<string> {
    match group
    case "demand_history" => {"demand_history_rotables", "demand_history_expendables"}
    case "causal_utilization" => {"causal_values"}
    case "vendor_economics" => {"pn_vendor_price"}
    case "part_attributes" => {"part_master"}
    case "criticality" => {"part_master"}
    case "interchangeable_graph" => {"part_chain_details"}
    case "location_graph" => {"location_master"}
    case "open_orders_snapshot" => {"order_plan"}
    case "requisition_snapshot" => {"order_plan_data_requisition"}
    case "stock_position" => {"stock_amount"}
    case "current_policy" => {"stock_level_upload"}
    case _ => {}
  }

  predicate Succeeded(statuses: map<string, string>, domain: string) {
    domain in statuses && statuses[domain] == "succeeded"
  }

  /** `_require_feature_sources`: any one source suffices for lead times, all are needed elsewhere. */
  predicate SourcesAvailable(group: string, status: Option<RunStatus>) {
    status.None? ||
    if group == "lead_time_distribution"
    then Succeeded(status.value.statuses, "pn_vendor_price")
         || Succeeded(status.value.statuses, "order_plan_closed_orders")
    else forall d :: d in RequiredDomains(group) ==> Succeeded(status.value.statuses, d)
  }

  predicate InBatch(x: FeatureRow, tenant: string, c: Cutoff) {
    x.tenant == tenant && x.date == c.date && (c.stamp.Some? ==> x.ingested == c.stamp)
  }

  predicate Matches(x: FeatureRow, key: map<string, string>) {
    forall c :: c in key ==> c in x.columns && x.columns[c] == key[c]
  }

  function TableOf(lake: Lake, group: string): seq<FeatureRow> {
    if group in lake.features then lake.features[group] else []
  }

  /** The batch a read of `group` is served from; `Ok(None)` means there is none to serve. */
  function ServingCutoff(lake: Lake, reader: Reader, tenant: string, group: string, parse: Parser)
    : Result<Option<Cutoff>, Miss>
  {
    match LatestRunStatus(lake, reader, tenant, parse)
    case Err(e) => Err(e)
    case Ok(status) =>
      if !SourcesAvailable(group, status) then Err(LookupError)
      else if status.None? then Ok(TableCutoff(TableOf(lake, group), tenant))
      else match CommittedCutoff(lake, tenant, group, status.value)
        case Err(e) => Err(e)
        case Ok((cutoff, rowCount)) => Ok(if rowCount > 0 then Some(cutoff) else None)
  }

  /** `_scan_latest`. */
  function ScanLatest(lake: Lake, reader: Reader, tenant: string, group: string, key: map<string, string>,
                      parse: Parser)
    : Result<seq<FeatureRow>, Miss>
  {
    if group !in lake.features then Err(LookupError)
    else ReadAt(lake.features[group], ServingCutoff(lake, reader, tenant, group, parse), tenant, key)
  }

  function ReadAt(table: seq<FeatureRow>, c: Result<Option<Cutoff>, Miss>, tenant: string, key: map<string, string>)
    : Result<seq<FeatureRow>, Miss>
  {
    match c
    case Err(e) => Err(e)
    case Ok(None) => Err(LookupError)
    case Ok(Some(cutoff)) =>
      var rows := RowsAt(table, tenant, cutoff, key);
      if rows == [] then Err(LookupError) else Ok(rows)
  }

  /** A batch narrowed to one key. */
  function RowsAt(table: seq<FeatureRow>, tenant: string, cutoff: Cutoff, key: map<string, string>): seq<FeatureRow> {
    Filter(table, (x: FeatureRow) => InBatch(x, tenant, cutoff) && Matches(x, key))
  }

  // ----- which reads the ledger allows -----

  /** Every feature group with each source domain it cannot do without. */
  const NEEDS: set<(string, string)> := {
    ("demand_history", "demand_history_rotables"), ("demand_history", "demand_history_expendables"),
    ("causal_utilization", "causal_values"), ("vendor_economics", "pn_vendor_price"),
    ("part_attributes", "part_master"), ("criticality", "part_master"),
    ("interchangeable_graph", "part_chain_details"), ("location_graph", "location_master"),
    ("open_orders_snapshot", "order_plan"), ("requisition_snapshot", "order_plan_data_requisition"),
    ("stock_position", "stock_amount"), ("current_policy", "stock_level_upload")}

  lemma NamesDiffer()
    ensures |"demand_history"| == |"location_graph"| == |"stock_position"| == |"current_policy"| == 14
    ensures |"causal_utilization"| == 18 && |"vendor_economics"| == 16 && |"part_attributes"| == 15
    ensures |"criticality"| == 11 && |"interchangeable_graph"| == 21
    ensures |"open_orders_snapshot"| == |"requisition_snapshot"| == 20
    ensures "demand_history"[0] == 'd' && "location_graph"[0] == 'l' && "stock_position"[0] == 's'
    ensures "current_policy"[0] == 'c' && "open_orders_snapshot"[0] == 'o' && "requisition_snapshot"[0] == 'r'
  {
  }

  lemma RequiredIff(group: string, domain: string)
    ensures domain in RequiredDomains(group) <==> (group, domain) in NEEDS
  {
    NamesDiffer();
  }

  /** The sources a group is built from have succeeded: one of two for lead times, all it needs elsewhere. */
  ghost predicate SourcesReady(group: string, statuses: map<string, string>) {
    if group == "lead_time_distribution"
    then ("pn_vendor_price" in statuses && statuses["pn_vendor_price"] == "succeeded")
         || ("order_plan_closed_orders" in statuses && statuses["order_plan_closed_orders"] == "succeeded")
    else forall d :: (group, d) in NEEDS ==> d in statuses && statuses[d] == "succeeded"
  }

  lemma SourcesReadyIff(group: string, status: RunStatus)
    ensures SourcesAvailable(group, Some(status)) <==> SourcesReady(group, status.statuses)
  {
    hide RequiredDomains;
    forall d ensures d in RequiredDomains(group) <==> (group, d) in NEEDS {
      RequiredIff(group, d);
    }
  }

  /** The run's newest commits of the group agree on the stamp `stamp` and on some rows. */
  ghost predicate CommittedUnder(lake: Lake, tenant: string, group: string, s: RunStatus, stamp: Option<int>) {
    && (exists x :: NewestCommit(lake, tenant, group, s, x))
    && (forall x :: NewestCommit(lake, tenant, group, s, x) ==> x.batchIngested == stamp && x.rowCount > 0)
    && (forall x, y :: NewestCommit(lake, tenant, group, s, x) && NewestCommit(lake, tenant, group, s, y) ==>
          x.rowCount == y.rowCount)
  }

  /**
   What a read through the ledger returns. It succeeds exactly when the table exists, the run's
   sources for the group succeeded, its newest commits agree on a stamp and on a positive row
   count, and the table has such rows for the key; and it returns precisely those rows.
   */
  lemma LedgerReadIff(lake: Lake, reader: Reader, tenant: string, group: string, key: map<string, string>,
                      parse: Parser, s: RunStatus)
    requires LatestRunStatus(lake, reader, tenant, parse) == Ok(Some(s))
    ensures var r := ScanLatest(lake, reader, tenant, group, key, parse);
            && (r.Ok? <==>
                group in lake.features && SourcesReady(group, s.statuses)
                && exists x, stamp :: CommittedUnder(lake, tenant, group, s, stamp)
                     && x in lake.features[group] && Serves(x, tenant, s.date, stamp, key))
            && (r.Ok? ==> forall stamp :: CommittedUnder(lake, tenant, group, s, stamp) ==>
                  forall x :: x in r.value <==> x in lake.features[group] && Serves(x, tenant, s.date, stamp, key))
  {
    hide *;
    LedgerScan(lake, reader, tenant, group, key, parse, s);
    var c := CommittedCutoff(lake, tenant, group, s);
    forall stamp
      ensures CommittedUnder(lake, tenant, group, s, stamp) <==>
              c.Ok? && c.value.1 > 0 && c.value.0 == Cutoff(s.date, stamp)
    {
      CommittedUnderIff(lake, tenant, group, s, stamp);
    }
    if group in lake.features && c.Ok? && c.value.1 > 0 {
      var table, cutoff := lake.features[group], c.value.0;
      CutoffHasDate(lake, tenant, group, s);
      assert CommittedUnder(lake, tenant, group, s, cutoff.stamp);
      RowsServed(table, tenant, cutoff, key);
      var rows := RowsAt(table, tenant, cutoff, key);
      assert rows != [] ==> rows[0] in rows;
    }
  }

  lemma LedgerScan(lake: Lake, reader: Reader, tenant: string, group: string, key: map<string, string>,
                   parse: Parser, s: RunStatus)
    requires LatestRunStatus(lake, reader, tenant, parse) == Ok(Some(s))
    ensures var c := CommittedCutoff(lake, tenant, group, s);
            ScanLatest(lake, reader, tenant, group, key, parse) ==
            if group in lake.features && SourcesReady(group, s.statuses) && c.Ok? && c.value.1 > 0
               && RowsAt(lake.features[group], tenant, c.value.0, key) != []
            then Ok(RowsAt(lake.features[group], tenant, c.value.0, key)) else Err(LookupError)
  {
    SourcesReadyIff(group, s);
    var c := CommittedCutoff(lake, tenant, group, s);
    assert c.Err? ==> c.error == LookupError;
    hide LatestRunStatus, CommittedCutoff, SourcesReady, SourcesAvailable, TableCutoff, RowsAt;
  }

  lemma RowsServed(table: seq<FeatureRow>, tenant: string, cutoff: Cutoff, key: map<string, string>)
    ensures forall x :: x in RowsAt(table, tenant, cutoff, key) <==>
              x in table && Serves(x, tenant, cutoff.date, cutoff.stamp, key)
  {
    forall x ensures Serves(x, tenant, cutoff.date, cutoff.stamp, key) <==>
                     InBatch(x, tenant, cutoff) && Matches(x, key)
    {
      ServesIff(x, tenant, cutoff, key);
    }
  }

  /** The row is the tenant's, of this date and, if there is a stamp, of this stamp, and has the key's columns. */
  ghost predicate Serves(x: FeatureRow, tenant: string, date: int, stamp: Option<int>, key: map<string, string>) {
    x.tenant == tenant && x.date == date && (stamp.None? || x.ingested == stamp)
    && forall c :: c in key ==> c in x.columns && x.columns[c] == key[c]
  }

  lemma ServesIff(x: FeatureRow, tenant: string, c: Cutoff, key: map<string, string>)
    ensures Serves(x, tenant, c.date, c.stamp, key) <==> InBatch(x, tenant, c) && Matches(x, key)
  {
  }

  lemma CutoffHasDate(lake: Lake, tenant: string, group: string, s: RunStatus)
    requires CommittedCutoff(lake, tenant, group, s).Ok?
    ensures CommittedCutoff(lake, tenant, group, s).value.0.date == s.date
  {
  }

  lemma CommittedUnderIff(lake: Lake, tenant: string, group: string, s: RunStatus, stamp: Option<int>)
    ensures var c := CommittedCutoff(lake, tenant, group, s);
            CommittedUnder(lake, tenant, group, s, stamp) <==>
            c.Ok? && c.value.1 > 0 && c.value.0 == Cutoff(s.date, stamp)
  {
    hide CommittedCutoff, NewestCommit;
    var c := CommittedCutoff(lake, tenant, group, s);
    if CommittedUnder(lake, tenant, group, s, stamp) {
      var x :| NewestCommit(lake, tenant, group, s, x);
      CommittedCutoffIsNewest(lake, tenant, group, s, Cutoff(s.date, stamp), x.rowCount);
    }
    if c.Ok? {
      CommittedCutoffIsNewest(lake, tenant, group, s, c.value.0, c.value.1);
    }
  }

  /** `iter_inference_keys`, as the set it sorts: missing sources give no keys, not an error. */
  function InferenceKeys(lake: Lake, reader: Reader, tenant: string, parse: Parser): Result<set<(string, string)>, Miss>
    requires StockRowsHaveKeys(TableOf(lake, "stock_position"))
  {
    if "stock_position" !in lake.features then Ok({})
    else match LatestRunStatus(lake, reader, tenant, parse)
      case Err(e) => Err(e)
      case Ok(status) =>
        if !SourcesAvailable("stock_position", status) then Ok({})
        else match ServingCutoff(lake, reader, tenant, "stock_position", parse)
          case Err(e) => Err(e)
          case Ok(None) => Ok({})
          case Ok(Some(cutoff)) =>
            Ok(KeysAt(lake.features["stock_position"], tenant, cutoff))
  }

  function KeysAt(table: seq<FeatureRow>, tenant: string, cutoff: Cutoff): set<(string, string)>
    requires StockRowsHaveKeys(table)
  {
    set x | x in table && InBatch(x, tenant, cutoff) :: (x.columns["pn"], x.columns["location"])
  }

  predicate StockRowsHaveKeys(rows: seq<FeatureRow>) {
    forall x :: x in rows ==> "pn" in x.columns && "location" in x.columns
  }

  /** Every listed inference key has a stock row the scan finds, and every key the scan finds is listed. */
  lemma InferenceKeysAreReadable(lake: Lake, reader: Reader, tenant: string, parse: Parser, pn: string,
                                 location: string)
    requires StockRowsHaveKeys(TableOf(lake, "stock_position"))
    ensures var keys := InferenceKeys(lake, reader, tenant, parse);
            var scan := ScanLatest(lake, reader, tenant, "stock_position", map["pn" := pn, "location" := location],
                                   parse);
            keys.Ok? && (pn, location) in keys.value <==> scan.Ok?
  {
    var key := map["pn" := pn, "location" := location];
    if "stock_position" in lake.features {
      var cutoff := ServingCutoff(lake, reader, tenant, "stock_position", parse);
      if cutoff.Ok? && cutoff.value.Some? {
        var c := cutoff.value.value;
        var table := lake.features["stock_position"];
        var rows := RowsAt(table, tenant, c, key);
        if rows != [] {
          assert rows[0] in rows;
        }
        forall x | x in table && InBatch(x, tenant, c) && x.columns["pn"] == pn && x.columns["location"] == location
          ensures x in rows
        {
          assert Matches(x, key);
        }
      }
    }
  }

  // ----- pinning does not change what is read now -----

  /** The rows of the run named by the newest rows are newest among themselves, in the same order. */
  lemma LatestRowsOfRun(rows: seq<LedgerRow>, run: string)
    requires rows != [] && LatestRows(rows) != [] && LatestRows(rows)[0].runId == Some(run)
    ensures OfRun(rows, run) != []
    ensures LatestRows(OfRun(rows, run)) == OfRun(LatestRows(rows), run)
  {
    LatestRowsExist(rows);
    var first := LatestRows(rows)[0];
    assert first in LatestRows(rows);
    NewestDateOfRun(rows, OfRun(rows, run), first);
    FreshestOfRun(rows, OfRun(rows, run), run, NewestDate(rows), first);
  }

  lemma NewestDateOfRun(rows: seq<LedgerRow>, mine: seq<LedgerRow>, first: LedgerRow)
    requires rows != [] && first in mine && first.date == NewestDate(rows)
    requires forall x :: x in mine ==> x in rows
    ensures mine != [] && NewestDate(mine) == NewestDate(rows)
  {
  }

  lemma FreshestOfRun(rows: seq<LedgerRow>, mine: seq<LedgerRow>, run: string, date: int, first: LedgerRow)
    requires mine == OfRun(rows, run)
    requires var dated := Filter(rows, (x: LedgerRow) => x.date == date);
             first in Freshest(dated, (x: LedgerRow) => x.ingested) && first.runId == Some(run)
    ensures Freshest(Filter(mine, (x: LedgerRow) => x.date == date), (x: LedgerRow) => x.ingested)
         == OfRun(Freshest(Filter(rows, (x: LedgerRow) => x.date == date), (x: LedgerRow) => x.ingested), run)
  {
    var isDate := (x: LedgerRow) => x.date == date;
    var isRun := (x: LedgerRow) => x.runId == Some(run);
    var stamp := (x: LedgerRow) => x.ingested;
    var dated, minedated := Filter(rows, isDate), Filter(mine, isDate);
    NarrowBoth(rows, isRun, isDate);
    assert minedated == Filter(dated, isRun);
    assert first in dated;
    FreshestWithin(dated, isRun, first, stamp);
  }

  /** If a freshest row meets `p`, the freshest rows meeting `p` are the freshest rows, narrowed to `p`. */
  lemma FreshestWithin(dated: seq<LedgerRow>, p: LedgerRow -> bool, first: LedgerRow, stamp: LedgerRow -> Option<int>)
    requires p(first) && first in dated && stamp(first) == NewestStamp(dated, stamp)
    ensures Freshest(Filter(dated, p), stamp) == Filter(Freshest(dated, stamp), p)
  {
    var some := Filter(dated, p);
    var newest := NewestStamp(dated, stamp);
    SameNewest(dated, some, first, stamp);
    NarrowStamp(dated, p, stamp, newest);
  }

  lemma {:induction false} WithStampIsFilter(rows: seq<LedgerRow>, stamp: LedgerRow -> Option<int>, s: Option<int>,
                                             q: LedgerRow -> bool)
    requires forall x :: q(x) <==> stamp(x) == s
    ensures WithStamp(rows, stamp, s) == Filter(rows, q)
  {
    if rows != [] {
      WithStampIsFilter(rows[1..], stamp, s, q);
    }
  }

  lemma NarrowStamp(rows: seq<LedgerRow>, p: LedgerRow -> bool, stamp: LedgerRow -> Option<int>, s: Option<int>)
    ensures WithStamp(Filter(rows, p), stamp, s) == Filter(WithStamp(rows, stamp, s), p)
  {
    var q := (x: LedgerRow) => stamp(x) == s;
    WithStampIsFilter(rows, stamp, s, q);
    WithStampIsFilter(Filter(rows, p), stamp, s, q);
    NarrowBoth(rows, p, q);
  }

  lemma NarrowBoth(xs: seq<LedgerRow>, p: LedgerRow -> bool, q: LedgerRow -> bool)
    ensures Filter(Filter(xs, p), q) == Filter(Filter(xs, q), p)
  {
    var both := x => p(x) && q(x);
    FilterBoth(xs, p, q, both);
    FilterBoth(xs, q, p, both);
  }

  lemma SameNewest(all: seq<LedgerRow>, some: seq<LedgerRow>, first: LedgerRow, stamp: LedgerRow -> Option<int>)
    requires forall x :: x in some ==> x in all
    requires first in some && stamp(first) == NewestStamp(all, stamp)
    ensures NewestStamp(some, stamp) == NewestStamp(all, stamp)
  {
  }

  /**
   Pinning the latest run changes no read at that moment: the pinned reader resolves the very
   same run status, hence the same batch for every feature group, as the unpinned one.
   */
  lemma PinningKeepsTheRunStatus(lake: Lake, tenant: string, parse: Parser)
    requires PinLatestRun(lake, Reader(None), tenant, parse).Ok?
    ensures var pinned := PinLatestRun(lake, Reader(None), tenant, parse).value;
            LatestRunStatus(lake, pinned, tenant, parse) == LatestRunStatus(lake, Reader(None), tenant, parse)
  {
    var pinned := PinLatestRun(lake, Reader(None), tenant, parse).value;
    if pinned.pinned.Some? {
      var rows := OfTenant(lake.ledger.value, tenant);
      LatestRowsExist(rows);
      var latest := LatestRows(rows);
      var run := pinned.pinned.value;
      LatestRowsOfRun(rows, run);
      var mine := OfRun(latest, run);
      assert latest[0] in latest;
      assert mine[0] == latest[0];
      assert forall x :: x in mine ==> x in latest;
    }
  }

  // ----- pinned reads are stable under foreign growth -----

  /** The run a reader was pinned to by `pin_latest_run` is on the ledger. */
  lemma PinnedRunIsRecorded(lake: Lake, tenant: string, parse: Parser)
    requires PinLatestRun(lake, Reader(None), tenant, parse).Ok? && !NoLedger(lake, tenant)
    ensures var pinned := PinLatestRun(lake, Reader(None), tenant, parse).value.pinned;
            pinned.Some? && RunRecorded(lake, tenant, pinned.value)
  {
    PinLatestRunIff(lake, tenant, parse);
  }

  /** The pinned run has a ledger row, so the ledger will keep resolving. */
  predicate RunRecorded(lake: Lake, tenant: string, run: string) {
    lake.ledger.Some? && exists x :: x in lake.ledger.value && x.tenant == tenant && x.runId == Some(run)
  }

  /**
   `lake'` is `lake` after any ledger rows of other runs, any batch rows but completed ones of the
   pinned run, and any feature rows that carry a stamp no batch of the pinned run was committed under. Tables
   may also have been created in between.
   */
  ghost predicate ForeignGrowth(lake: Lake, lake': Lake, tenant: string, run: string, parse: Parser) {
    && lake.ledger.Some? && lake'.ledger.Some?
    && (exists extra :: lake'.ledger.value == lake.ledger.value + extra
          && forall x :: x in extra ==> !(x.tenant == tenant && x.runId == Some(run)))
    && (lake.batches.Some? ==> lake'.batches.Some?)
    && (exists extra :: BatchRows(lake') == BatchRows(lake) + extra
          && forall x :: x in extra ==> !CompletesRun(x, tenant, run))
    && (forall g :: g in lake.features ==> g in lake'.features)
    && (forall g :: GroupGrowth(lake, lake', tenant, run, g, parse))
  }

  /** A batch of the pinned run that was committed; its other statuses do not count. */
  predicate CompletesRun(x: BatchRow, tenant: string, run: string) {
    x.tenant == tenant && x.runId == run && x.status == "completed"
  }

  function BatchRows(lake: Lake): seq<BatchRow> {
    if lake.batches.Some? then lake.batches.value else []
  }

  ghost predicate GroupGrowth(lake: Lake, lake': Lake, tenant: string, run: string, g: string, parse: Parser) {
    exists extra :: TableOf(lake', g) == TableOf(lake, g) + extra && ForeignRows(lake, extra, tenant, run, g, parse)
  }

  ghost predicate ForeignRows(lake: Lake, extra: seq<FeatureRow>, tenant: string, run: string, g: string,
                              parse: Parser) {
    forall x :: x in extra ==> x.ingested.Some? && !CommittedStamp(lake, tenant, run, g, parse, x.ingested)
  }

  /** `stamp` is the stamp under which the pinned run committed its batch of group `g`. */
  ghost predicate CommittedStamp(lake: Lake, tenant: string, run: string, g: string, parse: Parser,
                                 stamp: Option<int>) {
    var c := ServingCutoff(lake, Reader(Some(run)), tenant, g, parse);
    c.Ok? && c.value.Some? && c.value.value.stamp == stamp
  }

  lemma LedgerGrowthKeepsStatus(lake: Lake, lake': Lake, tenant: string, run: string, parse: Parser)
    requires RunRecorded(lake, tenant, run) && lake'.ledger.Some?
    requires exists extra :: lake'.ledger.value == lake.ledger.value + extra
               && forall x :: x in extra ==> !(x.tenant == tenant && x.runId == Some(run))
    ensures LatestRunStatus(lake', Reader(Some(run)), tenant, parse) ==
              LatestRunStatus(lake, Reader(Some(run)), tenant, parse)
  {
    var extra :| lake'.ledger.value == lake.ledger.value + extra
                 && forall x :: x in extra ==> !(x.tenant == tenant && x.runId == Some(run));
    RunRowsGrow(lake.ledger.value, extra, tenant, run);
    var x :| x in lake.ledger.value && x.tenant == tenant && x.runId == Some(run);
    assert x in OfTenant(lake.ledger.value, tenant) && x in OfTenant(lake'.ledger.value, tenant);
  }

  lemma RunRowsGrow(rows: seq<LedgerRow>, extra: seq<LedgerRow>, tenant: string, run: string)
    requires forall x :: x in extra ==> !(x.tenant == tenant && x.runId == Some(run))
    ensures OfRun(OfTenant(rows + extra, tenant), run) == OfRun(OfTenant(rows, tenant), run)
  {
    var isTenant := (x: LedgerRow) => x.tenant == tenant;
    var isRun := (x: LedgerRow) => x.runId == Some(run);
    FilterAppend(rows, extra, isTenant);
    FilterAppend(OfTenant(rows, tenant), OfTenant(extra, tenant), isRun);
    FilterNone(OfTenant(extra, tenant), isRun);
  }

  lemma BatchGrowthKeepsCutoff(lake: Lake, lake': Lake, tenant: string, run: string, g: string, status: RunStatus)
    requires status.runId == Some(run) && (lake.batches.Some? ==> lake'.batches.Some?)
    requires exists extra :: BatchRows(lake') == BatchRows(lake) + extra
               && forall x :: x in extra ==> !CompletesRun(x, tenant, run)
    ensures CommittedCutoff(lake', tenant, g, status) == CommittedCutoff(lake, tenant, g, status)
  {
    var extra :| BatchRows(lake') == BatchRows(lake) + extra
                 && forall x :: x in extra ==> !CompletesRun(x, tenant, run);
    var mine := (x: BatchRow) => BatchOf(x, tenant, status.date, g, run);
    var completed := (x: BatchRow) => x.status == "completed";
    var both := (x: BatchRow) => mine(x) && completed(x);
    FilterBoth(BatchRows(lake), mine, completed, both);
    FilterBoth(BatchRows(lake'), mine, completed, both);
    FilterAppend(BatchRows(lake), extra, both);
    FilterNone(extra, both);
    assert Filter(Filter(BatchRows(lake'), mine), completed) == Filter(Filter(BatchRows(lake), mine), completed);
  }

  /** A pinned reader's status always names the pinned run. */
  lemma PinnedStatusNamesRun(lake: Lake, tenant: string, run: string, parse: Parser)
    ensures var s := LatestRunStatus(lake, Reader(Some(run)), tenant, parse);
            s.Ok? && s.value.Some? ==> s.value.value.runId == Some(run)
  {
    if lake.ledger.Some? && OfTenant(lake.ledger.value, tenant) != [] {
      var chosen := OfRun(OfTenant(lake.ledger.value, tenant), run);
      if chosen != [] {
        LatestRowsExist(chosen);
        assert LatestRows(chosen)[0] in LatestRows(chosen);
      }
    }
  }

  lemma GrowthKeepsServingCutoff(lake: Lake, lake': Lake, tenant: string, run: string, g: string, parse: Parser)
    requires RunRecorded(lake, tenant, run) && ForeignGrowth(lake, lake', tenant, run, parse)
    ensures ServingCutoff(lake', Reader(Some(run)), tenant, g, parse) ==
              ServingCutoff(lake, Reader(Some(run)), tenant, g, parse)
  {
    hide LatestRunStatus, TableCutoff, CommittedCutoff;
    LedgerGrowthKeepsStatus(lake, lake', tenant, run, parse);
    PinnedStatusNamesRun(lake, tenant, run, parse);
    RecordedRunHasStatus(lake, tenant, run, parse);
    var s := LatestRunStatus(lake, Reader(Some(run)), tenant, parse);
    if s.Ok? {
      BatchGrowthKeepsCutoff(lake, lake', tenant, run, g, s.value.value);
    }
  }

  lemma RecordedRunHasStatus(lake: Lake, tenant: string, run: string, parse: Parser)
    requires RunRecorded(lake, tenant, run)
    ensures LatestRunStatus(lake, Reader(Some(run)), tenant, parse) != Ok(None)
  {
    var x :| x in lake.ledger.value && x.tenant == tenant && x.runId == Some(run);
    assert x in OfTenant(lake.ledger.value, tenant);
    assert x in OfRun(OfTenant(lake.ledger.value, tenant), run);
  }

  /** The pinned run serves group `g` from a non-empty batch without an ingestion stamp. */
  predicate ServedUnstamped(lake: Lake, tenant: string, run: string, g: string, parse: Parser) {
    var c := ServingCutoff(lake, Reader(Some(run)), tenant, g, parse);
    c.Ok? && c.value.Some? && c.value.value.stamp.None?
  }

  /** Rows of other stamps leave a stamped batch as it was. */
  lemma OtherStampsStayOut(table: seq<FeatureRow>, extra: seq<FeatureRow>, tenant: string, cutoff: Cutoff,
                           key: map<string, string>)
    requires cutoff.stamp.Some? && forall x :: x in extra ==> x.ingested != cutoff.stamp
    ensures RowsAt(table + extra, tenant, cutoff, key) == RowsAt(table, tenant, cutoff, key)
    ensures forall x :: x in table + extra && InBatch(x, tenant, cutoff) <==> x in table && InBatch(x, tenant, cutoff)
  {
    var wanted := (x: FeatureRow) => InBatch(x, tenant, cutoff) && Matches(x, key);
    FilterAppend(table, extra, wanted);
    FilterNone(extra, wanted);
  }

  lemma ReadAtGrowth(table: seq<FeatureRow>, extra: seq<FeatureRow>, c: Result<Option<Cutoff>, Miss>, tenant: string,
                     key: map<string, string>)
    requires c.Ok? && c.value.Some? ==>
               c.value.value.stamp.Some? && forall x :: x in extra ==> x.ingested != c.value.value.stamp
    ensures ReadAt(table + extra, c, tenant, key) == ReadAt(table, c, tenant, key)
    ensures table == [] ==> ReadAt(table, c, tenant, key) == Err(LookupError)
  {
    if c.Err? {
      assert c.error.LookupError?;
    } else if c.value.Some? {
      OtherStampsStayOut(table, extra, tenant, c.value.value, key);
    }
  }

  /** What foreign growth adds to the table of a stamped group. */
  lemma StampedGroupGrowth(lake: Lake, lake': Lake, tenant: string, run: string, g: string, parse: Parser)
    returns (extra: seq<FeatureRow>)
    requires ForeignGrowth(lake, lake', tenant, run, parse)
    ensures TableOf(lake', g) == TableOf(lake, g) + extra
    ensures var c := ServingCutoff(lake, Reader(Some(run)), tenant, g, parse);
            c.Ok? && c.value.Some? ==> forall x :: x in extra ==> x.ingested != c.value.value.stamp
  {
    hide ServingCutoff;
    assert GroupGrowth(lake, lake', tenant, run, g, parse);
    extra :| TableOf(lake', g) == TableOf(lake, g) + extra && ForeignRows(lake, extra, tenant, run, g, parse);
    var c := ServingCutoff(lake, Reader(Some(run)), tenant, g, parse);
    if c.Ok? && c.value.Some? {
      assert CommittedStamp(lake, tenant, run, g, parse, c.value.value.stamp);
    }
  }

  /** All reads of a stamped group through a pinned reader survive any foreign growth. */
  lemma PinnedReadIsStable(lake: Lake, lake': Lake, tenant: string, run: string, g: string,
                           key: map<string, string>, parse: Parser)
    requires RunRecorded(lake, tenant, run) && ForeignGrowth(lake, lake', tenant, run, parse)
    requires !ServedUnstamped(lake, tenant, run, g, parse)
    ensures ScanLatest(lake', Reader(Some(run)), tenant, g, key, parse) ==
              ScanLatest(lake, Reader(Some(run)), tenant, g, key, parse)
  {
    GrowthKeepsServingCutoff(lake, lake', tenant, run, g, parse);
    var extra := StampedGroupGrowth(lake, lake', tenant, run, g, parse);
    ReadAtGrowth(TableOf(lake, g), extra, ServingCutoff(lake, Reader(Some(run)), tenant, g, parse), tenant, key);
  }

  /**
   From pinning to reading: a reader pinned by `pin_latest_run` reads a group, after any foreign
   growth, as the unpinned client read it at the moment of pinning, unless the run serves
   that group from an unstamped batch.
   */
  lemma PinningFreezesReads(lake: Lake, lake': Lake, tenant: string, g: string, key: map<string, string>, parse: Parser)
    requires PinLatestRun(lake, Reader(None), tenant, parse).Ok?
    requires var pinned := PinLatestRun(lake, Reader(None), tenant, parse).value.pinned;
             pinned.Some? ==> ForeignGrowth(lake, lake', tenant, pinned.value, parse)
                              && !ServedUnstamped(lake, tenant, pinned.value, g, parse)
    requires !NoLedger(lake, tenant)
    ensures PinLatestRun(lake, Reader(None), tenant, parse).value.pinned.Some?
    ensures ScanLatest(lake', PinLatestRun(lake, Reader(None), tenant, parse).value, tenant, g, key, parse)
         == ScanLatest(lake, Reader(None), tenant, g, key, parse)
  {
    hide ForeignGrowth, ServedUnstamped, LatestRunStatus, CommittedCutoff, TableCutoff, SourcesAvailable;
    var reader := PinLatestRun(lake, Reader(None), tenant, parse).value;
    PinLatestRunIff(lake, tenant, parse);
    PinnedRunIsRecorded(lake, tenant, parse);
    PinnedReadIsStable(lake, lake', tenant, reader.pinned.value, g, key, parse);
    PinningKeepsTheRunStatus(lake, tenant, parse);
    assert reader == Reader(Some(reader.pinned.value));
  }

  /** The inference keys of a pinned reader are stable as well. */
  lemma PinnedKeysAreStable(lake: Lake, lake': Lake, tenant: string, run: string, parse: Parser)
    requires RunRecorded(lake, tenant, run) && ForeignGrowth(lake, lake', tenant, run, parse)
    requires !ServedUnstamped(lake, tenant, run, "stock_position", parse)
    requires "stock_position" in lake.features
    requires StockRowsHaveKeys(TableOf(lake, "stock_position")) && StockRowsHaveKeys(TableOf(lake', "stock_position"))
    ensures InferenceKeys(lake', Reader(Some(run)), tenant, parse) ==
              InferenceKeys(lake, Reader(Some(run)), tenant, parse)
  {
    LedgerGrowthKeepsStatus(lake, lake', tenant, run, parse);
    GrowthKeepsServingCutoff(lake, lake', tenant, run, "stock_position", parse);
    var extra := StampedGroupGrowth(lake, lake', tenant, run, "stock_position", parse);
    var c := ServingCutoff(lake, Reader(Some(run)), tenant, "stock_position", parse);
    if c.Ok? && c.value.Some? {
      OtherStampsStayOut(TableOf(lake, "stock_position"), extra, tenant, c.value.value, map[]);
      assert KeysAt(TableOf(lake', "stock_position"), tenant, c.value.value)
          == KeysAt(TableOf(lake, "stock_position"), tenant, c.value.value);
    }
  }

  /** An append that an unstamped batch cannot tell from its own rows. */
  function WithRow(lake: Lake, g: string, x: FeatureRow): Lake {
    lake.(features := lake.features[g := TableOf(lake, g) + [x]])
  }

  lemma UnstampedBatchAdmitsForeignRows(lake: Lake, tenant: string, run: string, g: string,
                                        key: map<string, string>, parse: Parser)
    requires RunRecorded(lake, tenant, run) && ServedUnstamped(lake, tenant, run, g, parse)
    ensures var c := ServingCutoff(lake, Reader(Some(run)), tenant, g, parse).value.value;
            var lake' := WithRow(lake, g, FeatureRow(tenant, c.date, Some(0), key));
            && ForeignGrowth(lake, lake', tenant, run, parse)
            && ScanLatest(lake', Reader(Some(run)), tenant, g, key, parse)
               != ScanLatest(lake, Reader(Some(run)), tenant, g, key, parse)
  {
    hide LatestRunStatus, ServingCutoff, TableCutoff, CommittedCutoff, SourcesAvailable;
    var reader := Reader(Some(run));
    var c := ServingCutoff(lake, reader, tenant, g, parse).value.value;
    var x := FeatureRow(tenant, c.date, Some(0), key);
    var lake' := WithRow(lake, g, x);
    assert lake'.ledger.value == lake.ledger.value + [];
    assert BatchRows(lake') == BatchRows(lake) + [];
    forall h ensures GroupGrowth(lake, lake', tenant, run, h, parse) {
      if h == g {
        assert ForeignRows(lake, [x], tenant, run, g, parse);
        assert TableOf(lake', g) == TableOf(lake, g) + [x];
      } else {
        assert TableOf(lake', h) == TableOf(lake, h) + [];
        assert ForeignRows(lake, [], tenant, run, h, parse);
      }
    }
    GrowthKeepsServingCutoff(lake, lake', tenant, run, g, parse);
    var wanted := (y: FeatureRow) => InBatch(y, tenant, c) && Matches(y, key);
    FilterAppend(TableOf(lake, g), [x], wanted);
    assert wanted(x);
    assert Filter([x], wanted) == [x] + Filter([x][1..], wanted);
    assert RowsAt(TableOf(lake', g), tenant, c, key) == RowsAt(TableOf(lake, g), tenant, c, key) + [x];
  }

  /**
   Exactly when a pinned reader is isolated: its reads of a group survive every foreign growth of
   the lake if and only if the run's batch of that group is stamped (or there is nothing to
   serve). A completed batch with rows but without a stamp lets later rows of the same date in.
   */
  lemma PinnedReadsStableIffStamped(lake: Lake, tenant: string, run: string, g: string, parse: Parser)
    requires RunRecorded(lake, tenant, run)
    ensures (forall lake', key :: ForeignGrowth(lake, lake', tenant, run, parse) ==>
               ScanLatest(lake', Reader(Some(run)), tenant, g, key, parse) ==
               ScanLatest(lake, Reader(Some(run)), tenant, g, key, parse))
            <==> !ServedUnstamped(lake, tenant, run, g, parse)
  {
    if ServedUnstamped(lake, tenant, run, g, parse) {
      UnstampedBatchAdmitsForeignRows(lake, tenant, run, g, map[], parse);
    } else {
      forall lake', key | ForeignGrowth(lake, lake', tenant, run, parse)
        ensures ScanLatest(lake', Reader(Some(run)), tenant, g, key, parse) ==
                  ScanLatest(lake, Reader(Some(run)), tenant, g, key, parse)
      {
        PinnedReadIsStable(lake, lake', tenant, run, g, key, parse);
      }
    }
  }

  // ----- without a ledger: the in-memory store seeded from the newest batch -----

  /** One bucket of the in-memory store: values by key. */
  type Bucket = map<map<string, string>, FeatureRow>

  function KeyIn(x: FeatureRow, columns: set<string>): map<string, string>
    requires columns <= x.columns.Keys
  {
    map c | c in columns :: x.columns[c]
  }

  /** `seed` in row order: a later row for the same key replaces the earlier one. */
  function SeedAll(rows: seq<FeatureRow>, columns: set<string>): Bucket
    requires forall x :: x in rows ==> columns <= x.columns.Keys
  {
    if rows == [] then map[]
    else
      var last := rows[|rows| - 1];
      SeedAll(rows[..|rows| - 1], columns)[KeyIn(last, columns) := last]
  }

  /** `_fetch`. */
  function Fetch(bucket: Bucket, key: map<string, string>): Result<FeatureRow, Miss> {
    if key in bucket then Ok(bucket[key]) else Err(LookupError)
  }

  /** `(date, stamp)` order with a missing stamp below every stamp. */
  predicate NotNewer(x: FeatureRow, y: FeatureRow) {
    x.date < y.date || (x.date == y.date && StampNotNewer(x.ingested, y.ingested))
  }

  predicate NewestRow(x: FeatureRow, table: seq<FeatureRow>, tenant: string) {
    x.tenant == tenant && forall y :: y in table && y.tenant == tenant ==> NotNewer(y, x)
  }

  /** The tenant's lexicographically newest batch, in append order. */
  function NewestBatch(table: seq<FeatureRow>, tenant: string): seq<FeatureRow> {
    Filter(table, (x: FeatureRow) => x.tenant == tenant && NewestRow(x, table, tenant))
  }

  /** The cutoff the code computes selects exactly the lexicographically newest batch. */
  lemma CutoffSelectsNewest(table: seq<FeatureRow>, tenant: string, x: FeatureRow)
    requires x in table
    ensures x.tenant == tenant && NewestRow(x, table, tenant) <==>
            TableCutoff(table, tenant).Some? && InBatch(x, tenant, TableCutoff(table, tenant).value)
  {
    var rows := Filter(table, (y: FeatureRow) => y.tenant == tenant);
    if rows != [] {
      var date := MaxOf(rows, (y: FeatureRow) => y.date);
      var dated := Filter(rows, (y: FeatureRow) => y.date == date);
      var y :| y in rows && y.date == date;
      NewestInDate(table, tenant, dated, date, y, x);
    }
  }

  lemma NewestInDate(table: seq<FeatureRow>, tenant: string, dated: seq<FeatureRow>, date: int, some: FeatureRow,
                     x: FeatureRow)
    requires forall y :: y in dated <==> y in table && y.tenant == tenant && y.date == date
    requires forall y :: y in table && y.tenant == tenant ==> y.date <= date
    requires some in dated && x in table
    ensures var stamp := NewestStamp(dated, (y: FeatureRow) => y.ingested);
            x.tenant == tenant && NewestRow(x, table, tenant) <==> InBatch(x, tenant, Cutoff(date, stamp))
  {
    var stamp := NewestStamp(dated, (y: FeatureRow) => y.ingested);
    if x.tenant == tenant && NewestRow(x, table, tenant) {
      assert NotNewer(some, x);
      assert x in dated;
      if stamp.Some? {
        var y :| y in dated && y.ingested == stamp;
        assert NotNewer(y, x);
      }
    }
    if InBatch(x, tenant, Cutoff(date, stamp)) {
      assert x in dated;
      forall y | y in table && y.tenant == tenant ensures NotNewer(y, x) {
        NotNewerInDate(dated, stamp, y, x, date);
      }
    }
  }

  lemma NotNewerInDate(dated: seq<FeatureRow>, stamp: Option<int>, y: FeatureRow, x: FeatureRow, date: int)
    requires x.date == date && y.date <= date && (y.date == date ==> y in dated)
    requires stamp.None? ==> forall z :: z in dated ==> z.ingested.None?
    requires stamp.Some? ==> x.ingested == stamp && forall z :: z in dated && z.ingested.Some? ==>
                               z.ingested.value <= stamp.value
    ensures NotNewer(y, x)
  {
  }

  /** `_one`: the first row of the scan. */
  function One(lake: Lake, reader: Reader, tenant: string, group: string, key: map<string, string>, parse: Parser)
    : Result<FeatureRow, Miss>
  {
    match ScanLatest(lake, reader, tenant, group, key, parse)
    case Err(e) => Err(e)
    case Ok(rows) => if rows == [] then Err(LookupError) else Ok(rows[0])
  }

  /** Without a ledger the scan is the newest batch narrowed to the key. */
  lemma ScanIsNewestBatch(lake: Lake, reader: Reader, tenant: string, group: string, key: map<string, string>,
                          parse: Parser)
    requires NoLedger(lake, tenant) && group in lake.features
    ensures var batch := RowsFor(NewestBatch(lake.features[group], tenant), key);
            ScanLatest(lake, reader, tenant, group, key, parse) == if batch == [] then Err(LookupError) else Ok(batch)
  {
    var table := lake.features[group];
    var cutoff := TableCutoff(table, tenant);
    NoLedgerIff(lake, tenant);
    assert ServingCutoff(lake, reader, tenant, group, parse) == Ok(cutoff);
    var newest := (x: FeatureRow) => x.tenant == tenant && NewestRow(x, table, tenant);
    var matching := (x: FeatureRow) => Matches(x, key);
    var both := (x: FeatureRow) => newest(x) && matching(x);
    FilterBoth(table, newest, matching, both);
    if cutoff.Some? {
      var wanted := (x: FeatureRow) => InBatch(x, tenant, cutoff.value) && Matches(x, key);
      forall x | x in table ensures both(x) <==> wanted(x) {
        CutoffSelectsNewest(table, tenant, x);
      }
      FilterSame(table, both, wanted);
    } else {
      forall x | x in table ensures !both(x) {
        CutoffSelectsNewest(table, tenant, x);
      }
      FilterNone(table, both);
    }
  }

  /** The rows for one key, in append order. */
  function RowsFor(rows: seq<FeatureRow>, key: map<string, string>): (r: seq<FeatureRow>) {
    Filter(rows, (x: FeatureRow) => Matches(x, key))
  }

  lemma RowsForSnoc(rows: seq<FeatureRow>, x: FeatureRow, key: map<string, string>)
    ensures RowsFor(rows + [x], key) == if Matches(x, key) then RowsFor(rows, key) + [x] else RowsFor(rows, key)
  {
    var p := (x: FeatureRow) => Matches(x, key);
    FilterAppend(rows, [x], p);
    assert Filter([x], p) == if p(x) then [x] else [];
  }

  lemma {:induction false} FetchIsLastMatch(rows: seq<FeatureRow>, columns: set<string>, key: map<string, string>)
    requires key.Keys == columns && forall x :: x in rows ==> columns <= x.columns.Keys
    ensures var matching := RowsFor(rows, key);
            Fetch(SeedAll(rows, columns), key) ==
              if matching == [] then Err(LookupError) else Ok(matching[|matching| - 1])
  {
    if rows != [] {
      var n := |rows| - 1;
      var last := rows[n];
      FetchIsLastMatch(rows[..n], columns, key);
      RowsForSnoc(rows[..n], last, key);
      assert rows == rows[..n] + [last];
      MatchesIffSameKey(last, columns, key);
      hide RowsFor;
      assert SeedAll(rows, columns) == SeedAll(rows[..n], columns)[KeyIn(last, columns) := last];
    } else {
      assert RowsFor(rows, key) == [];
    }
  }

  lemma MatchesIffSameKey(x: FeatureRow, columns: set<string>, key: map<string, string>)
    requires key.Keys == columns && columns <= x.columns.Keys
    ensures Matches(x, key) <==> KeyIn(x, columns) == key
  {
  }

  /**
   Without a ledger a read of a key and the in-memory store seeded from the tenant's newest batch
   agree exactly when that batch's first and last row for the key are the same, in
   particular whenever the batch holds at most one row per key.
   */
  lemma ReadsLikeInMemoryStore(lake: Lake, reader: Reader, tenant: string, group: string, columns: set<string>,
                               key: map<string, string>, parse: Parser)
    requires NoLedger(lake, tenant) && group in lake.features
    requires key.Keys == columns && forall x :: x in lake.features[group] ==> columns <= x.columns.Keys
    ensures var batch := NewestBatch(lake.features[group], tenant);
            var matching := RowsFor(batch, key);
            One(lake, reader, tenant, group, key, parse) == Fetch(SeedAll(batch, columns), key)
            <==> (matching == [] || matching[0] == matching[|matching| - 1])
  {
    ScanIsNewestBatch(lake, reader, tenant, group, key, parse);
    FetchIsLastMatch(NewestBatch(lake.features[group], tenant), columns, key);
  }

  /** The newest batch does not depend on append order, only on the rows. */
  lemma NewestBatchIgnoresOrder(table: seq<FeatureRow>, table': seq<FeatureRow>, tenant: string)
    requires multiset(table) == multiset(table')
    ensures multiset(NewestBatch(table, tenant)) == multiset(NewestBatch(table', tenant))
  {
    forall x ensures x in table <==> x in table' {
      assert x in table <==> x in multiset(table);
      assert x in table' <==> x in multiset(table');
    }
    var p := (x: FeatureRow) => x.tenant == tenant && NewestRow(x, table, tenant);
    var q := (x: FeatureRow) => x.tenant == tenant && NewestRow(x, table', tenant);
    assert forall x :: p(x) <==> q(x);
    FilterMultiset(table, p);
    FilterMultiset(table', q);
  }

  /** All rows that the tenant's newest batch holds for the key are the same. */
  ghost predicate RowsAgree(table: seq<FeatureRow>, tenant: string, key: map<string, string>) {
    forall x, y :: x in RowsFor(NewestBatch(table, tenant), key) && y in RowsFor(NewestBatch(table, tenant), key) ==>
        x == y
  }

  /** Where the rows for the key agree, the append order does not show, in any two such lakes. */
  lemma AgreeingRowsReadAlike(lake: Lake, lake': Lake, reader: Reader, tenant: string, group: string,
                              key: map<string, string>, parse: Parser)
    requires NoLedger(lake, tenant) && NoLedger(lake', tenant)
    requires group in lake.features && group in lake'.features
    requires multiset(lake.features[group]) == multiset(lake'.features[group])
    requires RowsAgree(lake.features[group], tenant, key)
    ensures One(lake, reader, tenant, group, key, parse) == One(lake', reader, tenant, group, key, parse)
  {
    hide ScanLatest, NewestBatch, NoLedger;
    var a, b := NewestBatch(lake.features[group], tenant), NewestBatch(lake'.features[group], tenant);
    ScanIsNewestBatch(lake, reader, tenant, group, key, parse);
    ScanIsNewestBatch(lake', reader, tenant, group, key, parse);
    NewestBatchIgnoresOrder(lake.features[group], lake'.features[group], tenant);
    FilterPermuted(a, b, (x: FeatureRow) => Matches(x, key));
    SameFirst(RowsFor(a, key), RowsFor(b, key));
  }

  lemma SameFirst(a: seq<FeatureRow>, b: seq<FeatureRow>)
    requires multiset(a) == multiset(b)
    requires forall x, y :: x in a && y in a ==> x == y
    ensures a == [] <==> b == []
    ensures a != [] ==> a[0] == b[0]
  {
    PermutationLength(a, b);
    if a != [] {
      assert b[0] in multiset(b);
      assert b[0] in multiset(a);
      assert a[0] in a && b[0] in a;
    }
  }

  /** The lake with the rows of one group appended in another order. */
  function WithTable(lake: Lake, group: string, table: seq<FeatureRow>): Lake {
    lake.(features := lake.features[group := table])
  }

  /** A candidate row that was appended first is the row read. */
  lemma FirstAppendedIsRead(lake: Lake, reader: Reader, tenant: string, group: string, key: map<string, string>,
                            parse: Parser, z: FeatureRow) returns (table: seq<FeatureRow>)
    requires NoLedger(lake, tenant) && group in lake.features
    requires z in RowsFor(NewestBatch(lake.features[group], tenant), key)
    ensures multiset(table) == multiset(lake.features[group])
    ensures One(WithTable(lake, group, table), reader, tenant, group, key, parse) == Ok(z)
  {
    var rows := lake.features[group];
    var i :| 0 <= i < |rows| && rows[i] == z;
    var rest := Without(rows, i);
    table := [z] + rest;
    WithoutMultiset(rows, i);
    forall x ensures x in table <==> x in rows {
      assert x in table <==> x in multiset(table);
      assert x in rows <==> x in multiset(rows);
    }
    assert NewestRow(z, table, tenant);
    var newest := (x: FeatureRow) => x.tenant == tenant && NewestRow(x, table, tenant);
    FilterCons(z, rest, newest);
    var matching := (x: FeatureRow) => Matches(x, key);
    FilterCons(z, Filter(rest, newest), matching);
    assert RowsFor(NewestBatch(table, tenant), key)[0] == z;
    hide NewestBatch, RowsFor, ScanLatest;
    ScanIsNewestBatch(WithTable(lake, group, table), reader, tenant, group, key, parse);
  }

  /**
   Exactly when the append order does not show: a read without a ledger returns the same for
   every order of the table if and only if all rows of the newest batch for the key agree.
   */
  lemma AppendOrderIsIrrelevantIff(lake: Lake, reader: Reader, tenant: string, group: string, key: map<string, string>,
                                   parse: Parser)
    requires NoLedger(lake, tenant) && group in lake.features
    ensures (forall table :: multiset(table) == multiset(lake.features[group]) ==>
               One(WithTable(lake, group, table), reader, tenant, group, key, parse)
               == One(lake, reader, tenant, group, key, parse))
            <==> RowsAgree(lake.features[group], tenant, key)
  {
    hide One, NewestBatch;
    if RowsAgree(lake.features[group], tenant, key) {
      forall table | multiset(table) == multiset(lake.features[group])
        ensures One(WithTable(lake, group, table), reader, tenant, group, key, parse)
                == One(lake, reader, tenant, group, key, parse)
      {
        AgreeingRowsReadAlike(lake, WithTable(lake, group, table), reader, tenant, group, key, parse);
      }
    } else {
      var x, y :| x in RowsFor(NewestBatch(lake.features[group], tenant), key)
                  && y in RowsFor(NewestBatch(lake.features[group], tenant), key) && x != y;
      var xFirst := FirstAppendedIsRead(lake, reader, tenant, group, key, parse, x);
      var yFirst := FirstAppendedIsRead(lake, reader, tenant, group, key, parse, y);
    }
  }

  // ----- inputs on which the general statements fail -----

  /** Two stock rows of one batch for one part and location, with different quantities on hand. */
  function StockRow(onHand: string): FeatureRow {
    FeatureRow("t", 0, None, map["on_hand" := onHand, "serviceable" := "0", "pn" := "P", "location" := "L"])
  }

  function TwoRowLake(first: string, second: string): Lake {
    Lake(None, None, map["stock_position" := [StockRow(first), StockRow(second)]])
  }

  const STOCK_KEY := map["pn" := "P", "location" := "L"]

  /**
   Of two rows for one key the lake's client reads the first appended and the in-memory store
   keeps the last seeded, so the order shows and the two stores disagree.
   */
  lemma TwoRowExample(reader: Reader, parse: Parser, first: string, second: string)
    requires first != second
    ensures var lake := TwoRowLake(first, second);
            var batch := NewestBatch(lake.features["stock_position"], "t");
            && One(lake, reader, "t", "stock_position", STOCK_KEY, parse) == Ok(StockRow(first))
            && One(TwoRowLake(second, first), reader, "t", "stock_position", STOCK_KEY, parse) == Ok(StockRow(second))
            && batch == [StockRow(first), StockRow(second)]
            && Fetch(SeedAll(batch, {"pn", "location"}), STOCK_KEY) == Ok(StockRow(second))
  {
    TwoRowsRead(reader, parse, first, second);
    TwoRowsRead(reader, parse, second, first);
    FetchIsLastMatch([StockRow(first), StockRow(second)], {"pn", "location"}, STOCK_KEY);
  }

  lemma TwoRowsRead(reader: Reader, parse: Parser, first: string, second: string)
    ensures var lake := TwoRowLake(first, second);
            var rows := [StockRow(first), StockRow(second)];
            && NewestBatch(lake.features["stock_position"], "t") == rows
            && RowsFor(rows, STOCK_KEY) == rows
            && One(lake, reader, "t", "stock_position", STOCK_KEY, parse) == Ok(StockRow(first))
  {
    var rows := [StockRow(first), StockRow(second)];
    var newest := (x: FeatureRow) => x.tenant == "t" && NewestRow(x, rows, "t");
    var matching := (x: FeatureRow) => Matches(x, STOCK_KEY);
    FilterAll(rows, newest);
    FilterAll(rows, matching);
    ScanIsNewestBatch(TwoRowLake(first, second), reader, "t", "stock_position", STOCK_KEY, parse);
  }

  /** A completed batch of one row that was recorded without an ingestion stamp. */
  function UnstampedLake(tenant: string, run: string, g: string, text: string, columns: map<string, string>): Lake {
    Lake(Some([LedgerRow(tenant, Some(run), 0, None, text, None)]),
         Some([BatchRow(tenant, 0, g, run, "completed", None, None, 1)]),
         map[g := [FeatureRow(tenant, 0, None, columns)]])
  }

  /** A status payload in which every domain that `g` needs has succeeded. */
  function SourcesOf(g: string): map<string, string> {
    map d | d in RequiredDomains(g) + {"pn_vendor_price"} :: "succeeded"
  }

  /** `text` is any JSON text of that payload. */
  lemma UnstampedExample(tenant: string, run: string, g: string, text: string, columns: map<string, string>,
                         parse: Parser)
    requires run != "" && parse(text) == Some(SourcesOf(g))
    ensures var lake := UnstampedLake(tenant, run, g, text, columns);
            RunRecorded(lake, tenant, run) && ServedUnstamped(lake, tenant, run, g, parse)
  {
    var lake := UnstampedLake(tenant, run, g, text, columns);
    var status := RunStatus(0, SourcesOf(g), Some(run), None);
    assert lake.ledger.value[0] in lake.ledger.value;
    OneRowStatus(lake, tenant, run, SourcesOf(g), text, parse);
    assert SourcesAvailable(g, Some(status));
    OneRowCutoff(lake, tenant, run, g, status);
  }

  lemma OneRowStatus(lake: Lake, tenant: string, run: string, statuses: map<string, string>, text: string,
                     parse: Parser)
    requires lake.ledger == Some([LedgerRow(tenant, Some(run), 0, None, text, None)]) && parse(text) == Some(statuses)
    ensures LatestRunStatus(lake, Reader(Some(run)), tenant, parse) == Ok(Some(RunStatus(0, statuses, Some(run), None)))
  {
    var ledger := lake.ledger.value;
    FilterAll(ledger, (x: LedgerRow) => x.tenant == tenant);
    FilterAll(ledger, (x: LedgerRow) => x.runId == Some(run));
    FilterAll(ledger, (x: LedgerRow) => x.date == 0);
    assert NewestDate(ledger) == 0;
    assert LatestRows(ledger) == ledger;
  }

  lemma OneRowCutoff(lake: Lake, tenant: string, run: string, g: string, status: RunStatus)
    requires run != "" && lake.batches == Some([BatchRow(tenant, 0, g, run, "completed", None, None, 1)])
    requires status.date == 0 && status.runId == Some(run)
    ensures CommittedCutoff(lake, tenant, g, status) == Ok((Cutoff(0, None), 1))
  {
    FilterAll(lake.batches.value, (x: BatchRow) => BatchOf(x, tenant, 0, g, run));
    FilterAll(lake.batches.value, (x: BatchRow) => x.status == "completed");
  }
}
