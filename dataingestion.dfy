/** The ingestion pipeline of the backend: the file configuration copy,
    the projection of parsed rows onto a table mapping, and the sequence of
    status-store updates `processIngestion` makes. Uploading the file and
    its CSV parsing are outside the model: the upload's failure is a
    parameter and the parser's records are given. */
module DataIngestionService {
  import opened Wrappers
  import opened JavaNum
  import opened Text
  import opened IngestionFlatFile
  import IS = IngestionStatusService
  import TM = TableMappingService
  import CH = ClickHouseConnectionService

  /** The file settings `createFlatFileConfig` reads from the request and
      sets on the parser configuration. */
  datatype FlatFileConfig = FlatFileConfig(
    delimiter: string, quoteChar: string, escapeChar: string, lineSeparator: string, hasHeader: bool)

  datatype IngestionRequest = IngestionRequest(
    connectionId: string, tableName: string, fileConfig: FlatFileConfig)

  /** `createFlatFileConfig`: a field-by-field copy, so the configuration
      the parser gets equals the request's. */
  function CreateFlatFileConfig(fileConfig: FlatFileConfig): (config: FlatFileConfig)
    ensures config == fileConfig
  {
    FlatFileConfig(fileConfig.delimiter, fileConfig.quoteChar, fileConfig.escapeChar,
                   fileConfig.lineSeparator, fileConfig.hasHeader)
  }

  /** A table mapping's `columnMappings` in the map's iteration order:
      target column, source column. */
  type Entries = seq<(string, string)>

  /** The insert's column list: the key set, in the same order. */
  function Columns(entries: Entries): (cols: seq<string>)
    ensures |cols| == |entries| && forall i :: 0 <= i < |cols| ==> cols[i] == entries[i].0
  {
    seq(|entries|, i requires 0 <= i < |entries| => entries[i].0)
  }

  /** The value a row supplies for an entry: its source column's value, or
      "" when the row has no such column. */
  function Lookup(row: RowMap, source: string): string
  {
    if source in row then row[source] else ""
  }

  /** What `transformData` makes of one row. */
  function ProjectRow(row: RowMap, entries: Entries): (values: seq<string>)
    ensures |values| == |entries|
    ensures forall i :: 0 <= i < |values| ==> values[i] == Lookup(row, entries[i].1)
  {
    seq(|entries|, i requires 0 <= i < |entries| => Lookup(row, entries[i].1))
  }

  /** The inner loop of `transformData`: an `Object[]` of the mapping's size
      filled through `i++`. */
  method TransformRow(row: RowMap, entries: Entries) returns (a: array<string>)
    ensures fresh(a)
    ensures a[..] == ProjectRow(row, entries)
  {
    a := new string[|entries|](_ => "");
    var i := 0;
    while i < |entries|
      invariant 0 <= i <= |entries|
      invariant forall k :: 0 <= k < i ==> a[k] == Lookup(row, entries[k].1)
      modifies a
    {
      var sourceColumn := entries[i].1;
      var value := if sourceColumn in row then row[sourceColumn] else "";
      a[i] := value;
      i := i + 1;
    }
  }

  /** One projected row per input row, in order. */
  function ProjectAll(data: seq<RowMap>, entries: Entries): (t: seq<seq<string>>)
    ensures |t| == |data|
    ensures forall k :: 0 <= k < |data| ==> t[k] == ProjectRow(data[k], entries)
  {
    seq(|data|, k requires 0 <= k < |data| => ProjectRow(data[k], entries))
  }

  /** `transformData`; the arrays are represented by their contents. */
  method TransformData(data: seq<RowMap>, entries: Entries) returns (transformed: seq<seq<string>>)
    ensures transformed == ProjectAll(data, entries)
  {
    transformed := [];
    var k := 0;
    while k < |data|
      invariant 0 <= k <= |data|
      invariant |transformed| == k
      invariant forall j :: 0 <= j < k ==> transformed[j] == ProjectRow(data[j], entries)
    {
      var a := TransformRow(data[k], entries);
      transformed := transformed + [a[..]];
      k := k + 1;
    }
  }

  /** The insert's column list and every projected row line up entry by
      entry: with the distinct keys of a map, the column named at position
      `i` receives the row's value of the source column mapped to it, and
      no column is named twice. */
  lemma ColumnsMatchValues(row: RowMap, entries: Entries, target: string, source: string, i: nat)
    requires forall a, b :: 0 <= a < b < |entries| ==> entries[a].0 != entries[b].0
    requires (target, source) in entries && i < |entries| && Columns(entries)[i] == target
    ensures ProjectRow(row, entries)[i] == Lookup(row, source)
    ensures forall a, b :: 0 <= a < b < |entries| ==> Columns(entries)[a] != Columns(entries)[b]
  {
    var k :| 0 <= k < |entries| && entries[k] == (target, source);
    assert k == i;
  }

  /** End to end for one CSV record: an entry whose source column is a
      header gets that header's trimmed field (or "" past the record's end);
      an entry whose source column is no header gets "". */
  lemma ProjectedValue(headers: seq<string>, record: Record, entries: Entries, i: nat, j: nat)
    requires forall a, b :: 0 <= a < b < |headers| ==> headers[a] != headers[b]
    requires i < |entries| && j < |headers| && headers[j] == entries[i].1
    ensures ProjectRow(RowOf(headers, record), entries)[i] == FieldAt(record, j)
  {
    DistinctHeadersRow(headers, record, j);
  }

  lemma ProjectedMissing(headers: seq<string>, record: Record, entries: Entries, i: nat)
    requires i < |entries| && entries[i].1 !in headers
    ensures ProjectRow(RowOf(headers, record), entries)[i] == ""
  {
    RowOfKeys(headers, record, entries[i].1);
  }

  // ---- processIngestion -------------------------------------------------------

  /** The batches the stream hands to the processor, and the count it returns. */
  function Batches(records: seq<Record>): seq<seq<RowMap>>
  {
    if records == [] then [] else Chunks(DataRows(HeadersOf(records), records), BATCH_SIZE)
  }

  function RowCount(records: seq<Record>): nat
  {
    if records == [] then 0 else |records| - 1
  }

  /** Why the insert of a non-empty batch fails, if it does: the error of
      `getConnection` as it is, or the wrapped error of the batch. */
  function InsertError(connections: map<string, CH.DataSource>, connectionId: string, connectError: Option<string>,
                       execute: Result<seq<Int32>>): Option<string>
  {
    var c := CH.Connect(connections, connectionId, connectError);
    if c.Err? then Some(c.error)
    else if execute.Err? then Some("Failed to execute batch insert: " + execute.error)
    else None
  }

  /** The message recorded when batch number `k` fails. Every batch asks
      the pool for a connection afresh, so `connectError(k)` is what that
      request does for batch `k`, as `execute(k)` is what its insert does. */
  function BatchFailure(connections: map<string, CH.DataSource>, request: IngestionRequest, connectError: nat -> Option<string>,
                        execute: nat -> Result<seq<Int32>>, k: nat): Option<string>
  {
    var e := InsertError(connections, request.connectionId, connectError(k), execute(k));
    if e.Some? then Some("Failed to process batch: " + e.value) else None
  }

  /** How `processIngestion` leaves the store: an unknown id fails with
      the store's own error and changes nothing; otherwise only the record
      `statusId` changes, ending SUCCESS with progress 100 or FAILED with
      progress 100 and the message that the rethrown error carries. */
  predicate Finished(before: map<int, IS.StatusRecord>, after: map<int, IS.StatusRecord>, statusId: int, r: Result<()>)
  {
    if statusId !in before then r == Err(IS.NotFound(statusId)) && after == before
    else
      statusId in after && after == before[statusId := after[statusId]] &&
      (r.Ok? ==> after[statusId].status == IS.SUCCESS && after[statusId].progress == 100) &&
      (r.Err? ==> after[statusId].status == IS.FAILED && after[statusId].progress == 100 &&
                  after[statusId].errorMessage.Some? &&
                  r.error == "Ingestion failed: " + after[statusId].errorMessage.value)
  }

  /** The outer `catch`: mark the record FAILED (which fails in turn for an
      unknown id) and record the message. */
  method FailIngestion(store: IS.IngestionStatusStore, statusId: int, msg: string) returns (r: Result<()>)
    requires store.Valid()
    modifies store
    ensures store.Valid() && store.nextId == old(store.nextId)
    ensures Finished(old(store.records), store.records, statusId, r)
    ensures statusId in old(store.records) ==>
      r == Err("Ingestion failed: " + msg) && store.records[statusId].errorMessage == Some(msg) &&
      store.records[statusId] == IS.WithErrorMessage(IS.WithStatus(old(store.records)[statusId], IS.FAILED), msg)
  {
    var s := store.UpdateStatus(statusId, IS.FAILED);
    if s.Err? {
      return Err(s.error);
    }
    var e := store.UpdateErrorMessage(statusId, msg);
    r := Err("Ingestion failed: " + msg);
  }

  /** The stream's processor applied to each batch in turn: transform,
      insert, then report the batch size as progress. The first failure
      stops the run and its message is returned. */
  method RunBatches(store: IS.IngestionStatusStore, statusId: int, request: IngestionRequest, entries: Entries,
                    batches: seq<seq<RowMap>>, pool: CH.ConnectionPool, connectError: nat -> Option<string>,
                    execute: nat -> Result<seq<Int32>>)
    returns (failure: Option<string>, sent: seq<seq<seq<string>>>)
    requires store.Valid()
    requires forall k :: 0 <= k < |batches| ==> 0 < |batches[k]| <= BATCH_SIZE
    modifies store
    ensures store.Valid() && store.nextId == old(store.nextId)
    ensures statusId !in old(store.records) ==> store.records == old(store.records) && (failure.None? <==> batches == [])
    ensures statusId in old(store.records) ==> (statusId in store.records &&
      store.records == old(store.records)[statusId := old(store.records)[statusId].(progress := store.records[statusId].progress)])
    ensures statusId in old(store.records) ==>
      (failure.None? <==> forall k :: 0 <= k < |batches| ==> BatchFailure(pool.pool, request, connectError, execute, k).None?)
    ensures statusId in old(store.records) && failure.Some? ==>
      exists k :: 0 <= k < |batches| && BatchFailure(pool.pool, request, connectError, execute, k) == failure
    ensures failure.None? ==> |sent| == |batches| && forall j :: 0 <= j < |batches| ==> sent[j] == ProjectAll(batches[j], entries)
  {
    sent := [];
    var k := 0;
    while k < |batches|
      invariant 0 <= k <= |batches|
      invariant store.Valid() && store.nextId == old(store.nextId)
      invariant k == 0 ==> store.records == old(store.records)
      invariant k > 0 ==> statusId in old(store.records)
      invariant statusId in old(store.records) ==> (statusId in store.records &&
        store.records == old(store.records)[statusId := old(store.records)[statusId].(progress := store.records[statusId].progress)])
      invariant |sent| == k && forall j :: 0 <= j < k ==> sent[j] == ProjectAll(batches[j], entries)
      invariant forall j :: 0 <= j < k ==> BatchFailure(pool.pool, request, connectError, execute, j).None?
    {
      var data := TransformData(batches[k], entries);
      var inserted, statement := pool.ExecuteBatchInsert(request.connectionId, request.tableName, Columns(entries),
                                                        data, connectError(k), execute(k));
      if inserted.Err? {
        assert BatchFailure(pool.pool, request, connectError, execute, k) == Some("Failed to process batch: " + inserted.error);
        return Some("Failed to process batch: " + inserted.error), sent;
      }
      sent := sent + [data];
      var progress := store.UpdateProgress(statusId, |batches[k]|);
      if progress.Err? {
        return Some("Failed to process batch: " + progress.error), sent;
      }
      k := k + 1;
    }
    failure := None;
  }

  /** `processIngestion` once the mapping is found: stream the records
      through the processor, then record the total and SUCCESS. */
  method IngestRecords(store: IS.IngestionStatusStore, statusId: int, request: IngestionRequest, entries: Entries,
                       records: seq<Record>, pool: CH.ConnectionPool, connectError: nat -> Option<string>,
                       execute: nat -> Result<seq<Int32>>)
    returns (r: Result<()>, sent: seq<seq<seq<string>>>)
    requires store.Valid() && |records| <= INT_MAX
    modifies store
    ensures store.Valid() && store.nextId == old(store.nextId)
    ensures Finished(old(store.records), store.records, statusId, r)
    ensures statusId in old(store.records) ==>
      (r.Ok? <==> forall k :: 0 <= k < |Batches(records)| ==> BatchFailure(pool.pool, request, connectError, execute, k).None?)
    ensures statusId in old(store.records) && r.Ok? ==>
      store.records[statusId].totalRows == Some(RowCount(records)) &&
      |sent| == |Batches(records)| &&
      (forall k :: 0 <= k < |sent| ==> sent[k] == ProjectAll(Batches(records)[k], entries))
  {
    var totalRows, batches := StreamCsvFile(records);
    assert batches == Batches(records);
    if records != [] {
      ChunksMeaning(DataRows(HeadersOf(records), records), BATCH_SIZE);
    }
    var failure;
    failure, sent := RunBatches(store, statusId, request, entries, batches, pool, connectError, execute);
    if failure.Some? {
      r := FailIngestion(store, statusId, failure.value);
      return;
    }
    var total := store.UpdateTotalRows(statusId, Some(totalRows));
    if total.Err? {
      r := FailIngestion(store, statusId, total.error);
      return;
    }
    var success := store.UpdateStatus(statusId, IS.SUCCESS);
    r := Ok(());
  }

  /** `processIngestion` for the record `statusId`. `sent` is the data of
      every insert that succeeded, in order. */
  method ProcessIngestion(store: IS.IngestionStatusStore, statusId: int, request: IngestionRequest,
                          uploadError: Option<string>, registry: TM.TableMappingRegistry,
                          records: seq<Record>, pool: CH.ConnectionPool, connectError: nat -> Option<string>,
                          execute: nat -> Result<seq<Int32>>)
    returns (r: Result<()>, sent: seq<seq<seq<string>>>)
    requires store.Valid() && |records| <= INT_MAX
    modifies store
    ensures store.Valid() && store.nextId == old(store.nextId)
    ensures Finished(old(store.records), store.records, statusId, r)
    ensures statusId in old(store.records) ==>
      (r.Ok? <==> uploadError.None? && registry.Get(request.tableName).Ok? &&
                  forall k :: 0 <= k < |Batches(records)| ==> BatchFailure(pool.pool, request, connectError, execute, k).None?)
    ensures statusId in old(store.records) && r.Ok? ==>
      store.records[statusId].totalRows == Some(RowCount(records)) &&
      |sent| == |Batches(records)| &&
      (forall k :: 0 <= k < |sent| ==> sent[k] == ProjectAll(Batches(records)[k], registry.Get(request.tableName).value.columnMappings))
    ensures statusId in old(store.records) && uploadError.Some? ==>
      r == Err("Ingestion failed: " + uploadError.value)
    ensures statusId in old(store.records) && uploadError.None? && registry.Get(request.tableName).Err? ==>
      r == Err("Ingestion failed: Table mapping not found: " + request.tableName)
  {
    sent := [];
    if uploadError.Some? {
      r := FailIngestion(store, statusId, uploadError.value);
      return;
    }
    var found := registry.Get(request.tableName);
    if found.Err? {
      r := FailIngestion(store, statusId, "Table mapping not found: " + request.tableName);
      assert "Ingestion failed: " + ("Table mapping not found: " + request.tableName) ==
             "Ingestion failed: Table mapping not found: " + request.tableName;
      return;
    }
    var config := CreateFlatFileConfig(request.fileConfig);
    r, sent := IngestRecords(store, statusId, request, found.value.columnMappings, records, pool, connectError, execute);
  }
}
