/** The ingestion-status service of the backend: a keyed store of status
    records and the operations that create and update them. The JPA
    repository is the map `records`; `save` assigns the next identifier. */
module IngestionStatusService {
  import opened Wrappers
  import opened JavaNum
  import opened Text

  datatype IngestionStatusEnum = SUCCESS | FAILED | IN_PROGRESS | CANCELLED

  /** The fields of a status record that the service reads or sets. */
  datatype StatusRecord = StatusRecord(
    id: int,
    tableName: string,
    fileName: string,
    status: IngestionStatusEnum,
    progress: Int32,
    retryCount: Int32,
    totalRows: Option<Long>,
    processedRows: Option<Long>,
    errorMessage: Option<string>)

  function NotFound(id: int): string
  {
    "Ingestion status not found with id: " + IntToString(id)
  }

  /** The record `createIngestionStatus` builds before it is saved. */
  function InitialStatus(id: int, tableName: string, fileName: string): (r: StatusRecord)
    ensures r.id == id && r.tableName == tableName && r.fileName == fileName
    ensures r.status == IN_PROGRESS && r.progress == 0 && r.retryCount == 0
    ensures r.totalRows.None? && r.processedRows.None? && r.errorMessage.None?
  {
    StatusRecord(id, tableName, fileName, IN_PROGRESS, 0, 0, None, None, None)
  }

  predicate IsTerminal(s: IngestionStatusEnum) { s == SUCCESS || s == FAILED }

  /** `updateStatus`: a terminal status also sets progress to 100. */
  function WithStatus(r: StatusRecord, s: IngestionStatusEnum): (u: StatusRecord)
    ensures u.status == s
    ensures u.progress == (if IsTerminal(s) then 100 else r.progress)
    ensures u.(status := r.status, progress := r.progress) == r
  {
    if IsTerminal(s) then r.(status := s, progress := 100) else r.(status := s)
  }

  /** `updateProgress`: the new value replaces the old one. */
  function WithProgress(r: StatusRecord, p: Int32): (u: StatusRecord)
    ensures u.progress == p && u.(progress := r.progress) == r
  {
    r.(progress := p)
  }

  function WithTotalRows(r: StatusRecord, t: Option<Long>): (u: StatusRecord)
    ensures u.totalRows == t && u.(totalRows := r.totalRows) == r
  {
    r.(totalRows := t)
  }

  /** `(int) ((processedRows * 100) / totalRows)` in `long` arithmetic. */
  function ProgressOf(processed: Long, total: Long): (p: Int32)
    requires total > 0
  {
    WrapInt(TruncDiv(WrapLong(processed * 100), total))
  }

  /** `updateProcessedRows`: progress is recomputed only when the total is
      known and positive. */
  function WithProcessedRows(r: StatusRecord, processed: Long): (u: StatusRecord)
    ensures u.processedRows == Some(processed)
    ensures r.totalRows.Some? && r.totalRows.value > 0 ==> u.progress == ProgressOf(processed, r.totalRows.value)
    ensures !(r.totalRows.Some? && r.totalRows.value > 0) ==> u.progress == r.progress
    ensures u.(processedRows := r.processedRows, progress := r.progress) == r
  {
    var withRows := r.(processedRows := Some(processed));
    if r.totalRows.Some? && r.totalRows.value > 0 then withRows.(progress := ProgressOf(processed, r.totalRows.value))
    else withRows
  }

  /** `updateErrorMessage`: the message is stored and the status forced to
      FAILED, without touching progress. */
  function WithErrorMessage(r: StatusRecord, msg: string): (u: StatusRecord)
    ensures u.errorMessage == Some(msg) && u.status == FAILED && u.progress == r.progress
    ensures u.(errorMessage := r.errorMessage, status := r.status) == r
  {
    r.(errorMessage := Some(msg), status := FAILED)
  }

  /** `setRetryCount(getRetryCount() + 1)` in `int` arithmetic. */
  function WithRetry(r: StatusRecord): (u: StatusRecord)
    ensures u.retryCount == WrapInt(r.retryCount + 1) && u.(retryCount := r.retryCount) == r
  {
    r.(retryCount := WrapInt(r.retryCount + 1))
  }

  /** The outcome of an update through `findById(...).orElseThrow(...)`:
      an unknown id fails and changes nothing; a known one changes only that
      record, as `f` says. */
  predicate UpdatedBy(before: map<int, StatusRecord>, after: map<int, StatusRecord>, id: int,
                      r: Result<StatusRecord>, f: StatusRecord -> StatusRecord)
  {
    if id in before then r == Ok(f(before[id])) && after == before[id := f(before[id])]
    else r == Err(NotFound(id)) && after == before
  }

  class IngestionStatusStore {
    var records: map<int, StatusRecord>
    var nextId: int

    /** Every stored record sits under its own id, below the next id. */
    predicate Valid()
      reads this
    {
      nextId >= 1 && forall id :: id in records ==> 1 <= id < nextId && records[id].id == id
    }

    constructor ()
      ensures Valid() && records == map[] && nextId == 1
    {
      records := map[];
      nextId := 1;
    }

    function GetStatusById(id: int): (r: Option<StatusRecord>)
      reads this
      ensures r.Some? <==> id in records
      ensures r.Some? ==> r.value == records[id]
    {
      if id in records then Some(records[id]) else None
    }

    method CreateIngestionStatus(tableName: string, fileName: string) returns (s: StatusRecord)
      requires Valid()
      modifies this
      ensures Valid()
      ensures s == InitialStatus(old(nextId), tableName, fileName)
      ensures s.id !in old(records) && records == old(records)[s.id := s]
      ensures nextId == old(nextId) + 1
    {
      s := InitialStatus(nextId, tableName, fileName);
      records := records[nextId := s];
      nextId := nextId + 1;
    }

    method UpdateStatus(id: int, status: IngestionStatusEnum) returns (r: Result<StatusRecord>)
      requires Valid()
      modifies this
      ensures Valid() && nextId == old(nextId)
      ensures UpdatedBy(old(records), records, id, r, rec => WithStatus(rec, status))
    {
      if id !in records {
        return Err(NotFound(id));
      }
      var u := WithStatus(records[id], status);
      records := records[id := u];
      r := Ok(u);
    }

    method UpdateProgress(id: int, progress: Int32) returns (r: Result<StatusRecord>)
      requires Valid()
      modifies this
      ensures Valid() && nextId == old(nextId)
      ensures UpdatedBy(old(records), records, id, r, rec => WithProgress(rec, progress))
    {
      if id !in records {
        return Err(NotFound(id));
      }
      var u := WithProgress(records[id], progress);
      records := records[id := u];
      r := Ok(u);
    }

    method UpdateTotalRows(id: int, totalRows: Option<Long>) returns (r: Result<StatusRecord>)
      requires Valid()
      modifies this
      ensures Valid() && nextId == old(nextId)
      ensures UpdatedBy(old(records), records, id, r, rec => WithTotalRows(rec, totalRows))
    {
      if id !in records {
        return Err(NotFound(id));
      }
      var u := WithTotalRows(records[id], totalRows);
      records := records[id := u];
      r := Ok(u);
    }

    method UpdateProcessedRows(id: int, processedRows: Long) returns (r: Result<StatusRecord>)
      requires Valid()
      modifies this
      ensures Valid() && nextId == old(nextId)
      ensures UpdatedBy(old(records), records, id, r, rec => WithProcessedRows(rec, processedRows))
    {
      if id !in records {
        return Err(NotFound(id));
      }
      var u := WithProcessedRows(records[id], processedRows);
      records := records[id := u];
      r := Ok(u);
    }

    method UpdateErrorMessage(id: int, errorMessage: string) returns (r: Result<StatusRecord>)
      requires Valid()
      modifies this
      ensures Valid() && nextId == old(nextId)
      ensures UpdatedBy(old(records), records, id, r, rec => WithErrorMessage(rec, errorMessage))
    {
      if id !in records {
        return Err(NotFound(id));
      }
      var u := WithErrorMessage(records[id], errorMessage);
      records := records[id := u];
      r := Ok(u);
    }

    method IncrementRetryCount(id: int) returns (r: Result<StatusRecord>)
      requires Valid()
      modifies this
      ensures Valid() && nextId == old(nextId)
      ensures UpdatedBy(old(records), records, id, r, WithRetry)
    {
      if id !in records {
        return Err(NotFound(id));
      }
      var u := WithRetry(records[id]);
      records := records[id := u];
      r := Ok(u);
    }

    /** `getStatusByTableName`, as the set of matching records. */
    function GetStatusByTableName(tableName: string): (r: set<StatusRecord>)
      reads this
      ensures forall s :: s in r <==> exists id :: id in records && records[id] == s && s.tableName == tableName
    {
      set id | id in records && records[id].tableName == tableName :: records[id]
    }

    /** `getStatusByFileName`, as the set of matching records. */
    function GetStatusByFileName(fileName: string): (r: set<StatusRecord>)
      reads this
      ensures forall s :: s in r <==> exists id :: id in records && records[id] == s && s.fileName == fileName
    {
      set id | id in records && records[id].fileName == fileName :: records[id]
    }
  }

  // ---- properties ----------------------------------------------------------

  /** For a non-negative count whose percentage fits a `long`, progress is
      the integer percentage (as long as that fits an `int`), at most 100
      while the count does not pass the total; nothing clamps it above 100. */
  lemma ProgressIsPercentage(processed: Long, total: Long)
    requires total > 0 && processed >= 0 && processed * 100 <= LONG_MAX
    ensures processed * 100 / total <= INT_MAX ==> ProgressOf(processed, total) == processed * 100 / total
    ensures processed <= total ==> 0 <= processed * 100 / total <= 100
    ensures processed >= 2 * total ==> processed * 100 / total >= 200
  {
    var a := processed * 100;
    var q := a / total;
    assert WrapLong(a) == a;
    assert TruncDiv(a, total) == q;
    DivBounds(a, total);
    if processed <= total {
      assert q * total <= 100 * total;
      CancelFactor(q, 100, total);
    }
    if processed >= 2 * total {
      assert 200 * total <= a < (q + 1) * total;
      CancelStrict(200, q + 1, total);
    }
  }

  lemma DivBounds(a: nat, b: int)
    requires b > 0
    ensures a / b >= 0 && (a / b) * b <= a < (a / b + 1) * b
  {
    assert (a / b) * b + a % b == a;
  }

  lemma CancelStrict(x: int, y: int, t: int)
    requires t > 0 && x * t < y * t
    ensures x < y
  {
    assert (y - x) * t == y * t - x * t > 0;
  }

  lemma CancelFactor(x: int, y: int, t: int)
    requires t > 0 && x * t <= y * t
    ensures x <= y
  {
    assert (y - x) * t == y * t - x * t >= 0;
  }

  lemma ProgressNotClamped()
    ensures ProgressOf(300, 100) == 300
  {
    assert WrapLong(30000) == 30000;
    assert TruncDiv(30000, 100) == 300;
  }

  /** Below `Integer.MAX_VALUE` the retry count goes up by exactly one; at it,
      the count wraps to `Integer.MIN_VALUE`. */
  lemma RetryIncrements(r: StatusRecord)
    ensures r.retryCount < INT_MAX ==> WithRetry(r).retryCount == r.retryCount + 1
    ensures r.retryCount == INT_MAX ==> WithRetry(r).retryCount == INT_MIN
  {
    if r.retryCount == INT_MAX {
      assert (INT_MAX + 1 - INT_MIN) % TWO_32 == 0;
    }
  }

  /** A later `updateProgress` overwrites an earlier one, and a terminal
      status leaves progress at 100 whatever was reported before. */
  lemma ProgressOverwrites(r: StatusRecord, a: Int32, b: Int32, s: IngestionStatusEnum)
    ensures WithProgress(WithProgress(r, a), b) == WithProgress(r, b)
    ensures IsTerminal(s) ==> WithStatus(WithProgress(r, a), s).progress == 100
    ensures WithStatus(WithProgress(r, a), IN_PROGRESS).progress == a
  {
  }

  /** Recording an error keeps the progress, so a FAILED record can show
      any progress unless `updateStatus(FAILED)` ran as well. */
  lemma ErrorThenStatus(r: StatusRecord, msg: string)
    ensures WithErrorMessage(r, msg).progress == r.progress
    ensures WithErrorMessage(WithStatus(r, FAILED), msg).progress == 100
    ensures WithErrorMessage(WithStatus(r, FAILED), msg).status == FAILED
  {
  }
}
