/** The `aggregate-stats` directive: sum, average, minimum or maximum of the
    byte sizes or time durations held in one column, written into a new
    column of every row. */
module AggregateStatsStep {
  import opened Wrappers
  import opened JavaNum
  import opened Text
  import opened ByteSizeToken
  import opened TimeDurationToken
  import opened Rows

  // ---- specification functions --------------------------------------------

  /** The kind of the first value in the column that is a byte size or a
      time duration; `null` and other objects are passed over. */
  function ValueKind(rows: seq<Row>, column: string): Option<TokenType>
    decreases |rows|
  {
    if rows == [] then None
    else match GetValue(rows[0], column)
      case Bytes(_) => Some(BYTE_SIZE)
      case Duration(_) => Some(TIME_DURATION)
      case _ => ValueKind(rows[1..], column)
  }

  /** The normalised magnitude a value contributes to an aggregate of the
      given kind: bytes of a byte size, milliseconds of a duration, nothing
      for a value of the other kind. */
  function Magnitude(v: Value, kind: TokenType): Option<Long>
  {
    match kind
    case BYTE_SIZE => if v.Bytes? then Some(ToBytes(v.size)) else None
    case TIME_DURATION => if v.Duration? then Some(ToMillis(v.time)) else None
  }

  function Mag(rows: seq<Row>, column: string, kind: TokenType, j: int): Option<Long>
    requires 0 <= j < |rows|
  {
    Magnitude(GetValue(rows[j], column), kind)
  }

  /** The exact (unbounded) sum of the magnitudes in the column. */
  function Total(rows: seq<Row>, column: string, kind: TokenType): int
    decreases |rows|
  {
    if rows == [] then 0
    else
      var m := Mag(rows, column, kind, |rows| - 1);
      Total(rows[..|rows| - 1], column, kind) + (if m.Some? then m.value else 0)
  }

  /** The number of values of the given kind in the column. */
  function Count(rows: seq<Row>, column: string, kind: TokenType): nat
    decreases |rows|
  {
    if rows == [] then 0
    else
      var c := if Mag(rows, column, kind, |rows| - 1).Some? then 1 else 0;
      Count(rows[..|rows| - 1], column, kind) + c
  }

  /** A result in bytes (`new ByteSize(n, "B", n + "B")`) or in milliseconds
      (`new TimeDuration(n, "ms", n + "ms")`). */
  function Normalised(kind: TokenType, n: Long): Value
  {
    match kind
    case BYTE_SIZE => Bytes(ByteSize(n, "B", IntToString(n) + "B"))
    case TIME_DURATION => Duration(TimeDuration(n, MILLISECONDS, IntToString(n) + "ms"))
  }

  /** The fallback `0B` or `0ms`. */
  function Zero(kind: TokenType): Value
  {
    match kind
    case BYTE_SIZE => Bytes(ByteSize(0, "B", "0B"))
    case TIME_DURATION => Duration(TimeDuration(0, MILLISECONDS, "0ms"))
  }

  function SumOf(rows: seq<Row>, column: string, kind: TokenType): Value
  {
    Normalised(kind, WrapLong(Total(rows, column, kind)))
  }

  function AverageOf(rows: seq<Row>, column: string, kind: TokenType): Value
  {
    var c := Count(rows, column, kind);
    if c == 0 then Zero(kind) else Normalised(kind, TruncDiv(WrapLong(Total(rows, column, kind)), c))
  }

  /** The scan of `calculateMin`: the running minimum (starting at
      `Long.MAX_VALUE`) and the value that last lowered it. */
  function MinScan(rows: seq<Row>, column: string, kind: TokenType): (Long, Option<Value>)
    decreases |rows|
  {
    if rows == [] then (LONG_MAX, None)
    else
      var (m, best) := MinScan(rows[..|rows| - 1], column, kind);
      var x := Mag(rows, column, kind, |rows| - 1);
      if x.Some? && x.value < m then (x.value, Some(GetValue(rows[|rows| - 1], column))) else (m, best)
  }

  /** The scan of `calculateMax`, from `Long.MIN_VALUE`. */
  function MaxScan(rows: seq<Row>, column: string, kind: TokenType): (Long, Option<Value>)
    decreases |rows|
  {
    if rows == [] then (LONG_MIN, None)
    else
      var (m, best) := MaxScan(rows[..|rows| - 1], column, kind);
      var x := Mag(rows, column, kind, |rows| - 1);
      if x.Some? && x.value > m then (x.value, Some(GetValue(rows[|rows| - 1], column))) else (m, best)
  }

  function MinOf(rows: seq<Row>, column: string, kind: TokenType): Value
  {
    var best := MinScan(rows, column, kind).1;
    if best.Some? then best.value else Zero(kind)
  }

  function MaxOf(rows: seq<Row>, column: string, kind: TokenType): Value
  {
    var best := MaxScan(rows, column, kind).1;
    if best.Some? then best.value else Zero(kind)
  }

  const Operations: set<string> := {"sum", "avg", "min", "max"}

  /** The aggregate an operation name (already lower-cased) selects. */
  function Aggregate(op: string, rows: seq<Row>, column: string, kind: TokenType): Value
    requires op in Operations
  {
    if op == "sum" then SumOf(rows, column, kind)
    else if op == "avg" then AverageOf(rows, column, kind)
    else if op == "min" then MinOf(rows, column, kind)
    else MaxOf(rows, column, kind)
  }

  // ---- the directive ------------------------------------------------------

  class AggregateStats {
    var column: Option<string>
    var operation: Option<string>
    var outputColumn: Option<string>

    constructor ()
      ensures column == None && operation == None && outputColumn == None
    {
      column, operation, outputColumn := None, None, None;
    }

    /** `configure`: each argument is read from the map, absent ones as null. */
    method Configure(arguments: map<string, string>)
      modifies this
      ensures column == (if "column" in arguments then Some(arguments["column"]) else None)
      ensures operation == (if "operation" in arguments then Some(arguments["operation"]) else None)
      ensures outputColumn ==
        (if "output-column" in arguments then Some(arguments["output-column"]) else None)
    {
      column := if "column" in arguments then Some(arguments["column"]) else None;
      operation := if "operation" in arguments then Some(arguments["operation"]) else None;
      outputColumn := if "output-column" in arguments then Some(arguments["output-column"]) else None;
    }

    /** `execute`. A `null` list is `None`; a thrown
        `DirectiveExecutionException` is `Err` with its message. */
    method Execute(rows: Option<seq<Row>>) returns (r: Result<Option<seq<Row>>>)
      modifies this
      ensures column == old(column) && operation == old(operation)
      // null or empty input: returned as it is, before any validation
      ensures rows.None? || rows.value == [] ==> r == Ok(rows) && outputColumn == old(outputColumn)
      ensures rows.Some? && rows.value != [] && NullOrEmpty(column) ==>
        r == Err("Column name is required") && outputColumn == old(outputColumn)
      ensures rows.Some? && rows.value != [] && !NullOrEmpty(column) && NullOrEmpty(operation) ==>
        r == Err("Operation is required") && outputColumn == old(outputColumn)
      // once both are present, the default output column is written back
      ensures rows.Some? && rows.value != [] && !NullOrEmpty(column) && !NullOrEmpty(operation) ==>
        outputColumn == (if NullOrEmpty(old(outputColumn))
                         then Some(column.value + "_" + operation.value) else old(outputColumn))
      ensures rows.Some? && rows.value != [] && !NullOrEmpty(column) && !NullOrEmpty(operation) ==>
        var kind := ValueKind(rows.value, column.value);
        var op := Lower(operation.value);
        (kind.None? ==>
          r == Err("Column '" + column.value + "' does not contain byte size or time duration values"))
        && (kind.Some? && op !in Operations ==>
          r == Err("Unsupported operation: " + operation.value
                   + ". Supported operations are: sum, avg, min, max"))
        && (kind.Some? && op in Operations ==>
          r.Ok? && r.value.Some? && |r.value.value| == |rows.value|
          && forall i :: 0 <= i < |rows.value| ==>
               r.value.value[i] == Add(rows.value[i], outputColumn.value,
                                       Aggregate(op, rows.value, column.value, kind.value)))
    {
      if rows.None? || rows.value == [] {
        return Ok(rows);
      }
      if NullOrEmpty(column) {
        return Err("Column name is required");
      }
      if NullOrEmpty(operation) {
        return Err("Operation is required");
      }
      if NullOrEmpty(outputColumn) {
        outputColumn := Some(column.value + "_" + operation.value);
      }
      var rs := rows.value;
      var col := column.value;
      var valueType := FindValueType(rs, col);
      if valueType.None? {
        return Err("Column '" + col + "' does not contain byte size or time duration values");
      }
      var op := Lower(operation.value);
      if op !in Operations {
        return Err("Unsupported operation: " + operation.value
                   + ". Supported operations are: sum, avg, min, max");
      }
      var aggregated := CalculateAggregate(op, rs, col, valueType.value);
      var result := AddToEach(rs, outputColumn.value, aggregated);
      return Ok(Some(result));
    }
  }

  /** The first loop of `execute`, which stops at the first value of either kind. */
  method FindValueType(rs: seq<Row>, col: string) returns (valueType: Option<TokenType>)
    ensures valueType == ValueKind(rs, col)
  {
    valueType := None;
    var i := 0;
    while i < |rs|
      invariant 0 <= i <= |rs|
      invariant valueType.None? ==> ValueKind(rs, col) == ValueKind(rs[i..], col)
      invariant valueType.Some? ==> valueType == ValueKind(rs, col)
    {
      var value := GetValue(rs[i], col);
      assert rs[i..][1..] == rs[i + 1..];
      if value.Bytes? {
        valueType := Some(BYTE_SIZE);
        break;
      } else if value.Duration? {
        valueType := Some(TIME_DURATION);
        break;
      }
      i := i + 1;
    }
  }

  /** The `switch` of `execute` over the lower-cased operation. */
  method CalculateAggregate(op: string, rs: seq<Row>, col: string, kind: TokenType) returns (aggregated: Value)
    requires op in Operations
    ensures aggregated == Aggregate(op, rs, col, kind)
  {
    if op == "sum" {
      aggregated := CalculateSum(rs, col, kind);
    } else if op == "avg" {
      aggregated := CalculateAverage(rs, col, kind);
    } else if op == "min" {
      aggregated := CalculateMin(rs, col, kind);
    } else {
      aggregated := CalculateMax(rs, col, kind);
    }
  }

  /** The last loop of `execute`: a copy of every row with the new field. */
  method AddToEach(rs: seq<Row>, name: string, v: Value) returns (result: seq<Row>)
    ensures |result| == |rs|
    ensures forall j :: 0 <= j < |rs| ==> result[j] == Add(rs[j], name, v)
  {
    result := [];
    var i := 0;
    while i < |rs|
      invariant 0 <= i <= |rs| && |result| == i
      invariant forall j :: 0 <= j < i ==> result[j] == Add(rs[j], name, v)
    {
      result := result + [Add(rs[i], name, v)];
      i := i + 1;
    }
  }

  method CalculateSum(rows: seq<Row>, column: string, kind: TokenType) returns (r: Value)
    ensures r == SumOf(rows, column, kind)
  {
    var sum: Long := 0;
    var i := 0;
    while i < |rows|
      invariant 0 <= i <= |rows|
      invariant sum == WrapLong(Total(rows[..i], column, kind))
    {
      assert rows[..i + 1][..i] == rows[..i];
      var m := Magnitude(GetValue(rows[i], column), kind);
      if m.Some? {
        WrapAddLong(Total(rows[..i], column, kind), m.value);
        sum := WrapLong(sum + m.value);
      }
      i := i + 1;
    }
    assert rows[..i] == rows;
    r := Normalised(kind, sum);
  }

  method CalculateAverage(rows: seq<Row>, column: string, kind: TokenType) returns (r: Value)
    ensures r == AverageOf(rows, column, kind)
  {
    var sum: Long := 0;
    var count: nat := 0;
    var i := 0;
    while i < |rows|
      invariant 0 <= i <= |rows|
      invariant sum == WrapLong(Total(rows[..i], column, kind))
      invariant count == Count(rows[..i], column, kind)
    {
      assert rows[..i + 1][..i] == rows[..i];
      var m := Magnitude(GetValue(rows[i], column), kind);
      if m.Some? {
        WrapAddLong(Total(rows[..i], column, kind), m.value);
        sum := WrapLong(sum + m.value);
        count := count + 1;
      }
      i := i + 1;
    }
    assert rows[..i] == rows;
    if count == 0 {
      return Zero(kind);
    }
    var avg := TruncDiv(sum, count);
    r := Normalised(kind, avg);
  }

  method CalculateMin(rows: seq<Row>, column: string, kind: TokenType) returns (r: Value)
    ensures r == MinOf(rows, column, kind)
  {
    var min: Long := LONG_MAX;
    var minValue: Option<Value> := None;
    var i := 0;
    while i < |rows|
      invariant 0 <= i <= |rows|
      invariant (min, minValue) == MinScan(rows[..i], column, kind)
    {
      assert rows[..i + 1][..i] == rows[..i];
      var value := GetValue(rows[i], column);
      var m := Magnitude(value, kind);
      if m.Some? && m.value < min {
        min := m.value;
        minValue := Some(value);
      }
      i := i + 1;
    }
    assert rows[..i] == rows;
    r := if minValue.Some? then minValue.value else Zero(kind);
  }

  method CalculateMax(rows: seq<Row>, column: string, kind: TokenType) returns (r: Value)
    ensures r == MaxOf(rows, column, kind)
  {
    var max: Long := LONG_MIN;
    var maxValue: Option<Value> := None;
    var i := 0;
    while i < |rows|
      invariant 0 <= i <= |rows|
      invariant (max, maxValue) == MaxScan(rows[..i], column, kind)
    {
      assert rows[..i + 1][..i] == rows[..i];
      var value := GetValue(rows[i], column);
      var m := Magnitude(value, kind);
      if m.Some? && m.value > max {
        max := m.value;
        maxValue := Some(value);
      }
      i := i + 1;
    }
    assert rows[..i] == rows;
    r := if maxValue.Some? then maxValue.value else Zero(kind);
  }
}

/** What the aggregates of the `aggregate-stats` directive compute. */
module AggregateStatsProperties {
  import opened Wrappers
  import opened JavaNum
  import opened Text
  import opened ByteSizeToken
  import opened TimeDurationToken
  import opened Rows
  import opened AggregateStatsStep

  predicate IsToken(v: Value) { v.Bytes? || v.Duration? }

  /** The value kind is that of the first byte size or duration in the
      column, and there is none exactly when the column holds neither. */
  lemma {:induction false} ValueKindIsFirst(rows: seq<Row>, column: string)
    ensures ValueKind(rows, column).None? <==>
      forall j :: 0 <= j < |rows| ==> !IsToken(GetValue(rows[j], column))
    ensures ValueKind(rows, column).Some? ==>
      exists k :: 0 <= k < |rows| && Mag(rows, column, ValueKind(rows, column).value, k).Some?
        && forall j :: 0 <= j < k ==> !IsToken(GetValue(rows[j], column))
    decreases |rows|
  {
    if rows != [] {
      ValueKindIsFirst(rows[1..], column);
      var v := GetValue(rows[0], column);
      if !IsToken(v) {
        assert forall j :: 1 <= j < |rows| ==> rows[j] == rows[1..][j - 1];
        if ValueKind(rows, column).Some? {
          var k :| 0 <= k < |rows[1..]| && Mag(rows[1..], column, ValueKind(rows, column).value, k).Some?
            && forall j :: 0 <= j < k ==> !IsToken(GetValue(rows[1..][j], column));
          assert Mag(rows, column, ValueKind(rows, column).value, k + 1).Some?;
        }
      } else {
        assert Mag(rows, column, ValueKind(rows, column).value, 0).Some?;
      }
    }
  }

  /** A value of the kind is counted. */
  lemma {:induction false} CountPositive(rows: seq<Row>, column: string, kind: TokenType, j: int)
    requires 0 <= j < |rows| && Mag(rows, column, kind, j).Some?
    ensures Count(rows, column, kind) >= 1
    decreases |rows|
  {
    if j < |rows| - 1 {
      var p := rows[..|rows| - 1];
      assert p[j] == rows[j];
      CountPositive(p, column, kind, j);
    }
  }

  /** Once a kind is found, at least one value of it is counted, so the
      average's `count == 0` fallback cannot be reached from `execute`. */
  lemma KindFoundIsCounted(rows: seq<Row>, column: string)
    requires ValueKind(rows, column).Some?
    ensures Count(rows, column, ValueKind(rows, column).value) >= 1
  {
    ValueKindIsFirst(rows, column);
    var k :| 0 <= k < |rows| && Mag(rows, column, ValueKind(rows, column).value, k).Some?;
    CountPositive(rows, column, ValueKind(rows, column).value, k);
  }

  /** Appending rows adds their magnitudes to the total and their values to
      the count: the sum and the average do not depend on how the rows are
      grouped. */
  lemma {:induction false} TotalAppend(a: seq<Row>, b: seq<Row>, column: string, kind: TokenType)
    ensures Total(a + b, column, kind) == Total(a, column, kind) + Total(b, column, kind)
    ensures Count(a + b, column, kind) == Count(a, column, kind) + Count(b, column, kind)
    decreases |b|
  {
    if b == [] {
      assert a + b == a;
    } else {
      var b' := b[..|b| - 1];
      assert (a + b)[..|a + b| - 1] == a + b';
      assert (a + b)[|a + b| - 1] == b[|b| - 1];
      TotalAppend(a, b', column, kind);
    }
  }

  predicate FirstMinAt(rows: seq<Row>, column: string, kind: TokenType, k: int, m: int)
  {
    0 <= k < |rows| && Mag(rows, column, kind, k) == Some(m)
    && forall j :: 0 <= j < k && Mag(rows, column, kind, j).Some? ==> Mag(rows, column, kind, j).value > m
  }

  predicate FirstMaxAt(rows: seq<Row>, column: string, kind: TokenType, k: int, m: int)
  {
    0 <= k < |rows| && Mag(rows, column, kind, k) == Some(m)
    && forall j :: 0 <= j < k && Mag(rows, column, kind, j).Some? ==> Mag(rows, column, kind, j).value < m
  }

  /** The minimum scan keeps the smallest magnitude seen, and the value it
      keeps is the first one of that magnitude; it keeps none only while
      the running minimum is still `Long.MAX_VALUE`. */
  lemma {:induction false} MinScanMeaning(rows: seq<Row>, column: string, kind: TokenType)
    ensures var (m, best) := MinScan(rows, column, kind);
      (forall j :: 0 <= j < |rows| && Mag(rows, column, kind, j).Some? ==> m <= Mag(rows, column, kind, j).value)
      && (best.None? ==> m == LONG_MAX)
      && (best.Some? ==> (m < LONG_MAX
            && exists k :: FirstMinAt(rows, column, kind, k, m) && best.value == GetValue(rows[k], column)))
    decreases |rows|
  {
    if rows != [] {
      var n := |rows|;
      var p := rows[..n - 1];
      MinScanMeaning(p, column, kind);
      assert forall j :: 0 <= j < n - 1 ==> Mag(p, column, kind, j) == Mag(rows, column, kind, j);
      var (m0, b0) := MinScan(p, column, kind);
      var x := Mag(rows, column, kind, n - 1);
      if x.Some? && x.value < m0 {
        assert FirstMinAt(rows, column, kind, n - 1, x.value);
      } else if b0.Some? {
        var k :| FirstMinAt(p, column, kind, k, m0) && b0.value == GetValue(p[k], column);
        assert FirstMinAt(rows, column, kind, k, m0);
      }
    }
  }

  lemma {:induction false} MaxScanMeaning(rows: seq<Row>, column: string, kind: TokenType)
    ensures var (m, best) := MaxScan(rows, column, kind);
      (forall j :: 0 <= j < |rows| && Mag(rows, column, kind, j).Some? ==> m >= Mag(rows, column, kind, j).value)
      && (best.None? ==> m == LONG_MIN)
      && (best.Some? ==> (m > LONG_MIN
            && exists k :: FirstMaxAt(rows, column, kind, k, m) && best.value == GetValue(rows[k], column)))
    decreases |rows|
  {
    if rows != [] {
      var n := |rows|;
      var p := rows[..n - 1];
      MaxScanMeaning(p, column, kind);
      assert forall j :: 0 <= j < n - 1 ==> Mag(p, column, kind, j) == Mag(rows, column, kind, j);
      var (m0, b0) := MaxScan(p, column, kind);
      var x := Mag(rows, column, kind, n - 1);
      if x.Some? && x.value > m0 {
        assert FirstMaxAt(rows, column, kind, n - 1, x.value);
      } else if b0.Some? {
        var k :| FirstMaxAt(p, column, kind, k, m0) && b0.value == GetValue(p[k], column);
        assert FirstMaxAt(rows, column, kind, k, m0);
      }
    }
  }

  /** `calculateMin` returns the original value object of smallest magnitude,
      the first one on ties, as soon as some magnitude is below
      `Long.MAX_VALUE`. */
  lemma MinIsFirstSmallest(rows: seq<Row>, column: string, kind: TokenType, j: int)
    requires 0 <= j < |rows| && Mag(rows, column, kind, j).Some?
    requires Mag(rows, column, kind, j).value < LONG_MAX
    ensures exists k, m ::
      (FirstMinAt(rows, column, kind, k, m)
       && MinOf(rows, column, kind) == GetValue(rows[k], column)
       && (forall i :: 0 <= i < |rows| && Mag(rows, column, kind, i).Some? ==>
             m <= Mag(rows, column, kind, i).value))
  {
    MinScanMeaning(rows, column, kind);
  }

  /** `calculateMax` returns the original value object of largest magnitude,
      the first one on ties, as soon as some magnitude is above
      `Long.MIN_VALUE`. */
  lemma MaxIsFirstLargest(rows: seq<Row>, column: string, kind: TokenType, j: int)
    requires 0 <= j < |rows| && Mag(rows, column, kind, j).Some?
    requires Mag(rows, column, kind, j).value > LONG_MIN
    ensures exists k, m ::
      (FirstMaxAt(rows, column, kind, k, m)
       && MaxOf(rows, column, kind) == GetValue(rows[k], column)
       && (forall i :: 0 <= i < |rows| && Mag(rows, column, kind, i).Some? ==>
             m >= Mag(rows, column, kind, i).value))
  {
    MaxScanMeaning(rows, column, kind);
  }

  /** The sentinel start of the scans: when every magnitude equals
      `Long.MAX_VALUE` (for the minimum) or `Long.MIN_VALUE` (for the
      maximum) no value ever beats it, and the result is `0B` or `0ms`
      rather than one of the values. */
  lemma SentinelGivesZero(rows: seq<Row>, column: string, kind: TokenType)
    ensures (forall j :: 0 <= j < |rows| && Mag(rows, column, kind, j).Some? ==>
               Mag(rows, column, kind, j).value == LONG_MAX) ==> MinOf(rows, column, kind) == Zero(kind)
    ensures (forall j :: 0 <= j < |rows| && Mag(rows, column, kind, j).Some? ==>
               Mag(rows, column, kind, j).value == LONG_MIN) ==> MaxOf(rows, column, kind) == Zero(kind)
  {
    MinScanMeaning(rows, column, kind);
    MaxScanMeaning(rows, column, kind);
  }

  function SizeRow(b: ByteSize): Row { Row([("size", Bytes(b))]) }
  function DurationRow(t: TimeDuration): Row { Row([("duration", Duration(t))]) }

  /** A single size of `Long.MAX_VALUE` bytes has minimum `0B`. */
  lemma MinOfLargestSizeIsZero()
    ensures MinOf([SizeRow(ByteSize(LONG_MAX, "B", "max"))], "size", BYTE_SIZE) == Bytes(ByteSize(0, "B", "0B"))
  {
    var rows := [SizeRow(ByteSize(LONG_MAX, "B", "max"))];
    assert Upper("B") == "B";
    assert Mag(rows, "size", BYTE_SIZE, 0) == Some(LONG_MAX);
    SentinelGivesZero(rows, "size", BYTE_SIZE);
  }

  /** `1024B` and `1KB` sum to `2048B`. */
  lemma SumExample()
    ensures SumOf([SizeRow(ByteSize(1024, "B", "1024B")), SizeRow(ByteSize(1, "KB", "1KB"))], "size", BYTE_SIZE)
      == Bytes(ByteSize(2048, "B", "2048B"))
  {
    var rows := [SizeRow(ByteSize(1024, "B", "1024B")), SizeRow(ByteSize(1, "KB", "1KB"))];
    assert Upper("B") == "B" && Upper("KB") == "KB";
    assert rows[..1] == [rows[0]];
    assert Total(rows, "size", BYTE_SIZE) == 2048;
    assert NatToString(2) == "2";
    assert NatToString(20) == "20";
    assert NatToString(204) == "204";
    assert NatToString(2048) == "2048";
  }

  /** The average of `1000ms` and `1s` is `1000ms`. */
  lemma AverageExample()
    ensures AverageOf([DurationRow(TimeDuration(1000, MILLISECONDS, "1000ms")),
                       DurationRow(TimeDuration(1, SECONDS, "1s"))], "duration", TIME_DURATION)
      == Duration(TimeDuration(1000, MILLISECONDS, "1000ms"))
  {
    var rows := [DurationRow(TimeDuration(1000, MILLISECONDS, "1000ms")), DurationRow(TimeDuration(1, SECONDS, "1s"))];
    assert rows[..1] == [rows[0]];
    assert ToMillis(TimeDuration(1, SECONDS, "1s")) == 1000;
    assert Total(rows, "duration", TIME_DURATION) == 2000;
    assert Count(rows, "duration", TIME_DURATION) == 2;
    assert NatToString(1) == "1";
    assert NatToString(10) == "10";
    assert NatToString(100) == "100";
    assert NatToString(1000) == "1000";
  }

  /** The maximum of `1024B`, `1MB` and `512KB` is the `1MB` object itself. */
  lemma MaxExample()
    ensures MaxOf([SizeRow(ByteSize(1024, "B", "1024B")), SizeRow(ByteSize(1, "MB", "1MB")),
                   SizeRow(ByteSize(512, "KB", "512KB"))], "size", BYTE_SIZE)
      == Bytes(ByteSize(1, "MB", "1MB"))
  {
    var rows := [SizeRow(ByteSize(1024, "B", "1024B")), SizeRow(ByteSize(1, "MB", "1MB")),
                 SizeRow(ByteSize(512, "KB", "512KB"))];
    assert Upper("B") == "B" && Upper("KB") == "KB" && Upper("MB") == "MB";
    assert rows[..1] == [rows[0]];
    assert rows[..2] == [rows[0], rows[1]];
    assert MulLong(MulLong(1, 1024), 1024) == 1048576;
    assert MulLong(512, 1024) == 524288;
    assert Mag(rows, "size", BYTE_SIZE, 0) == Some(1024);
    assert Mag(rows, "size", BYTE_SIZE, 1) == Some(1048576);
    assert Mag(rows, "size", BYTE_SIZE, 2) == Some(524288);
    assert rows[..2][..1] == rows[..1];
    assert rows[..3] == rows;
    assert MaxScan(rows[..1], "size", BYTE_SIZE) == (1024, Some(rows[0].fields[0].1));
    assert MaxScan(rows[..2], "size", BYTE_SIZE) == (1048576, Some(rows[1].fields[0].1));
  }
}
