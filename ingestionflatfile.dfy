/** The record handling of the ingestion backend's flat-file service: CSV
    records (as the CSV parser returns them) become a header list and one
    string map per data row, and the streaming variant hands the rows to a
    batch processor in groups of 1000. */
module IngestionFlatFile {
  import opened Text

  /** `BATCH_SIZE`. */
  const BATCH_SIZE: nat := 1000

  /** One parsed CSV record: its fields in order. */
  type Record = seq<string>
  type RowMap = map<string, string>

  /** The result map of `parseCSVFile`, with its "headers" and "data" entries. */
  datatype ParsedFile = ParsedFile(headers: seq<string>, data: seq<RowMap>)

  /** The value stored for header position `j`: the trimmed field, or "" if
      the record is shorter. */
  function FieldAt(record: Record, j: nat): string
  {
    if j < |record| then JavaTrim(record[j]) else ""
  }

  /** The row map after putting the first `|headers|` header positions, in
      order; a later position overwrites an earlier one with the same name. */
  function RowOf(headers: seq<string>, record: Record): RowMap
    decreases |headers|
  {
    if headers == [] then map[]
    else RowOf(headers[..|headers| - 1], record)[headers[|headers| - 1] := FieldAt(record, |headers| - 1)]
  }

  /** The data rows: one map per record after the first. */
  function DataRows(headers: seq<string>, records: seq<Record>): (r: seq<RowMap>)
    requires records != []
    ensures |r| == |records| - 1
  {
    seq(|records| - 1, i requires 0 <= i < |records| - 1 => RowOf(headers, records[i + 1]))
  }

  function HeadersOf(records: seq<Record>): seq<string>
  {
    if records == [] then [] else TrimAll(records[0])
  }

  // ---- imperative operations ----------------------------------------------

  /** The inner `for j` loop: one row map from one record. */
  method BuildRow(headers: seq<string>, record: Record) returns (row: RowMap)
    ensures row == RowOf(headers, record)
  {
    row := map[];
    var j := 0;
    while j < |headers|
      invariant 0 <= j <= |headers|
      invariant row == RowOf(headers[..j], record)
    {
      RowOfStep(headers, record, j);
      var value: string;
      if j < |record| {
        value := JavaTrim(record[j]);
      } else {
        value := "";
      }
      row := row[headers[j] := value];
      j := j + 1;
    }
    assert headers[..j] == headers;
  }

  lemma RowOfStep(headers: seq<string>, record: Record, j: nat)
    requires j < |headers|
    ensures RowOf(headers[..j + 1], record) == RowOf(headers[..j], record)[headers[j] := FieldAt(record, j)]
  {
    assert headers[..j + 1][..j] == headers[..j];
  }

  /** The header loop of both operations. */
  method ReadHeaders(headerRecord: Record) returns (headers: seq<string>)
    ensures headers == TrimAll(headerRecord)
  {
    headers := [];
    var j := 0;
    while j < |headerRecord|
      invariant 0 <= j <= |headerRecord|
      invariant |headers| == j
      invariant forall k :: 0 <= k < j ==> headers[k] == JavaTrim(headerRecord[k])
    {
      headers := headers + [JavaTrim(headerRecord[j])];
      j := j + 1;
    }
  }

  /** `parseCSVFile` after the parser has produced `records`. */
  method ParseCsvFile(records: seq<Record>) returns (r: ParsedFile)
    ensures r.headers == HeadersOf(records)
    ensures records == [] ==> r.data == []
    ensures records != [] ==> r.data == DataRows(r.headers, records)
  {
    if records == [] {
      return ParsedFile([], []);
    }
    var headers := ReadHeaders(records[0]);
    var data: seq<RowMap> := [];
    var i := 1;
    while i < |records|
      invariant 1 <= i <= |records|
      invariant |data| == i - 1
      invariant forall k :: 0 <= k < i - 1 ==> data[k] == RowOf(headers, records[k + 1])
    {
      var row := BuildRow(headers, records[i]);
      data := data + [row];
      i := i + 1;
    }
    r := ParsedFile(headers, data);
  }

  /** The batches `streamCSVFile` hands to the processor, in call order:
      full batches of `n` rows and a non-empty remainder. */
  function Chunks<T>(s: seq<T>, n: nat): (r: seq<seq<T>>)
    requires n > 0
    decreases |s|
  {
    if s == [] then []
    else if |s| <= n then [s]
    else [s[..n]] + Chunks(s[n..], n)
  }

  function Flatten<T>(parts: seq<seq<T>>): seq<T>
    decreases |parts|
  {
    if parts == [] then [] else parts[0] + Flatten(parts[1..])
  }

  /** `streamCSVFile` after the parser has produced `records`: the row count
      it returns and the batch contents the processor sees at each call. */
  method StreamCsvFile(records: seq<Record>) returns (rowCount: nat, batches: seq<seq<RowMap>>)
    ensures records == [] ==> rowCount == 0 && batches == []
    ensures records != [] ==> rowCount == |records| - 1
    ensures records != [] ==> batches == Chunks(DataRows(HeadersOf(records), records), BATCH_SIZE)
  {
    if records == [] {
      return 0, [];
    }
    var headers := ReadHeaders(records[0]);
    ghost var data := DataRows(headers, records);
    var batch: seq<RowMap> := [];
    batches := [];
    rowCount := 0;
    var i := 1;
    while i < |records|
      invariant 1 <= i <= |records|
      invariant rowCount == i - 1
      invariant |batch| < BATCH_SIZE
      invariant forall k :: 0 <= k < |batches| ==> |batches[k]| == BATCH_SIZE
      invariant Flatten(batches) + batch == data[..i - 1]
    {
      var row := BuildRow(headers, records[i]);
      assert data[..i] == data[..i - 1] + [row];
      batch := batch + [row];
      rowCount := rowCount + 1;
      if |batch| >= BATCH_SIZE {
        FlattenSnoc(batches, batch);
        batches := batches + [batch];
        batch := [];
      }
      i := i + 1;
    }
    assert data[..i - 1] == data;
    if batch != [] {
      FlattenSnoc(batches, batch);
      batches := batches + [batch];
    }
    ChunksUnique(batches, data, BATCH_SIZE);
  }

  // ---- properties ----------------------------------------------------------

  lemma {:induction false} FlattenSnoc<T>(parts: seq<seq<T>>, last: seq<T>)
    ensures Flatten(parts + [last]) == Flatten(parts) + last
    decreases |parts|
  {
    if parts == [] {
      assert parts + [last] == [last];
    } else {
      assert (parts + [last])[1..] == parts[1..] + [last];
      FlattenSnoc(parts[1..], last);
    }
  }

  /** Full batches followed by at most one shorter non-empty one are the
      chunking of what they hold. */
  lemma {:induction false} ChunksUnique<T>(parts: seq<seq<T>>, s: seq<T>, n: nat)
    requires n > 0
    requires Flatten(parts) == s
    requires forall k :: 0 <= k < |parts| ==> 0 < |parts[k]| <= n
    requires forall k :: 0 <= k < |parts| - 1 ==> |parts[k]| == n
    ensures parts == Chunks(s, n)
    decreases |parts|
  {
    if parts != [] {
      var rest := parts[1..];
      assert s == parts[0] + Flatten(rest);
      if rest == [] {
        assert s == parts[0];
      } else {
        assert |parts[0]| == n;
        assert s[..n] == parts[0] && s[n..] == Flatten(rest);
        assert Flatten(rest) != [] by { assert |Flatten(rest)| >= |rest[0]| by { assert Flatten(rest) == rest[0] + Flatten(rest[1..]); } }
        ChunksUnique(rest, s[n..], n);
      }
    }
  }

  /** The batches together are the rows, in order, with nothing lost or
      repeated; each is non-empty, at most `n` long, and all but the last
      are exactly `n` long. */
  lemma {:induction false} ChunksMeaning<T>(s: seq<T>, n: nat)
    requires n > 0
    ensures Flatten(Chunks(s, n)) == s
    ensures forall k :: 0 <= k < |Chunks(s, n)| ==> 0 < |Chunks(s, n)[k]| <= n
    ensures forall k :: 0 <= k < |Chunks(s, n)| - 1 ==> |Chunks(s, n)[k]| == n
    decreases |s|
  {
    if s != [] && |s| > n {
      ChunksMeaning(s[n..], n);
      var r := Chunks(s, n);
      assert r[1..] == Chunks(s[n..], n);
      assert s == s[..n] + s[n..];
    } else if s != [] {
      assert Flatten([s]) == s + Flatten([s][1..]);
      assert [s][1..] == [];
    }
  }

  /** There are ceil(|s| / n) batches: the fewest whose capacity holds s. */
  lemma {:induction false} ChunksCount<T>(s: seq<T>, n: nat)
    requires n > 0
    ensures var c := |Chunks(s, n)|; (c - 1) * n < |s| <= c * n
    ensures Chunks(s, n) == [] <==> s == []
    decreases |s|
  {
    if s != [] && |s| > n {
      ChunksCount(s[n..], n);
      var c' := |Chunks(s[n..], n)|;
      assert |Chunks(s, n)| == c' + 1;
      assert (c' + 1) * n == c' * n + n;
      assert c' * n == (c' - 1) * n + n;
    }
  }

  /** With the batch size of the service, ceil(n / 1000) batches. */
  lemma BatchCount<T>(s: seq<T>)
    ensures |Chunks(s, BATCH_SIZE)| == (|s| + BATCH_SIZE - 1) / BATCH_SIZE
  {
    ChunksCount(s, BATCH_SIZE);
  }

  /** The row's keys are exactly the headers. */
  lemma {:induction false} RowOfKeys(headers: seq<string>, record: Record, h: string)
    ensures h in RowOf(headers, record) <==> h in headers
    decreases |headers|
  {
    if headers != [] {
      var init := headers[..|headers| - 1];
      RowOfKeys(init, record, h);
      assert headers == init + [headers[|headers| - 1]];
    }
  }

  /** A header holds the field of its last position: for a header that does
      not occur again later, the trimmed field there, or "" past the end of a
      short record. */
  lemma {:induction false} RowOfValue(headers: seq<string>, record: Record, j: nat)
    requires j < |headers|
    requires forall k :: j < k < |headers| ==> headers[k] != headers[j]
    ensures headers[j] in RowOf(headers, record)
    ensures RowOf(headers, record)[headers[j]] == FieldAt(record, j)
    decreases |headers|
  {
    var last := |headers| - 1;
    if j < last {
      var init := headers[..last];
      assert init[j] == headers[j];
      RowOfValue(init, record, j);
      assert headers[last] != headers[j];
    }
  }

  /** With distinct headers, the row maps each header to its own field,
      and fields past the header count are ignored. */
  lemma DistinctHeadersRow(headers: seq<string>, record: Record, j: nat)
    requires forall a, b :: 0 <= a < b < |headers| ==> headers[a] != headers[b]
    requires j < |headers|
    ensures headers[j] in RowOf(headers, record)
    ensures RowOf(headers, record)[headers[j]] == (if j < |record| then JavaTrim(record[j]) else "")
  {
    RowOfValue(headers, record, j);
  }

  /** A duplicated header holds the later field. */
  lemma DuplicateHeaderLaterWins(a: string, x: string, y: string)
    ensures RowOf([a, a], [x, y]) == map[a := JavaTrim(y)]
  {
    assert FieldAt([x, y], 1) == JavaTrim(y);
    assert [a, a][..1] == [a];
    assert [a][..0] == [];
    assert RowOf([a], [x, y]) == map[a := FieldAt([x, y], 0)];
    assert RowOf([a, a], [x, y]) == RowOf([a], [x, y])[a := FieldAt([x, y], 1)];
  }
}
