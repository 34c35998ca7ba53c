/** The front end's shared helpers (`utils/helpers.js`): the status-to-colour
    mapping of the status chips and the CSV text the export button
    downloads. */
module Helpers {
  import opened Wrappers
  import opened Text
  import opened Js

  // ---- getStatusColor -------------------------------------------------------

  /** The chip colour of a job status, compared without regard to case; a
      missing status and an unknown one get the default colour. */
  function GetStatusColor(status: Option<string>): (r: string)
    ensures r in {"success", "error", "info", "warning", "default"}
    ensures r == "success" <==> status.Some? && Lower(status.value) in {"success", "completed"}
    ensures r == "error" <==> status.Some? && Lower(status.value) in {"failed", "error"}
    ensures r == "info" <==> status.Some? && Lower(status.value) in {"running", "in_progress"}
    ensures r == "warning" <==> status.Some? && Lower(status.value) == "pending"
  {
    if status.None? then "default"
    else
      var s := Lower(status.value);
      if s == "success" || s == "completed" then "success"
      else if s == "failed" || s == "error" then "error"
      else if s == "running" || s == "in_progress" then "info"
      else if s == "pending" then "warning"
      else "default"
  }

  lemma LowerOfUpper(s: string)
    ensures Lower(Upper(s)) == Lower(s)
  {
    assert forall i :: 0 <= i < |s| ==> Lower(Upper(s))[i] == Lower(s)[i];
  }

  /** The mapping sees only the letters, not their case: a status written in
      capitals, in lower case or as received gets the same colour. */
  lemma StatusColorIgnoresCase(s: string)
    ensures GetStatusColor(Some(Upper(s))) == GetStatusColor(Some(s))
    ensures GetStatusColor(Some(Lower(s))) == GetStatusColor(Some(s))
  {
    LowerOfUpper(s);
    LowerIdempotent(s);
  }

  lemma StatusColorExamples()
    ensures GetStatusColor(Some("COMPLETED")) == "success"
    ensures GetStatusColor(Some("In_Progress")) == "info"
    ensures GetStatusColor(Some("cancelled")) == "default"
    ensures GetStatusColor(None) == "default"
  {
    assert Lower("COMPLETED") == "completed";
    assert Lower("In_Progress") == "in_progress";
    assert Lower("cancelled") == "cancelled";
  }

  // ---- generateCSV ----------------------------------------------------------

  /** A data row: a header that is not a key reads as `undefined`. */
  type CsvRow = map<string, JsValue>

  /** The value written for `header`: the row's value, or the empty string
      when it is `undefined`. */
  function CellValue(row: CsvRow, header: string): (v: JsValue)
    ensures v.JUndefined? == false
    ensures header in row && !row[header].JUndefined? ==> v == row[header]
    ensures header !in row ==> v == JStr("")
  {
    if header in row && !row[header].JUndefined? then row[header] else JStr("")
  }

  /** A string cell is quoted when it holds a comma or a double quote. */
  predicate NeedsQuotes(s: string) { ',' in s || '"' in s }

  /** Wraps `s` in double quotes, doubling each double quote inside. */
  function Quote(s: string): (r: string)
    ensures |r| >= 2 && r[0] == '"' && r[|r| - 1] == '"'
  {
    "\"" + ReplaceChar(s, '"', "\"\"") + "\""
  }

  /** The cell as written: strings needing it are quoted; every other value
      (numbers, booleans, `null`, arrays) is passed to `join` unchanged. */
  function EscapeCell(v: JsValue): (r: JsValue)
    ensures v.JStr? && NeedsQuotes(v.s) ==> r == JStr(Quote(v.s))
    ensures !(v.JStr? && NeedsQuotes(v.s)) ==> r == v
  {
    if v.JStr? && NeedsQuotes(v.s) then JStr(Quote(v.s)) else v
  }

  /** The cells of one row, one per header and in header order. */
  function RowCells(row: CsvRow, headers: seq<string>): (r: seq<JsValue>)
    ensures |r| == |headers|
    ensures forall i :: 0 <= i < |r| ==> r[i] == EscapeCell(CellValue(row, headers[i]))
  {
    seq(|headers|, i requires 0 <= i < |headers| => EscapeCell(CellValue(row, headers[i])))
  }

  function RowLine(row: CsvRow, headers: seq<string>): string
  {
    JoinValues(RowCells(row, headers), ",")
  }

  function RowLines(headers: seq<string>, rows: seq<CsvRow>): (r: seq<string>)
    ensures |r| == |rows|
    ensures forall k :: 0 <= k < |rows| ==> r[k] == RowLine(rows[k], headers)
  {
    seq(|rows|, k requires 0 <= k < |rows| => RowLine(rows[k], headers))
  }

  /** The CSV text: the header line, then one line per row, separated by
      line feeds; nothing at all without headers or without rows. */
  function GenerateCSV(headers: Option<seq<string>>, rows: Option<seq<CsvRow>>): (r: string)
    ensures headers.None? || rows.None? || |rows.value| == 0 ==> r == ""
    ensures headers.Some? && rows.Some? && |rows.value| > 0 ==>
      StartsWith(r, Join(headers.value, ","))
  {
    if headers.None? || rows.None? || |rows.value| == 0 then ""
    else
      var lines := [Join(headers.value, ",")] + RowLines(headers.value, rows.value);
      JoinStartsWithFirst(lines, "\n");
      Join(lines, "\n")
  }

  lemma JoinStartsWithFirst(parts: seq<string>, sep: string)
    requires |parts| >= 1
    ensures StartsWith(Join(parts, sep), parts[0])
  {
    if |parts| > 1 {
      assert Join(parts, sep) == parts[0] + (sep + Join(parts[1..], sep));
    }
  }

  // ---- the quoting is reversible ------------------------------------------

  /** Reads a doubled double quote back as one double quote. */
  function CollapseQuotes(s: string): string
    decreases |s|
  {
    if |s| >= 2 && s[0] == '"' && s[1] == '"' then "\"" + CollapseQuotes(s[2..])
    else if s == [] then ""
    else [s[0]] + CollapseQuotes(s[1..])
  }

  /** The value of a quoted cell: the text between the outer quotes with the
      doubled quotes collapsed. */
  function Unquote(q: string): string
    requires |q| >= 2
  {
    CollapseQuotes(q[1..|q| - 1])
  }

  lemma {:induction false} CollapseDoubled(s: string)
    ensures CollapseQuotes(ReplaceChar(s, '"', "\"\"")) == s
    decreases |s|
  {
    if s != [] {
      var rest := ReplaceChar(s[1..], '"', "\"\"");
      CollapseDoubled(s[1..]);
      if s[0] == '"' {
        assert ReplaceChar(s, '"', "\"\"") == "\"\"" + rest;
        assert ("\"\"" + rest)[2..] == rest;
      } else {
        assert ReplaceChar(s, '"', "\"\"") == [s[0]] + rest;
        assert ([s[0]] + rest)[1..] == rest;
      }
    }
  }

  /** Quoting loses nothing: the value of a quoted cell is the original
      string, commas and double quotes included. */
  lemma QuoteRoundTrip(s: string)
    ensures Unquote(Quote(s)) == s
  {
    var q := Quote(s);
    assert q[1..|q| - 1] == ReplaceChar(s, '"', "\"\"");
    CollapseDoubled(s);
  }

  /** What a reader of the CSV gets back for a string cell: a quoted cell
      unquotes to the original text; an unquoted one is the text itself and
      holds no comma or double quote. */
  lemma EscapeCellReadsBack(s: string)
    ensures var r := EscapeCell(JStr(s));
      r.JStr? &&
      (NeedsQuotes(s) ==> |r.s| >= 2 && Unquote(r.s) == s) &&
      (!NeedsQuotes(s) ==> r.s == s && ',' !in r.s && '"' !in r.s)
  {
    if NeedsQuotes(s) {
      QuoteRoundTrip(s);
    }
  }

  lemma QuotingExamples()
    ensures EscapeCell(JStr("a,b")) == JStr("\"a,b\"")
    ensures EscapeCell(JStr("plain")) == JStr("plain")
    ensures EscapeCell(JNum(5)) == JNum(5)
  {
    assert ReplaceChar("a,b", '"', "\"\"") == "a,b";
  }

  /** Only strings are quoted: an array whose elements hold a comma is joined
      into the line as it prints, so its comma separates cells. */
  lemma ArrayCellNotQuoted()
    ensures RowLine(map["x" := JArr([JNum(1), JNum(2)])], ["x"]) == "1,2"
  {
    var cells := RowCells(map["x" := JArr([JNum(1), JNum(2)])], ["x"]);
    assert cells == [JArr([JNum(1), JNum(2)])];
    assert JoinValues([JNum(2)], ",") == "2";
    assert JoinValues([JNum(1), JNum(2)], ",") == "1" + "," + "2";
  }

  // ---- lines and fields -----------------------------------------------------

  /** The text `join` writes for one value. */
  function Printed(v: JsValue): string
  {
    if v.JUndefined? || v.JNull? then "" else ToStr(v)
  }

  /** `Array.prototype.join` is `String.join` of the printed values. */
  lemma {:induction false} JoinValuesAsJoin(elems: seq<JsValue>, sep: string)
    ensures JoinValues(elems, sep) == Join(seq(|elems|, i requires 0 <= i < |elems| => Printed(elems[i])), sep)
    decreases |elems|
  {
    if |elems| > 1 {
      JoinValuesAsJoin(elems[1..], sep);
      var all := seq(|elems|, i requires 0 <= i < |elems| => Printed(elems[i]));
      assert all[1..] == seq(|elems[1..]|, i requires 0 <= i < |elems[1..]| => Printed(elems[1..][i]));
    }
  }

  lemma {:induction false} JoinFreeOf(parts: seq<string>, sep: string, c: char)
    requires c !in sep
    requires forall i :: 0 <= i < |parts| ==> c !in parts[i]
    ensures c !in Join(parts, sep)
    decreases |parts|
  {
    if |parts| > 1 { JoinFreeOf(parts[1..], sep, c); }
  }

  /** No value printing with a line feed: the cells of a row, quoted or not,
      print without one. */
  predicate NoLineFeeds(headers: seq<string>, rows: seq<CsvRow>)
  {
    (forall i :: 0 <= i < |headers| ==> '\n' !in headers[i]) &&
    (forall k, h :: 0 <= k < |rows| && h in rows[k] ==> '\n' !in ToStr(rows[k][h]))
  }

  lemma RowLineFreeOfLineFeed(row: CsvRow, headers: seq<string>)
    requires forall h :: h in row ==> '\n' !in ToStr(row[h])
    ensures '\n' !in RowLine(row, headers)
  {
    var cells := RowCells(row, headers);
    var printed := seq(|cells|, i requires 0 <= i < |cells| => Printed(cells[i]));
    forall i | 0 <= i < |cells|
      ensures '\n' !in printed[i]
    {
      var v := CellValue(row, headers[i]);
      if v.JStr? && NeedsQuotes(v.s) {
        ReplaceCharKeeps(v.s, '"', "\"\"", '\n');
        assert Quote(v.s) == "\"" + ReplaceChar(v.s, '"', "\"\"") + "\"";
      }
    }
    JoinValuesAsJoin(cells, ",");
    JoinFreeOf(printed, ",", '\n');
  }

  /** With no line feed in the data, the CSV text splits back into the header
      line followed by exactly one line per row. */
  lemma CsvLines(headers: seq<string>, rows: seq<CsvRow>)
    requires |rows| > 0 && NoLineFeeds(headers, rows)
    ensures var lines := SplitAll(GenerateCSV(Some(headers), Some(rows)), '\n');
      |lines| == |rows| + 1 && lines[0] == Join(headers, ",") &&
      forall k :: 0 <= k < |rows| ==> lines[k + 1] == RowLine(rows[k], headers)
  {
    var lines := [Join(headers, ",")] + RowLines(headers, rows);
    JoinFreeOf(headers, ",", '\n');
    forall k | 0 <= k < |rows|
      ensures '\n' !in RowLine(rows[k], headers)
    {
      RowLineFreeOfLineFeed(rows[k], headers);
    }
    assert forall i :: 0 <= i < |lines| ==> '\n' !in lines[i] by {
      forall i | 0 <= i < |lines| ensures '\n' !in lines[i] {
        if i > 0 { assert lines[i] == RowLine(rows[i - 1], headers); }
      }
    }
    SplitJoin(lines, '\n');
  }

  /** With no comma in any printed value, a row line splits back into exactly
      one field per header, each the printed value under that header. */
  lemma RowFields(row: CsvRow, headers: seq<string>)
    requires |headers| >= 1
    requires forall h :: h in row ==> ',' !in ToStr(row[h]) && '"' !in ToStr(row[h])
    ensures var fields := SplitAll(RowLine(row, headers), ',');
      |fields| == |headers| &&
      forall i :: 0 <= i < |headers| ==> fields[i] == Printed(CellValue(row, headers[i]))
  {
    var cells := RowCells(row, headers);
    var printed := seq(|cells|, i requires 0 <= i < |cells| => Printed(cells[i]));
    forall i | 0 <= i < |cells|
      ensures printed[i] == Printed(CellValue(row, headers[i])) && ',' !in printed[i]
    {
      var v := CellValue(row, headers[i]);
      if v.JStr? {
        assert v.s == ToStr(v);
      }
    }
    JoinValuesAsJoin(cells, ",");
    SplitJoin(printed, ',');
  }
}
