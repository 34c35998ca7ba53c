/** The wrangler side's flat-file service: header columns and row counts of
    an uploaded file, and writing and reading a file line by line. File
    contents are text; `BufferedReader.readLine` is modelled on it, and the
    file system is a map from path to contents. */
module WranglerFlatFile {
  import opened Wrappers
  import opened Text

  /** The characters `readLine` ends a line at. */
  predicate IsLineBreak(c: char) { c == '\n' || c == '\r' }

  predicate NoLineBreak(s: string) { forall i :: 0 <= i < |s| ==> !IsLineBreak(s[i]) }

  /** The position of the first line break, or `|s|`. */
  function BreakIndex(s: string): (i: nat)
    ensures i <= |s|
    ensures NoLineBreak(s[..i])
    ensures i < |s| ==> IsLineBreak(s[i])
    decreases |s|
  {
    if s == [] || IsLineBreak(s[0]) then 0
    else
      var j := BreakIndex(s[1..]);
      assert s[..1 + j] == [s[0]] + s[1..][..j];
      1 + j
  }

  /** One `readLine` on the unread text `s`: nothing at the end of input,
      otherwise the line and what is left after its terminator ("\n", "\r"
      or "\r\n"). */
  function NextLine(s: string): (r: Option<(string, string)>)
    ensures r.None? <==> s == []
    ensures r.Some? ==> |r.value.1| < |s|
  {
    if s == [] then None
    else
      var i := BreakIndex(s);
      if i == |s| then Some((s, []))
      else if s[i] == '\r' && i + 1 < |s| && s[i + 1] == '\n' then Some((s[..i], s[i + 2..]))
      else Some((s[..i], s[i + 1..]))
  }

  /** The lines `readLine` returns one after another until it returns null. */
  function Lines(s: string): seq<string>
    decreases |s|
  {
    match NextLine(s)
    case None => []
    case Some(p) => [p.0] + Lines(p.1)
  }

  /** A `BufferedReader` over text: the part not yet read. */
  class LineReader {
    var rest: string

    constructor (text: string)
      ensures rest == text
    {
      rest := text;
    }

    method ReadLine() returns (line: Option<string>)
      modifies this
      ensures NextLine(old(rest)).None? ==> line.None? && rest == old(rest)
      ensures NextLine(old(rest)).Some? ==> line == Some(NextLine(old(rest)).value.0) && rest == NextLine(old(rest)).value.1
    {
      var next := NextLine(rest);
      if next.None? {
        return None;
      }
      line := Some(next.value.0);
      rest := next.value.1;
    }
  }

  /** `getColumns`: the first line split at the delimiter, read as a
      literal string, each piece trimmed; no first line, no columns. */
  method GetColumns(content: string, delimiter: string) returns (columns: seq<string>)
    ensures NextLine(content).None? ==> columns == []
    ensures NextLine(content).Some? ==> columns == TrimAll(JavaSplit(NextLine(content).value.0, delimiter))
  {
    columns := [];
    var reader := new LineReader(content);
    var headerLine := reader.ReadLine();
    if headerLine.Some? {
      var headers := JavaSplit(headerLine.value, delimiter);
      var k := 0;
      while k < |headers|
        invariant 0 <= k <= |headers|
        invariant |columns| == k && forall j :: 0 <= j < k ==> columns[j] == JavaTrim(headers[j])
      {
        columns := columns + [JavaTrim(headers[k])];
        k := k + 1;
      }
    }
  }

  /** `getRowCount`: the lines after the first. */
  method GetRowCount(content: string, delimiter: string) returns (count: nat)
    ensures count == if Lines(content) == [] then 0 else |Lines(content)| - 1
  {
    count := 0;
    var reader := new LineReader(content);
    var header := reader.ReadLine();
    var line := reader.ReadLine();
    while line.Some?
      invariant count + (if line.Some? then 1 else 0) + |Lines(reader.rest)| ==
                (if Lines(content) == [] then 0 else |Lines(content)| - 1)
      invariant line.None? ==> reader.rest == []
      decreases |reader.rest| + (if line.Some? then 1 else 0)
    {
      count := count + 1;
      line := reader.ReadLine();
    }
  }

  /** The text `writeToFile` produces: each element followed by the
      platform's line separator. */
  function Serialize(data: seq<string>, separator: string): string
  {
    if data == [] then [] else data[0] + separator + Serialize(data[1..], separator)
  }

  /** `System.lineSeparator()` on the platforms the service runs on. */
  predicate IsLineSeparator(s: string) { s == "\n" || s == "\r\n" }

  class FileSystem {
    const lineSeparator: string
    var files: map<string, string>

    constructor (separator: string)
      requires IsLineSeparator(separator)
      ensures lineSeparator == separator && files == map[]
    {
      lineSeparator := separator;
      files := map[];
    }

    /** `writeToFile`: the file is replaced by the lines; the delimiter is
        not used. */
    method WriteToFile(data: seq<string>, filePath: string, delimiter: string)
      modifies this
      ensures files == old(files)[filePath := Serialize(data, lineSeparator)]
    {
      var text := "";
      var k := 0;
      while k < |data|
        invariant 0 <= k <= |data|
        invariant text + Serialize(data[k..], lineSeparator) == Serialize(data, lineSeparator)
      {
        assert data[k..][1..] == data[k + 1..];
        assert Serialize(data[k..], lineSeparator) == data[k] + lineSeparator + Serialize(data[k + 1..], lineSeparator);
        text := text + data[k] + lineSeparator;
        k := k + 1;
      }
      assert data[k..] == [];
      assert Serialize([], lineSeparator) == [];
      assert text == Serialize(data, lineSeparator);
      files := files[filePath := text];
    }

    /** `readFromFile`: every line of the file, in order; a missing file is
        an error. The delimiter is not used. */
    method ReadFromFile(filePath: string, delimiter: string) returns (r: Option<seq<string>>)
      ensures filePath !in files ==> r.None?
      ensures filePath in files ==> r == Some(Lines(files[filePath]))
    {
      if filePath !in files {
        return None;
      }
      var data := [];
      var reader := new LineReader(files[filePath]);
      var line := reader.ReadLine();
      while line.Some?
        invariant line.None? ==> reader.rest == []
        invariant data + (if line.Some? then [line.value] else []) + Lines(reader.rest) == Lines(files[filePath])
        decreases |reader.rest| + (if line.Some? then 1 else 0)
      {
        data := data + [line.value];
        line := reader.ReadLine();
      }
      assert Lines(reader.rest) == [];
      assert data == Lines(files[filePath]);
      r := Some(data);
    }
  }

  // ---- properties ----------------------------------------------------------------

  /** A line is never longer than the text and never holds a line break;
      the text is the line, its terminator and the rest. */
  lemma NextLineShape(s: string)
    requires s != []
    ensures var (line, rest) := NextLine(s).value;
      NoLineBreak(line) &&
      exists t :: (t == "" || t == "\n" || t == "\r" || t == "\r\n") && s == line + t + rest
  {
    var i := BreakIndex(s);
    var (line, rest) := NextLine(s).value;
    if i == |s| {
      assert s == line + "" + rest;
    } else if s[i] == '\r' && i + 1 < |s| && s[i + 1] == '\n' {
      assert s == line + "\r\n" + rest;
    } else {
      assert s == line + [s[i]] + rest;
    }
  }

  lemma {:induction false} BreakAfter(line: string, rest: string)
    requires NoLineBreak(line) && rest != [] && IsLineBreak(rest[0])
    ensures BreakIndex(line + rest) == |line|
    decreases |line|
  {
    if line != [] {
      assert (line + rest)[1..] == line[1..] + rest;
      BreakAfter(line[1..], rest);
    }
  }

  /** One written line reads back as itself. */
  lemma NextLineOfWritten(line: string, separator: string, rest: string)
    requires NoLineBreak(line) && IsLineSeparator(separator)
    ensures NextLine(line + separator + rest) == Some((line, rest))
  {
    var s := line + separator + rest;
    assert s == line + (separator + rest);
    BreakAfter(line, separator + rest);
    assert s[..|line|] == line;
    if separator == "\n" {
      assert s[|line| + 1..] == rest;
    } else {
      assert s[|line|] == '\r' && s[|line| + 1] == '\n';
      assert s[|line| + 2..] == rest;
    }
  }

  /** `readFromFile` after `writeToFile(data)` gives `data` back when no
      element holds a line break. */
  lemma {:induction false} ReadBackWritten(data: seq<string>, separator: string)
    requires IsLineSeparator(separator)
    requires forall k :: 0 <= k < |data| ==> NoLineBreak(data[k])
    ensures Lines(Serialize(data, separator)) == data
    decreases |data|
  {
    if data != [] {
      NextLineOfWritten(data[0], separator, Serialize(data[1..], separator));
      ReadBackWritten(data[1..], separator);
    }
  }

  /** An element with a line break in it reads back as two lines. */
  lemma LineBreakSplitsElement()
    ensures Lines(Serialize(["a\nb"], "\n")) == ["a", "b"]
  {
    assert Serialize(["a\nb"], "\n") == "a\nb\n";
    NextLineOfWritten("a", "\n", "b\n");
    assert "a\nb\n" == "a" + "\n" + "b\n";
    NextLineOfWritten("b", "\n", "");
    assert "b\n" == "b" + "\n" + "";
  }

  /** A header line of trimmed, non-empty column names without the
      delimiter gives those names back as the columns. */
  lemma ColumnsOfHeader(names: seq<string>, d: char, separator: string, body: string)
    requires |names| >= 1 && IsLineSeparator(separator) && !IsLineBreak(d)
    requires forall k :: 0 <= k < |names| ==> names[k] != "" && JavaTrim(names[k]) == names[k]
    requires forall k :: 0 <= k < |names| ==> d !in names[k] && NoLineBreak(names[k])
    ensures NextLine(Join(names, [d]) + separator + body).Some?
    ensures TrimAll(JavaSplit(NextLine(Join(names, [d]) + separator + body).value.0, [d])) == names
  {
    var header := Join(names, [d]);
    JoinNoBreak(names, d);
    NextLineOfWritten(header, separator, body);
    SplitHeader(names, d);
    TrimmedStay(names);
  }

  lemma TrimmedStay(names: seq<string>)
    requires forall k :: 0 <= k < |names| ==> JavaTrim(names[k]) == names[k]
    ensures TrimAll(names) == names
  {
  }

  /** Splitting a joined header at its delimiter gives the names back, as
      long as none is empty (Java drops trailing empty pieces). */
  lemma SplitHeader(names: seq<string>, d: char)
    requires |names| >= 1
    requires forall k :: 0 <= k < |names| ==> names[k] != "" && d !in names[k]
    ensures JavaSplit(Join(names, [d]), [d]) == names
  {
    SplitOnChar(Join(names, [d]), d);
    SplitJoin(names, d);
  }

  lemma {:induction false} JoinNoBreak(parts: seq<string>, d: char)
    requires !IsLineBreak(d) && forall k :: 0 <= k < |parts| ==> NoLineBreak(parts[k])
    ensures NoLineBreak(Join(parts, [d]))
    decreases |parts|
  {
    if |parts| >= 2 {
      JoinNoBreak(parts[1..], d);
      var j := Join(parts[1..], [d]);
      assert Join(parts, [d]) == parts[0] + [d] + j;
      forall i | 0 <= i < |parts[0] + [d] + j| ensures !IsLineBreak((parts[0] + [d] + j)[i]) {
        if i < |parts[0]| { } else if i == |parts[0]| { } else { assert (parts[0] + [d] + j)[i] == j[i - |parts[0]| - 1]; }
      }
    }
  }

  /** The row count is the number of lines after the header: two data
      lines and a final line break give 2. */
  lemma RowCountExample()
    ensures Lines("h\n1\n2\n") == ["h", "1", "2"]
  {
    ReadBackWritten(["h", "1", "2"], "\n");
    assert Serialize(["2"], "\n") == "2\n";
    assert Serialize(["1", "2"], "\n") == "1\n2\n";
    assert Serialize(["h", "1", "2"], "\n") == "h\n1\n2\n";
  }

  /** Empty text has no header line, so no columns and no rows. */
  lemma EmptyFile()
    ensures NextLine("").None? && Lines("") == []
  {
  }
}
