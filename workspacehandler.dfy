/** The helpers of the version-2 workspace handler: the null checker that
    filters sample rows by the per-column null actions, workspace naming,
    pragma stripping and the `copyHeader` rewrite of source plugins. */
module WorkspaceHandler {
  import opened Wrappers
  import opened Text
  import opened Seqs
  import opened Rows
  import opened Workspaces

  // ---- nullChecker ---------------------------------------------------------

  /** A column mapping in the order its `HashMap` enumerates it; the keys are
      distinct, as in any map. */
  type Entries = seq<(string, UserDefinedAction)>

  predicate IsNull(row: Row, column: string) { GetValue(row, column) == Null }

  /** A null in this column drops the row. */
  predicate Drops(row: Row, e: (string, UserDefinedAction))
  {
    IsNull(row, e.0) && (e.1 == SKIP_ROW || e.1 == SEND_TO_ERROR_COLLECTOR)
  }

  /** A null in this column aborts the whole check. */
  predicate Fatal(row: Row, e: (string, UserDefinedAction))
  {
    IsNull(row, e.0) && e.1 == ERROR_PIPELINE
  }

  /** The row survives: no mapped column is null with a dropping action
      (nulls in NULLABLE and NO_ACTION columns are tolerated). */
  predicate Keeps(entries: Entries, row: Row)
  {
    forall j :: 0 <= j < |entries| ==> !Drops(row, entries[j])
  }

  predicate HasFatalNull(entries: Entries, row: Row)
  {
    exists j :: 0 <= j < |entries| && Fatal(row, entries[j])
  }

  function NullMessage(column: string): string
  {
    "found null value in non nullable column " + column
  }

  /** The rows the checker keeps. */
  function Kept(sample: seq<Row>, entries: Entries): seq<Row>
  {
    Filter(sample, row => Keeps(entries, row))
  }

  /** One row of `nullChecker`'s outer loop: the `elsecounts` /
      `nullPresentinRow` counting, ending in the keep decision, or the
      exception for the first ERROR_PIPELINE column, in entry order, whose
      value is null. */
  method CheckRow(row: Row, entries: Entries) returns (r: Result<bool>)
    ensures r.Err? <==> HasFatalNull(entries, row)
    ensures r.Err? ==> exists j :: 0 <= j < |entries| && Fatal(row, entries[j]) && r.error == NullMessage(entries[j].0)
                                 && forall k :: 0 <= k < j ==> !Fatal(row, entries[k])
    ensures r.Ok? ==> r.value == Keeps(entries, row)
  {
    var elsecounts := 0;
    var nullPresent := false;
    var j := 0;
    while j < |entries|
      invariant 0 <= j <= |entries|
      invariant 0 <= elsecounts <= j
      invariant elsecounts == j <==> forall k :: 0 <= k < j ==> !Drops(row, entries[k])
      invariant nullPresent <==> exists k :: 0 <= k < j && IsNull(row, entries[k].0)
      invariant forall k :: 0 <= k < j ==> !Fatal(row, entries[k])
    {
      var (column, action) := entries[j];
      if GetValue(row, column) == Null {
        nullPresent := true;
        match action {
          case SKIP_ROW =>
          case NULLABLE => elsecounts := elsecounts + 1;
          case NO_ACTION => elsecounts := elsecounts + 1;
          case ERROR_PIPELINE =>
            return Err(NullMessage(column));
          case SEND_TO_ERROR_COLLECTOR =>
        }
      } else {
        elsecounts := elsecounts + 1;
      }
      j := j + 1;
    }
    if nullPresent {
      r := Ok(elsecounts == |entries|);
    } else {
      r := Ok(true);
    }
  }

  /** `nullChecker(sample, columnMappings)`: the kept rows in order, or the
      exception raised by the first ERROR_PIPELINE null met: in the first
      row that has one, at its first such entry. Whether it fails
      does not depend on the enumeration order of the mapping. */
  method NullChecker(sample: seq<Row>, entries: Entries) returns (r: Result<seq<Row>>)
    ensures r.Err? <==> exists i :: 0 <= i < |sample| && HasFatalNull(entries, sample[i])
    ensures r.Err? ==> (exists i, j :: 0 <= i < |sample| && 0 <= j < |entries|
                         && Fatal(sample[i], entries[j]) && r.error == NullMessage(entries[j].0)
                         && (forall k :: 0 <= k < i ==> !HasFatalNull(entries, sample[k]))
                         && (forall k :: 0 <= k < j ==> !Fatal(sample[i], entries[k])))
    ensures r.Ok? ==> r.value == Kept(sample, entries)
  {
    var result: seq<Row> := [];
    var i := 0;
    while i < |sample|
      invariant 0 <= i <= |sample|
      invariant forall k :: 0 <= k < i ==> !HasFatalNull(entries, sample[k])
      invariant result == Kept(sample[..i], entries)
    {
      var row := sample[i];
      var keep := CheckRow(row, entries);
      if keep.Err? {
        return Err(keep.error);
      }
      assert sample[..i + 1][..i] == sample[..i];
      if keep.value {
        result := result + [row];
      }
      i := i + 1;
    }
    assert sample[..i] == sample;
    r := Ok(result);
  }

  /** The kept rows are the sample's rows that keep, in sample order; rows
      with no null in a mapped column are among them. */
  lemma KeptMeaning(sample: seq<Row>, entries: Entries, row: Row)
    ensures row in Kept(sample, entries) <==> row in sample && Keeps(entries, row)
    ensures row in sample && (forall j :: 0 <= j < |entries| ==> !IsNull(row, entries[j].0)) ==>
      row in Kept(sample, entries)
    ensures |Kept(sample, entries)| <= |sample|
  {
    FilterMembers(sample, row => Keeps(entries, row), row);
  }

  /** Splitting the sample splits the result: order is preserved. */
  lemma KeptAppend(a: seq<Row>, b: seq<Row>, entries: Entries)
    ensures Kept(a + b, entries) == Kept(a, entries) + Kept(b, entries)
  {
    FilterAppend(a, b, row => Keeps(entries, row));
  }

  /** The result does not depend on the order in which the map is
      enumerated: two enumerations of the same entries keep the same rows and
      fail on the same samples. */
  lemma OrderIndependent(sample: seq<Row>, e1: Entries, e2: Entries)
    requires forall e :: e in e1 <==> e in e2
    ensures Kept(sample, e1) == Kept(sample, e2)
    ensures forall row :: HasFatalNull(e1, row) <==> HasFatalNull(e2, row)
  {
    forall row
      ensures Keeps(e1, row) == Keeps(e2, row)
      ensures HasFatalNull(e1, row) <==> HasFatalNull(e2, row)
    {
      SameEntries(e1, e2, row);
      SameEntries(e2, e1, row);
    }
    FilterCongruent(sample, row => Keeps(e1, row), row => Keeps(e2, row));
  }

  lemma SameEntries(e1: Entries, e2: Entries, row: Row)
    requires forall e :: e in e1 ==> e in e2
    ensures Keeps(e2, row) ==> Keeps(e1, row)
    ensures HasFatalNull(e1, row) ==> HasFatalNull(e2, row)
  {
    if Keeps(e2, row) {
      forall j | 0 <= j < |e1| ensures !Drops(row, e1[j]) {
        assert e1[j] in e2;
        var k :| 0 <= k < |e2| && e2[k] == e1[j];
      }
    }
    if HasFatalNull(e1, row) {
      var j :| 0 <= j < |e1| && Fatal(row, e1[j]);
      assert e1[j] in e2;
      var k :| 0 <= k < |e2| && e2[k] == e1[j];
      assert Fatal(row, e2[k]);
    }
  }

  // ---- generateWorkspaceName ----------------------------------------------

  /** Line terminators of `java.util.regex` outside UNIX_LINES mode. */
  predicate IsLineTerminator(c: char)
  {
    c == '\n' || c == '\r' || c == '\U{0085}' || c == '\U{2028}' || c == '\U{2029}'
  }

  /** The length of the final line terminator that a non-multiline `$` may
      stand before: "\r\n", or a single terminator that is not the '\n' of a
      "\r\n"; 0 when there is none. */
  function FinalTerminator(s: string): (t: nat)
    ensures t <= 2 && t <= |s|
    ensures t > 0 ==> IsLineTerminator(s[|s| - 1])
  {
    if |s| >= 2 && s[|s| - 2..] == "\r\n" then 2
    else if |s| >= 1 && IsLineTerminator(s[|s| - 1]) && !(s[|s| - 1] == '\n' && |s| >= 2 && s[|s| - 2] == '\r') then 1
    else 0
  }

  predicate IsSlash(c: char) { c == '/' }

  /** `path.replaceAll("/+$", "")`: removes the run of '/' that ends where
      `$` matches, that is at the very end or just before a final line
      terminator, which itself stays. */
  function StripTrailingSlashes(path: string): (r: string)
  {
    var t := FinalTerminator(path);
    DropEnd(path[..|path| - t], IsSlash) + path[|path| - t..]
  }

  /** `String.lastIndexOf(c)`, -1 when absent. */
  function LastIndexOf(s: string, c: char): (i: int)
    ensures -1 <= i < |s|
    ensures i >= 0 ==> s[i] == c
    ensures forall k :: i < k < |s| ==> s[k] != c
    decreases |s|
  {
    if s == [] then -1 else if s[|s| - 1] == c then |s| - 1 else LastIndexOf(s[..|s| - 1], c)
  }

  /** `generateWorkspaceName(id, path)`. */
  function GenerateWorkspaceName(workspaceId: string, path: Option<string>): (r: string)
  {
    if NullOrEmpty(path) then workspaceId
    else
      var p := StripTrailingSlashes(path.value);
      var last := LastIndexOf(p, '/');
      if last >= 0 then p[last + 1..]
      else if p == [] then workspaceId else p
  }

  /** After stripping, the path never ends in '/'. */
  lemma StrippedNotSlash(path: string)
    ensures var p := StripTrailingSlashes(path); p == [] || p[|p| - 1] != '/'
  {
    var t := FinalTerminator(path);
    var body := DropEnd(path[..|path| - t], IsSlash);
    DropEndShape(path[..|path| - t], IsSlash);
    var tail := path[|path| - t..];
    assert StripTrailingSlashes(path) == body + tail;
    if t > 0 {
      assert (body + tail)[|body + tail| - 1] == tail[|tail| - 1] == path[|path| - 1];
    } else {
      assert tail == [];
      assert body + tail == body;
    }
  }

  /** The name is the workspace id, or a '/'-free non-empty tail of the
      stripped path. So it holds a '/' only when it is the id, and it is
      empty only when the id is. */
  lemma NameShape(workspaceId: string, path: Option<string>)
    ensures var r := GenerateWorkspaceName(workspaceId, path);
      (r == workspaceId || ('/' !in r && r != []))
    ensures var r := GenerateWorkspaceName(workspaceId, path);
      ('/' in r ==> r == workspaceId) && (workspaceId != [] ==> r != [])
    ensures NullOrEmpty(path) ==> GenerateWorkspaceName(workspaceId, path) == workspaceId
  {
    if !NullOrEmpty(path) {
      var p := StripTrailingSlashes(path.value);
      StrippedNotSlash(path.value);
      var last := LastIndexOf(p, '/');
      if last >= 0 {
        var r := p[last + 1..];
        assert last < |p| - 1;
        assert forall k :: 0 <= k < |r| ==> r[k] == p[last + 1 + k];
      }
    }
  }

  /** The name of a plain path is the part after its last separator. */
  lemma NameOfFilePath()
    ensures GenerateWorkspaceName("ws", Some("d/f")) == "f"
  {
    var p := "d/f";
    assert p[..|p| - 0] == p && p[|p| - 0..] == [];
    assert StripTrailingSlashes(p) == p;
    assert p[..2] == "d/";
    assert LastIndexOf(p, '/') == 1;
  }

  /** Trailing separators are stripped before the last one is looked for. */
  lemma NameOfDirectoryPath()
    ensures GenerateWorkspaceName("ws", Some("d//")) == "d"
  {
    var p := "d//";
    assert p[..|p| - 0] == p && p[|p| - 0..] == [];
    assert p[..2] == "d/" && p[..2][..1] == "d";
    assert DropEnd(p, IsSlash) == "d";
    assert StripTrailingSlashes(p) == "d";
    assert LastIndexOf("d", '/') == -1;
  }

  /** A path of separators only, and a missing or empty path, give the id. */
  lemma NameFallsBackToId()
    ensures GenerateWorkspaceName("ws", Some("//")) == "ws"
    ensures GenerateWorkspaceName("ws", Some("")) == "ws"
    ensures GenerateWorkspaceName("ws", None) == "ws"
  {
    var p := "//";
    assert p[..|p| - 0] == p && p[|p| - 0..] == [];
    assert p[..1] == "/" && "/"[..0] == "";
    assert DropEnd(p, IsSlash) == "";
    assert StripTrailingSlashes(p) == "";
  }

  /** A final line terminator survives, and the slashes before it are
      stripped, so the name keeps the terminator. */
  lemma NameKeepsFinalNewline()
    ensures GenerateWorkspaceName("ws", Some("b/\n")) == "b\n"
  {
    var p := "b/\n";
    assert FinalTerminator(p) == 1;
    assert p[..2] == "b/" && p[2..] == "\n" && "b/"[..1] == "b";
    assert DropEnd("b/", IsSlash) == "b";
    assert StripTrailingSlashes(p) == "b\n";
    assert "b\n"[..1] == "b";
    assert LastIndexOf("b\n", '/') == -1;
  }

  /** The same holds for a final "\r\n". */
  lemma NameKeepsFinalCrLf()
    ensures GenerateWorkspaceName("ws", Some("a/\r\n")) == "a\r\n"
  {
    var p := "a/\r\n";
    assert p[|p| - 2..] == "\r\n";
    assert FinalTerminator(p) == 2;
    assert p[..2] == "a/" && p[2..] == "\r\n" && "a/"[..1] == "a";
    assert DropEnd("a/", IsSlash) == "a";
    assert StripTrailingSlashes(p) == "a\r\n";
    var q := "a\r\n";
    assert q[..2] == "a\r" && q[..2][..1] == "a";
    assert LastIndexOf(q, '/') == -1;
  }

  // ---- #pragma stripping in executeDirectives ------------------------------

  /** `\s+` followed by the rest: at least one space, then all of them. */
  function AfterSpaces(s: string): Option<string>
  {
    if s != [] && IsRegexSpace(s[0]) then Some(DropStart(s, IsRegexSpace)) else None
  }

  /** `PRAGMA_PATTERN.matcher(d).find()` for `^\s*#pragma\s+load-directives\s+`.
      None of the literal characters is a space, so each `\s` run is taken
      whole and no backtracking is needed. */
  predicate IsPragma(d: string)
  {
    PragmaAfterIndent(DropStart(d, IsRegexSpace))
  }

  /** `#pragma\s+load-directives\s+` at the start of `a`. */
  predicate PragmaAfterIndent(a: string)
  {
    StartsWith(a, "#pragma") && KeywordAfterSpaces(a[7..])
  }

  /** `\s+load-directives\s+` at the start of `b`. */
  predicate KeywordAfterSpaces(b: string)
  {
    var c := AfterSpaces(b);
    c.Some? && StartsWith(c.value, "load-directives") && AfterSpaces(c.value[15..]).Some?
  }

  predicate NotPragma(d: string) { !IsPragma(d) }

  /** `directives.removeIf(d -> PRAGMA_PATTERN.matcher(d).find())`, in place. */
  method StripPragmas(directives: StringList)
    modifies directives
    ensures directives.items == Filter(old(directives.items), NotPragma)
  {
    var src := directives.items;
    var kept: seq<string> := [];
    var i := 0;
    while i < |src|
      invariant 0 <= i <= |src|
      invariant kept == Filter(src[..i], NotPragma)
    {
      assert src[..i + 1][..i] == src[..i];
      if !IsPragma(src[i]) {
        kept := kept + [src[i]];
      }
      i := i + 1;
    }
    assert src[..i] == src;
    directives.items := kept;
  }

  /** Stripping removes exactly the pragma directives and keeps the others;
      a second stripping removes nothing. */
  lemma StripPragmasMeaning(directives: seq<string>, d: string)
    ensures d in Filter(directives, NotPragma) <==> d in directives && !IsPragma(d)
    ensures Filter(Filter(directives, NotPragma), NotPragma) == Filter(directives, NotPragma)
  {
    FilterMembers(directives, NotPragma, d);
    FilterIdempotent(directives, NotPragma);
  }

  /** Leading spaces in front of a non-space are dropped whole. */
  lemma {:induction false} DropSpaces(w: string, x: string)
    requires forall k :: 0 <= k < |w| ==> IsRegexSpace(w[k])
    requires x == [] || !IsRegexSpace(x[0])
    ensures DropStart(w + x, IsRegexSpace) == x
    decreases |w|
  {
    if w == [] {
      assert w + x == x;
    } else {
      assert (w + x)[1..] == w[1..] + x;
      DropSpaces(w[1..], x);
    }
  }

  /** Every directive of the form `<sp>*#pragma<sp>+load-directives<sp>+...`
      is a pragma. */
  lemma PragmaForm(w1: string, w2: string, w3: string, rest: string)
    requires forall k :: 0 <= k < |w1| ==> IsRegexSpace(w1[k])
    requires w2 != [] && forall k :: 0 <= k < |w2| ==> IsRegexSpace(w2[k])
    requires w3 != [] && IsRegexSpace(w3[0])
    ensures IsPragma(w1 + "#pragma" + w2 + "load-directives" + w3 + rest)
  {
    var b := w2 + "load-directives" + w3 + rest;
    KeywordForm(w2, w3, rest);
    var a := "#pragma" + b;
    PrefixThen("#pragma", b);
    assert w1 + "#pragma" + w2 + "load-directives" + w3 + rest == w1 + a;
    DropSpaces(w1, a);
  }

  lemma KeywordForm(w2: string, w3: string, rest: string)
    requires w2 != [] && forall k :: 0 <= k < |w2| ==> IsRegexSpace(w2[k])
    requires w3 != [] && IsRegexSpace(w3[0])
    ensures KeywordAfterSpaces(w2 + "load-directives" + w3 + rest)
  {
    var w3r := w3 + rest;
    var tail := "load-directives" + w3r;
    PrefixThen("load-directives", w3r);
    assert w2 + "load-directives" + w3 + rest == w2 + tail;
    DropSpaces(w2, tail);
    assert w3r[0] == w3[0];
  }

  lemma PrefixThen(p: string, x: string)
    requires p != []
    ensures StartsWith(p + x, p) && (p + x)[|p|..] == x && (p + x)[0] == p[0]
  {
    assert (p + x)[..|p|] == p;
  }

  /** The pattern needs white space after the keyword, so a directive in
      which `load-directives` ends the text or runs into other characters is
      kept. */
  lemma PragmaNeedsTrailingSpace(w1: string, w2: string, rest: string)
    requires forall k :: 0 <= k < |w1| ==> IsRegexSpace(w1[k])
    requires w2 != [] && forall k :: 0 <= k < |w2| ==> IsRegexSpace(w2[k])
    requires rest == [] || !IsRegexSpace(rest[0])
    ensures !IsPragma(w1 + "#pragma" + w2 + "load-directives" + rest)
  {
    var tail := "load-directives" + rest;
    assert tail[0] == 'l';
    var b := w2 + tail;
    var a := "#pragma" + b;
    assert a[0] == '#';
    assert w1 + "#pragma" + w2 + "load-directives" + rest == w1 + a;
    DropSpaces(w1, a);
    assert a[7..] == b;
    DropSpaces(w2, tail);
    assert tail[15..] == rest;
  }

  /** `#pragma` must be followed by white space. */
  lemma PragmaNeedsSeparator(w1: string, rest: string)
    requires forall k :: 0 <= k < |w1| ==> IsRegexSpace(w1[k])
    requires rest == [] || !IsRegexSpace(rest[0])
    ensures !IsPragma(w1 + "#pragma" + rest)
  {
    var a := "#pragma" + rest;
    assert a[0] == '#';
    assert w1 + "#pragma" + rest == w1 + a;
    DropSpaces(w1, a);
    assert a[7..] == rest;
    assert AfterSpaces(rest).None?;
    assert !KeywordAfterSpaces(a[7..]);
  }

  // ---- getSourceSpecs ------------------------------------------------------

  /** Some trimmed directive starts with "parse-as-csv" and ends with "true". */
  predicate ShouldCopyHeader(directives: seq<string>)
  {
    exists i :: 0 <= i < |directives| && StartsWith(JavaTrim(directives[i]), "parse-as-csv")
      && EndsWith(JavaTrim(directives[i]), "true")
  }

  /** The stage spec with `copyHeader=true` added to a copy of its plugin's
      properties. */
  function WithCopyHeader(spec: StageSpec): (r: StageSpec)
  {
    var p := spec.plugin;
    StageSpec(spec.schema, Plugin(p.name, p.pluginType, p.properties["copyHeader" := "true"], p.artifact))
  }

  /** `getSourceSpecs(detail, directives)`, with the detail reduced to its
      workspace's sample spec. */
  function GetSourceSpecs(sampleSpec: Option<SampleSpec>, directives: seq<string>): (r: set<StageSpec>)
  {
    var srcSpecs := if sampleSpec.None? then {} else sampleSpec.value.relatedPlugins;
    if ShouldCopyHeader(directives) && srcSpecs != {} then
      set s | s in srcSpecs :: WithCopyHeader(s)
    else srcSpecs
  }

  /** Only `copyHeader` changes: schema, name, type, artifact and every other
      property are kept. */
  lemma WithCopyHeaderKeeps(spec: StageSpec)
    ensures var r := WithCopyHeader(spec);
      r.schema == spec.schema && r.plugin.name == spec.plugin.name
      && r.plugin.pluginType == spec.plugin.pluginType && r.plugin.artifact == spec.plugin.artifact
      && r.plugin.properties.Keys == spec.plugin.properties.Keys + {"copyHeader"}
      && r.plugin.properties["copyHeader"] == "true"
      && (forall k :: k in spec.plugin.properties && k != "copyHeader" ==>
            r.plugin.properties[k] == spec.plugin.properties[k])
  {
  }

  /** With a matching directive every source spec comes back with
      `copyHeader=true`, and only such specs come back; without one the
      related plugins are returned as they are (none when there is no sample
      spec). */
  lemma SourceSpecsMeaning(sampleSpec: Option<SampleSpec>, directives: seq<string>)
    ensures var r := GetSourceSpecs(sampleSpec, directives);
      var src := if sampleSpec.None? then {} else sampleSpec.value.relatedPlugins;
      && (ShouldCopyHeader(directives) ==>
            (forall s :: s in src ==> WithCopyHeader(s) in r)
            && (forall x :: x in r ==> exists s :: s in src && x == WithCopyHeader(s))
            && (forall x :: x in r ==> x.plugin.properties.Keys >= {"copyHeader"} && x.plugin.properties["copyHeader"] == "true"))
      && (!ShouldCopyHeader(directives) ==> r == src)
  {
  }

  lemma CopyHeaderExamples()
    ensures ShouldCopyHeader([" parse-as-csv , true "])
    ensures !ShouldCopyHeader(["parse-as-csv ,"])
    ensures !ShouldCopyHeader([])
  {
    var d := " parse-as-csv , true ";
    assert d[1..][..|d[1..]| - 1] == d[1..|d| - 1];
    assert d[1..][0] == 'p';
    assert DropStart(d, IsJavaTrimmed) == d[1..];
    assert DropEnd(d[1..], IsJavaTrimmed) == DropEnd(d[1..|d| - 1], IsJavaTrimmed) == d[1..|d| - 1];
    var ds := [d];
    assert StartsWith(JavaTrim(ds[0]), "parse-as-csv") && EndsWith(JavaTrim(ds[0]), "true");
    var e := "parse-as-csv ,";
    assert DropStart(e, IsJavaTrimmed) == e;
    assert DropEnd(e, IsJavaTrimmed) == e;
    assert e[|e| - 4..] != "true";
  }
}
