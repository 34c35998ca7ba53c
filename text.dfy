/** String operations of the Java and JavaScript standard libraries that the
    modelled code relies on, over `seq<char>`. */
module Text {

  predicate StartsWith(s: string, p: string) { |p| <= |s| && s[..|p|] == p }

  predicate EndsWith(s: string, p: string) { |p| <= |s| && s[|s| - |p|..] == p }

  /** `s.contains(t)` / `s.includes(t)`. */
  predicate Contains(s: string, t: string)
  {
    exists i | 0 <= i <= |s| - |t| :: OccursAt(s, t, i)
  }

  /** `t` occurs in `s` starting at index `i`. */
  predicate OccursAt(s: string, t: string, i: int)
  {
    0 <= i <= |s| - |t| && s[i..i + |t|] == t
  }

  // ---- ASCII case mapping -------------------------------------------------

  function LowerChar(c: char): char
  {
    if 'A' <= c <= 'Z' then (c as int + 32) as char else c
  }

  function UpperChar(c: char): char
  {
    if 'a' <= c <= 'z' then (c as int - 32) as char else c
  }

  /** `toLowerCase()` restricted to the ASCII letters. */
  function Lower(s: string): (r: string)
    ensures |r| == |s|
  {
    seq(|s|, i requires 0 <= i < |s| => LowerChar(s[i]))
  }

  /** `toUpperCase()` restricted to the ASCII letters. */
  function Upper(s: string): (r: string)
    ensures |r| == |s|
  {
    seq(|s|, i requires 0 <= i < |s| => UpperChar(s[i]))
  }

  lemma LowerIdempotent(s: string)
    ensures Lower(Lower(s)) == Lower(s)
  {
  }

  // ---- trimming -----------------------------------------------------------

  /** The characters `String.trim()` removes in Java: every code unit up to
      and including the space. */
  predicate IsJavaTrimmed(c: char) { c <= ' ' }

  /** The characters `\s` matches in a Java regular expression. */
  predicate IsRegexSpace(c: char)
  {
    c == ' ' || c == '\t' || c == '\n' || c == '\U{000B}' || c == '\U{000C}' || c == '\r'
  }

  /** The white space and line terminators `String.prototype.trim()` removes
      in JavaScript. */
  predicate IsJsWhitespace(c: char)
  {
    c == '\t' || c == '\n' || c == '\U{000B}' || c == '\U{000C}' || c == '\r' || c == ' '
    || c == '\U{00A0}' || c == '\U{1680}' || ('\U{2000}' <= c <= '\U{200A}')
    || c == '\U{2028}' || c == '\U{2029}' || c == '\U{202F}' || c == '\U{205F}'
    || c == '\U{3000}' || c == '\U{FEFF}'
  }

  /** Drops the longest prefix whose characters all satisfy `p`. */
  function DropStart(s: string, p: char -> bool): string
    decreases |s|
  {
    if s == [] || !p(s[0]) then s else DropStart(s[1..], p)
  }

  /** `DropStart` leaves a suffix that does not start with a `p` character,
      and every character it removes satisfies `p`. */
  lemma {:induction false} DropStartShape(s: string, p: char -> bool)
    ensures var r := DropStart(s, p);
      |r| <= |s| && r == s[|s| - |r|..] && (r == [] || !p(r[0]))
      && forall i :: 0 <= i < |s| - |r| ==> p(s[i])
    decreases |s|
  {
    if s != [] && p(s[0]) {
      DropStartShape(s[1..], p);
      var r := DropStart(s, p);
      assert s[1..][|s| - 1 - |r|..] == s[|s| - |r|..];
      assert forall i :: 1 <= i < |s| - |r| ==> s[i] == s[1..][i - 1];
    }
  }

  /** Drops the longest suffix whose characters all satisfy `p`. */
  function DropEnd(s: string, p: char -> bool): string
    decreases |s|
  {
    if s == [] || !p(s[|s| - 1]) then s else DropEnd(s[..|s| - 1], p)
  }

  /** `DropEnd` leaves a prefix that does not end with a `p` character, and
      every character it removes satisfies `p`. */
  lemma {:induction false} DropEndShape(s: string, p: char -> bool)
    ensures var r := DropEnd(s, p);
      |r| <= |s| && r == s[..|r|] && (r == [] || !p(r[|r| - 1]))
      && forall i :: |r| <= i < |s| ==> p(s[i])
    decreases |s|
  {
    if s != [] && p(s[|s| - 1]) {
      DropEndShape(s[..|s| - 1], p);
      var r := DropEnd(s, p);
      assert s[..|s| - 1][..|r|] == s[..|r|];
    }
  }

  /** Java's `String.trim()`. */
  function JavaTrim(s: string): (r: string)
  {
    DropEnd(DropStart(s, IsJavaTrimmed), IsJavaTrimmed)
  }

  /** `trim()` applied to every element, in order. */
  function TrimAll(fields: seq<string>): (r: seq<string>)
    ensures |r| == |fields| && forall j :: 0 <= j < |r| ==> r[j] == JavaTrim(fields[j])
  {
    seq(|fields|, j requires 0 <= j < |fields| => JavaTrim(fields[j]))
  }

  /** JavaScript's `String.prototype.trim()`. */
  function JsTrim(s: string): (r: string)
  {
    DropEnd(DropStart(s, IsJsWhitespace), IsJsWhitespace)
  }

  /** After trimming, neither end holds a removable character. */
  lemma TrimEnds(s: string, p: char -> bool)
    ensures var r := DropEnd(DropStart(s, p), p); r == [] || (!p(r[0]) && !p(r[|r| - 1]))
  {
    var a := DropStart(s, p);
    var r := DropEnd(a, p);
    DropStartShape(s, p);
    DropEndShape(a, p);
    if r != [] {
      assert r[0] == a[0];
    }
  }

  lemma TrimIdempotent(s: string, p: char -> bool)
    ensures var r := DropEnd(DropStart(s, p), p); DropEnd(DropStart(r, p), p) == r
  {
    TrimEnds(s, p);
  }

  // ---- character-wise rewriting -------------------------------------------

  /** Replaces every character `c` of `s` by `f(c)`. */
  function MapChars(s: string, f: char -> string): (r: string)
    decreases |s|
  {
    if s == [] then "" else f(s[0]) + MapChars(s[1..], f)
  }

  lemma MapCharsAppend(a: string, b: string, f: char -> string)
    ensures MapChars(a + b, f) == MapChars(a, f) + MapChars(b, f)
  {
    if a == [] {
      assert a + b == b;
    } else {
      assert (a + b)[0] == a[0];
      assert (a + b)[1..] == a[1..] + b;
      MapCharsAppend(a[1..], b, f);
    }
  }

  /** `s.replace(c, rep)` for a single character `c`, all occurrences (the
      JavaScript `replace` with a global regular expression of one character,
      Java's `replace(CharSequence, CharSequence)`). */
  function ReplaceChar(s: string, c: char, rep: string): (r: string)
  {
    MapChars(s, x => if x == c then rep else [x])
  }

  lemma ReplaceCharRemoves(s: string, c: char, rep: string)
    requires c !in rep
    ensures c !in ReplaceChar(s, c, rep)
    decreases |s|
  {
    if s != [] { ReplaceCharRemoves(s[1..], c, rep); }
  }

  lemma ReplaceCharKeeps(s: string, c: char, rep: string, d: char)
    requires d != c && d !in rep
    ensures d in ReplaceChar(s, c, rep) <==> d in s
    decreases |s|
  {
    if s != [] { ReplaceCharKeeps(s[1..], c, rep, d); }
  }

  /** Deletes every character of `s` satisfying `p`. */
  function RemoveWhere(s: string, p: char -> bool): (r: string)
    ensures forall i :: 0 <= i < |r| ==> !p(r[i])
    ensures forall c :: c in r ==> c in s
    decreases |s|
  {
    if s == [] then "" else (if p(s[0]) then "" else [s[0]]) + RemoveWhere(s[1..], p)
  }

  lemma RemoveWhereNoop(s: string, p: char -> bool)
    requires forall i :: 0 <= i < |s| ==> !p(s[i])
    ensures RemoveWhere(s, p) == s
    decreases |s|
  {
    if s != [] { RemoveWhereNoop(s[1..], p); }
  }

  // ---- joining and splitting ----------------------------------------------

  /** `String.join(sep, parts)` / `parts.join(sep)` over strings. */
  function Join(parts: seq<string>, sep: string): (r: string)
    decreases |parts|
  {
    if |parts| == 0 then ""
    else if |parts| == 1 then parts[0]
    else parts[0] + sep + Join(parts[1..], sep)
  }

  /** Splits at every occurrence of `c`, keeping empty pieces: JavaScript's
      `s.split(c)`. */
  function SplitAll(s: string, c: char): (r: seq<string>)
    ensures |r| >= 1
    decreases |s|
  {
    if s == [] then [""]
    else if s[0] == c then [""] + SplitAll(s[1..], c)
    else var rest := SplitAll(s[1..], c); [[s[0]] + rest[0]] + rest[1..]
  }

  lemma SplitAllNoSep(s: string, c: char)
    requires c !in s
    ensures SplitAll(s, c) == [s]
    decreases |s|
  {
    if s != [] {
      assert s[0] != c && c !in s[1..];
      SplitAllNoSep(s[1..], c);
      assert [s[0]] + s[1..] == s;
    }
  }

  lemma SplitAllAppend(a: string, b: string, c: char)
    requires c !in a
    ensures SplitAll(a + [c] + b, c) == [a] + SplitAll(b, c)
    decreases |a|
  {
    if a == [] {
      assert a + [c] + b == [c] + b;
      assert ([c] + b)[1..] == b;
    } else {
      assert (a + [c] + b)[1..] == a[1..] + [c] + b;
      SplitAllAppend(a[1..], b, c);
      assert [a[0]] + a[1..] == a;
    }
  }

  /** Splitting a join at the separator gives back the parts, provided no
      part contains the separator. */
  lemma {:induction false} SplitJoin(parts: seq<string>, c: char)
    requires |parts| >= 1
    requires forall i :: 0 <= i < |parts| ==> c !in parts[i]
    ensures SplitAll(Join(parts, [c]), c) == parts
    decreases |parts|
  {
    if |parts| == 1 {
      SplitAllNoSep(parts[0], c);
    } else {
      SplitJoin(parts[1..], c);
      SplitAllAppend(parts[0], Join(parts[1..], [c]), c);
      assert parts == [parts[0]] + parts[1..];
    }
  }

  /** Splits at the occurrences of the non-empty string `d`, found left to
      right without overlap, keeping empty pieces. */
  function SplitOn(s: string, d: string): (r: seq<string>)
    requires |d| > 0
    ensures |r| >= 1
    decreases |s|
  {
    if s == [] then [""]
    else if |d| <= |s| && s[..|d|] == d then [""] + SplitOn(s[|d|..], d)
    else var rest := SplitOn(s[1..], d); [[s[0]] + rest[0]] + rest[1..]
  }

  /** Putting the separator back between the pieces gives the text back. */
  lemma {:induction false} SplitOnJoin(s: string, d: string)
    requires |d| > 0
    ensures Join(SplitOn(s, d), d) == s
    decreases |s|
  {
    if s == [] {
    } else if |d| <= |s| && s[..|d|] == d {
      SplitOnJoin(s[|d|..], d);
      JoinEmptyHead(SplitOn(s[|d|..], d), d);
      assert s == s[..|d|] + s[|d|..];
    } else {
      SplitOnJoin(s[1..], d);
      JoinExtendHead(s[0], SplitOn(s[1..], d), d);
      assert s == [s[0]] + s[1..];
    }
  }

  lemma JoinEmptyHead(rest: seq<string>, sep: string)
    requires |rest| >= 1
    ensures Join([""] + rest, sep) == sep + Join(rest, sep)
  {
    assert ([""] + rest)[1..] == rest;
  }

  lemma JoinExtendHead(c: char, rest: seq<string>, sep: string)
    requires |rest| >= 1
    ensures Join([[c] + rest[0]] + rest[1..], sep) == [c] + Join(rest, sep)
  {
    var r := [[c] + rest[0]] + rest[1..];
    if |rest| > 1 {
      assert r[1..] == rest[1..];
    }
  }

  /** At a one-character separator, splitting at the string is splitting
      at the character. */
  lemma {:induction false} SplitOnChar(s: string, c: char)
    ensures SplitOn(s, [c]) == SplitAll(s, c)
    decreases |s|
  {
    if s != [] {
      SplitOnChar(s[1..], c);
      assert s[1..] == s[|[c]|..];
      assert s[..1] == [c] <==> s[0] == c;
    }
  }

  /** The one-character strings of `s`, in order. */
  function Chars(s: string): (r: seq<string>)
    ensures |r| == |s| && forall i :: 0 <= i < |s| ==> r[i] == [s[i]]
  {
    seq(|s|, i requires 0 <= i < |s| => [s[i]])
  }

  /** Java's `s.split(d)` for a delimiter `d` read as a literal string (one
      with no regular-expression metacharacter): the empty delimiter gives
      the characters (the empty text gives one empty piece); otherwise no
      occurrence gives `[s]`, and some give the pieces with trailing empty
      pieces removed. */
  function JavaSplit(s: string, d: string): (r: seq<string>)
  {
    if d == [] then (if s == [] then [""] else Chars(s))
    else
      var parts := SplitOn(s, d);
      if |parts| == 1 then parts else DropTrailingEmpty(parts)
  }

  /** A two-character delimiter, a delimiter at the end, and the empty
      delimiter. */
  lemma JavaSplitExamples()
    ensures JavaSplit("a, b", ", ") == ["a", "b"]
    ensures JavaSplit("a, ", ", ") == ["a"]
    ensures JavaSplit("ab", "") == ["a", "b"]
    ensures JavaSplit("", ", ") == [""]
  {
    assert "b"[1..] == "" && SplitOn("", ", ") == [""];
    assert ['b'] + "" == "b" && [""][1..] == [];
    assert SplitOn("b", ", ") == ["b"];
    assert ", b"[..2] == ", " && ", b"[2..] == "b";
    assert SplitOn(", b", ", ") == ["", "b"];
    assert "a, b"[..2] != ", " && "a, b"[1..] == ", b";
    assert ['a'] + "" == "a" && ["", "b"][1..] == ["b"];
    assert SplitOn("a, b", ", ") == ["a", "b"];
    assert ", "[..2] == ", " && ", "[2..] == "";
    assert SplitOn(", ", ", ") == ["", ""];
    assert "a, "[..2] != ", " && "a, "[1..] == ", ";
    assert ["", ""][1..] == [""];
    assert SplitOn("a, ", ", ") == ["a", ""];
  }

  /** What the pieces of `JavaSplit` are: the characters for the empty
      delimiter; otherwise an initial part of the pieces between the
      occurrences of `d`, all of `s`'s text when joined back with `d`, and
      only empty pieces are dropped. */
  lemma JavaSplitMeaning(s: string, d: string)
    ensures d == [] && s != [] ==> JavaSplit(s, d) == Chars(s)
    ensures d == [] && s == [] ==> JavaSplit(s, d) == [""]
    ensures |d| > 0 ==>
      var parts := SplitOn(s, d);
      var r := JavaSplit(s, d);
      Join(parts, d) == s && |r| <= |parts| && r == parts[..|r|] &&
      (forall i :: |r| <= i < |parts| ==> parts[i] == "") &&
      (|parts| == 1 ==> r == [s]) &&
      (|parts| > 1 ==> r == [] || r[|r| - 1] != "")
  {
    if |d| > 0 {
      SplitOnJoin(s, d);
    }
  }

  function DropTrailingEmpty(parts: seq<string>): (r: seq<string>)
    ensures |r| <= |parts| && r == parts[..|r|]
    ensures r == [] || r[|r| - 1] != ""
    ensures forall i :: |r| <= i < |parts| ==> parts[i] == ""
  {
    if parts == [] || parts[|parts| - 1] != "" then parts
    else DropTrailingEmpty(parts[..|parts| - 1])
  }

  // ---- decimal numbers ----------------------------------------------------

  predicate IsDigit(c: char) { '0' <= c <= '9' }

  function DigitChar(d: nat): (c: char)
    requires d < 10
    ensures IsDigit(c) && c as int - '0' as int == d
  {
    (d + '0' as int) as char
  }

  /** The decimal digits of `n`, as `String.valueOf` prints them. */
  function NatToString(n: nat): (r: string)
    ensures |r| >= 1 && forall i :: 0 <= i < |r| ==> IsDigit(r[i])
    decreases n
  {
    if n < 10 then [DigitChar(n)] else NatToString(n / 10) + [DigitChar(n % 10)]
  }

  /** `String.valueOf` of an integer, and JavaScript's conversion of an
      integral number to a string. */
  function IntToString(i: int): (r: string)
    ensures |r| >= 1
    ensures i >= 0 <==> r[0] != '-'
  {
    if i < 0 then "-" + NatToString(-i) else NatToString(i)
  }

  /** The value of a string of decimal digits. */
  function DigitsValue(s: string): nat
    requires forall i :: 0 <= i < |s| ==> IsDigit(s[i])
    decreases |s|
  {
    if s == [] then 0 else DigitsValue(s[..|s| - 1]) * 10 + DigitValue(s[|s| - 1])
  }

  function DigitValue(c: char): nat
    requires IsDigit(c)
  {
    c as int - '0' as int
  }

  /** Decimal printing is reversible, so it is injective. */
  lemma {:induction false} NatToStringValue(n: nat)
    ensures DigitsValue(NatToString(n)) == n
    decreases n
  {
    if n >= 10 {
      NatToStringValue(n / 10);
      var s := NatToString(n);
      assert s[..|s| - 1] == NatToString(n / 10);
    }
  }

  lemma IntToStringInjective(a: int, b: int)
    requires IntToString(a) == IntToString(b)
    ensures a == b
  {
    if a < 0 && b < 0 {
      assert NatToString(-a) == IntToString(a)[1..];
      NatToStringValue(-a);
      NatToStringValue(-b);
    } else if a >= 0 && b >= 0 {
      NatToStringValue(a);
      NatToStringValue(b);
    }
  }
}
