/** The front end's input hygiene and client-side rate limiting
    (`utils/securityUtils.js`). The clock `Date.now()` is a parameter. */
module SecurityUtils {
  import opened Text
  import opened Js
  import opened Seqs

  // ---- sanitizeInput --------------------------------------------------------

  predicate IsAngle(c: char) { c == '<' || c == '>' }

  /** Every character of a trimmed string is a character of the original. */
  lemma TrimKeepsChars(s: string, p: char -> bool)
    ensures forall c :: c in DropEnd(DropStart(s, p), p) ==> c in s
  {
    var a := DropStart(s, p);
    var r := DropEnd(a, p);
    DropStartShape(s, p);
    DropEndShape(a, p);
    forall c | c in r ensures c in s {
      var i :| 0 <= i < |r| && r[i] == c;
      assert a[i] == c;
      assert s[|s| - |a| + i] == c;
    }
  }

  /** `sanitizeInput`: a string loses every angle bracket and is then
      trimmed; any other value is returned as it is. */
  function SanitizeInput(input: JsValue): (r: JsValue)
    ensures !input.JStr? ==> r == input
    ensures input.JStr? ==> r.JStr? && '<' !in r.s && '>' !in r.s
    ensures input.JStr? ==> r.s == [] || (!IsJsWhitespace(r.s[0]) && !IsJsWhitespace(r.s[|r.s| - 1]))
  {
    if input.JStr? then
      var stripped := RemoveWhere(input.s, IsAngle);
      TrimKeepsChars(stripped, IsJsWhitespace);
      TrimEnds(stripped, IsJsWhitespace);
      JStr(JsTrim(stripped))
    else input
  }

  /** Sanitising a sanitised value changes nothing. */
  lemma SanitizeIdempotent(input: JsValue)
    ensures SanitizeInput(SanitizeInput(input)) == SanitizeInput(input)
  {
    if input.JStr? {
      var once := SanitizeInput(input).s;
      assert forall i :: 0 <= i < |once| ==> !IsAngle(once[i]) by {
        forall i | 0 <= i < |once| ensures !IsAngle(once[i]) { assert once[i] in once; }
      }
      RemoveWhereNoop(once, IsAngle);
      TrimIdempotent(RemoveWhere(input.s, IsAngle), IsJsWhitespace);
    }
  }

  lemma SanitizeExample()
    ensures SanitizeInput(JStr(" <a>")) == JStr("a")
    ensures SanitizeInput(JNum(3)) == JNum(3)
  {
    assert RemoveWhere(">", IsAngle) == "";
    assert RemoveWhere("a>", IsAngle) == "a";
    assert RemoveWhere("<a>", IsAngle) == "a";
    assert RemoveWhere(" <a>", IsAngle) == " a";
    assert DropStart(" a", IsJsWhitespace) == "a";
  }

  // ---- escapeHtml -----------------------------------------------------------

  /** `escapeHtml`: the five replacements in the order the source applies
      them, ampersands first. */
  function EscapeHtml(text: string): string
  {
    var amp := ReplaceChar(text, '&', "&amp;");
    var lt := ReplaceChar(amp, '<', "&lt;");
    var gt := ReplaceChar(lt, '>', "&gt;");
    var quot := ReplaceChar(gt, '"', "&quot;");
    ReplaceChar(quot, '\'', "&#039;")
  }

  /** The entity each character is written as. */
  function EscapeChar(c: char): (r: string)
    ensures |r| >= 1 && (r[0] == '&' <==> c in "&<>\"'")
  {
    if c == '&' then "&amp;"
    else if c == '<' then "&lt;"
    else if c == '>' then "&gt;"
    else if c == '"' then "&quot;"
    else if c == '\'' then "&#039;"
    else [c]
  }

  lemma ReplaceCharAppend(a: string, b: string, c: char, rep: string)
    ensures ReplaceChar(a + b, c, rep) == ReplaceChar(a, c, rep) + ReplaceChar(b, c, rep)
  {
    MapCharsAppend(a, b, x => if x == c then rep else [x]);
  }

  lemma ReplaceCharAbsent(s: string, c: char, rep: string)
    requires c !in s
    ensures ReplaceChar(s, c, rep) == s
    decreases |s|
  {
    if s != [] { ReplaceCharAbsent(s[1..], c, rep); }
  }

  lemma EscapeHtmlAppend(a: string, b: string)
    ensures EscapeHtml(a + b) == EscapeHtml(a) + EscapeHtml(b)
  {
    var a1, b1 := ReplaceChar(a, '&', "&amp;"), ReplaceChar(b, '&', "&amp;");
    ReplaceCharAppend(a, b, '&', "&amp;");
    var a2, b2 := ReplaceChar(a1, '<', "&lt;"), ReplaceChar(b1, '<', "&lt;");
    ReplaceCharAppend(a1, b1, '<', "&lt;");
    var a3, b3 := ReplaceChar(a2, '>', "&gt;"), ReplaceChar(b2, '>', "&gt;");
    ReplaceCharAppend(a2, b2, '>', "&gt;");
    var a4, b4 := ReplaceChar(a3, '"', "&quot;"), ReplaceChar(b3, '"', "&quot;");
    ReplaceCharAppend(a3, b3, '"', "&quot;");
    ReplaceCharAppend(a4, b4, '\'', "&#039;");
  }

  lemma ReplaceSingle(c: char, d: char, rep: string)
    ensures ReplaceChar([c], d, rep) == if c == d then rep else [c]
  {
    var f := x => if x == d then rep else [x];
    assert [c][1..] == [];
    assert MapChars([c], f) == f(c) + MapChars([], f);
  }

  /** The later replacements leave a string without their characters alone. */
  lemma LaterStagesKeep(w: string, from: nat)
    requires from <= 4
    requires from <= 1 ==> '<' !in w
    requires from <= 2 ==> '>' !in w
    requires from <= 3 ==> '"' !in w
    requires '\'' !in w
    ensures from <= 1 ==> ReplaceChar(w, '<', "&lt;") == w
    ensures from <= 2 ==> ReplaceChar(w, '>', "&gt;") == w
    ensures from <= 3 ==> ReplaceChar(w, '"', "&quot;") == w
    ensures ReplaceChar(w, '\'', "&#039;") == w
  {
    if from <= 1 { ReplaceCharAbsent(w, '<', "&lt;"); }
    if from <= 2 { ReplaceCharAbsent(w, '>', "&gt;"); }
    if from <= 3 { ReplaceCharAbsent(w, '"', "&quot;"); }
    ReplaceCharAbsent(w, '\'', "&#039;");
  }

  /** Each character is replaced once: the ampersand the later replacements
      write is not escaped again. */
  lemma EscapeHtmlChar(c: char)
    ensures EscapeHtml([c]) == EscapeChar(c)
  {
    ReplaceSingle(c, '&', "&amp;");
    var amp := ReplaceChar([c], '&', "&amp;");
    if c == '&' {
      LaterStagesKeep("&amp;", 1);
    } else {
      ReplaceSingle(c, '<', "&lt;");
      var lt := ReplaceChar(amp, '<', "&lt;");
      if c == '<' {
        LaterStagesKeep("&lt;", 2);
      } else {
        ReplaceSingle(c, '>', "&gt;");
        var gt := ReplaceChar(lt, '>', "&gt;");
        if c == '>' {
          LaterStagesKeep("&gt;", 3);
        } else {
          ReplaceSingle(c, '"', "&quot;");
          if c == '"' {
            LaterStagesKeep("&quot;", 4);
          } else {
            ReplaceSingle(c, '\'', "&#039;");
          }
        }
      }
    }
  }

  /** The replacement chain writes each character as its entity. */
  lemma {:induction false} EscapeHtmlPerChar(text: string)
    ensures EscapeHtml(text) == MapChars(text, EscapeChar)
    decreases |text|
  {
    if text == [] {
      assert EscapeHtml(text) == "";
    } else {
      assert text == [text[0]] + text[1..];
      EscapeHtmlAppend([text[0]], text[1..]);
      EscapeHtmlChar(text[0]);
      EscapeHtmlPerChar(text[1..]);
    }
  }

  /** The escaped text holds none of the characters HTML gives meaning to
      except the ampersands that start entities. */
  lemma EscapeHtmlSafe(text: string)
    ensures var r := EscapeHtml(text); '<' !in r && '>' !in r && '"' !in r && '\'' !in r
  {
    var amp := ReplaceChar(text, '&', "&amp;");
    var lt := ReplaceChar(amp, '<', "&lt;");
    var gt := ReplaceChar(lt, '>', "&gt;");
    var quot := ReplaceChar(gt, '"', "&quot;");
    ReplaceCharRemoves(amp, '<', "&lt;");
    ReplaceCharKeeps(lt, '>', "&gt;", '<');
    ReplaceCharRemoves(lt, '>', "&gt;");
    ReplaceCharKeeps(gt, '"', "&quot;", '<');
    ReplaceCharKeeps(gt, '"', "&quot;", '>');
    ReplaceCharRemoves(gt, '"', "&quot;");
    ReplaceCharKeeps(quot, '\'', "&#039;", '<');
    ReplaceCharKeeps(quot, '\'', "&#039;", '>');
    ReplaceCharKeeps(quot, '\'', "&#039;", '"');
    ReplaceCharRemoves(quot, '\'', "&#039;");
  }

  /** Reads the five entities back, in a single left-to-right pass. */
  function UnescapeHtml(t: string): string
    decreases |t|
  {
    if t == [] then ""
    else if StartsWith(t, "&amp;") then "&" + UnescapeHtml(t[5..])
    else if StartsWith(t, "&lt;") then "<" + UnescapeHtml(t[4..])
    else if StartsWith(t, "&gt;") then ">" + UnescapeHtml(t[4..])
    else if StartsWith(t, "&quot;") then "\"" + UnescapeHtml(t[6..])
    else if StartsWith(t, "&#039;") then "'" + UnescapeHtml(t[6..])
    else [t[0]] + UnescapeHtml(t[1..])
  }

  lemma UnescapeEntity(c: char, rest: string)
    ensures UnescapeHtml(EscapeChar(c) + rest) == [c] + UnescapeHtml(rest)
  {
    var t := EscapeChar(c) + rest;
    var e := EscapeChar(c);
    assert t[..|e|] == e && t[|e|..] == rest;
    if c !in "&<>\"'" {
      assert t[0] == c && t[1..] == rest;
      assert !StartsWith(t, "&amp;") && !StartsWith(t, "&lt;") && !StartsWith(t, "&gt;");
      assert !StartsWith(t, "&quot;") && !StartsWith(t, "&#039;");
    } else if c == '<' {
      assert !StartsWith(t, "&amp;") by { assert t[1] == 'l'; }
    } else if c == '>' {
      assert !StartsWith(t, "&amp;") by { assert t[1] == 'g'; }
      assert !StartsWith(t, "&lt;") by { assert t[1] == 'g'; }
    } else if c == '"' {
      assert !StartsWith(t, "&amp;") by { assert t[1] == 'q'; }
      assert !StartsWith(t, "&lt;") by { assert t[1] == 'q'; }
      assert !StartsWith(t, "&gt;") by { assert t[1] == 'q'; }
    } else if c == '\'' {
      assert !StartsWith(t, "&amp;") by { assert t[1] == '#'; }
      assert !StartsWith(t, "&lt;") by { assert t[1] == '#'; }
      assert !StartsWith(t, "&gt;") by { assert t[1] == '#'; }
      assert !StartsWith(t, "&quot;") by { assert t[1] == '#'; }
    }
  }

  /** Escaping is reversible, so no two texts escape alike. */
  lemma {:induction false} UnescapeEscape(text: string)
    ensures UnescapeHtml(EscapeHtml(text)) == text
    decreases |text|
  {
    EscapeHtmlPerChar(text);
    if text != [] {
      EscapeHtmlPerChar(text[1..]);
      UnescapeEntity(text[0], MapChars(text[1..], EscapeChar));
      UnescapeEscape(text[1..]);
    }
  }

  lemma EscapeHtmlInjective(a: string, b: string)
    requires EscapeHtml(a) == EscapeHtml(b)
    ensures a == b
  {
    UnescapeEscape(a);
    UnescapeEscape(b);
  }

  // ---- validators -----------------------------------------------------------

  /** `isValidFileType`: the MIME type is one of the allowed ones. */
  predicate IsValidFileType(fileType: string, allowedTypes: seq<string>)
  {
    fileType in allowedTypes
  }

  /** `isValidFileSize`: the limit itself is allowed. */
  predicate IsValidFileSize(size: int, maxSize: int)
  {
    size <= maxSize
  }

  lemma ValidatorBoundaries(maxSize: int, t: string)
    ensures IsValidFileSize(maxSize, maxSize) && !IsValidFileSize(maxSize + 1, maxSize)
    ensures IsValidFileType(t, [t]) && !IsValidFileType(t, [])
  {
    assert t == [t][0];
  }

  // ---- RateLimiter ----------------------------------------------------------

  /** The stored timestamps still inside the window at time `now`. */
  function Recent(requests: seq<int>, now: int, timeWindow: int): (r: seq<int>)
    ensures |r| <= |requests|
  {
    Filter(requests, t => now - t < timeWindow)
  }

  /** A sliding-window limiter: at most `maxRequests` admissions whose age is
      under `timeWindow`. `history` and `lastNow` record, for the proof, the
      admitted timestamps and the latest clock reading. */
  class RateLimiter {
    const maxRequests: int
    const timeWindow: int
    var requests: seq<int>
    ghost var history: seq<int>
    ghost var lastNow: int
    ghost var started: bool

    /** The stored list never holds more than `maxRequests` entries. */
    predicate Valid()
      reads this
    {
      requests == [] || |requests| <= maxRequests
    }

    /** While the clock has not gone back, the stored list is exactly the
        admissions still inside the window at the latest reading. */
    ghost predicate Tracks()
      reads this
    {
      if started then requests == Recent(history, lastNow, timeWindow)
      else requests == [] && history == []
    }

    constructor(maxRequests: int, timeWindow: int)
      ensures this.maxRequests == maxRequests && this.timeWindow == timeWindow
      ensures requests == [] && Valid() && Tracks()
    {
      this.maxRequests := maxRequests;
      this.timeWindow := timeWindow;
      requests := [];
      history := [];
      started := false;
      lastNow := 0;
    }

    /** `canMakeRequest`: drops the timestamps that have left the window,
        then admits and records `now` exactly when fewer than `maxRequests`
        remain. A refused call still drops the old timestamps. */
    method CanMakeRequest(now: int) returns (allowed: bool)
      modifies this
      ensures allowed <==> |Recent(old(requests), now, timeWindow)| < maxRequests
      ensures requests == Recent(old(requests), now, timeWindow) + (if allowed then [now] else [])
      ensures history == old(history) + (if allowed then [now] else [])
      ensures lastNow == now && started
      ensures old(Valid()) ==> Valid()
      ensures old(Valid()) && old(Tracks()) && timeWindow > 0 && (old(started) ==> now >= old(lastNow)) ==>
        Tracks() && (|Recent(history, now, timeWindow)| <= maxRequests || Recent(history, now, timeWindow) == [])
    {
      ghost var requests0, history0, lastNow0, started0 := requests, history, lastNow, started;
      requests := Recent(requests, now, timeWindow);
      if |requests| < maxRequests {
        requests := requests + [now];
        allowed := true;
      } else {
        allowed := false;
      }
      history := history + (if allowed then [now] else []);
      lastNow := now;
      started := true;
      if requests0 == [] || |requests0| <= maxRequests {
        if timeWindow > 0 && (started0 ==> now >= lastNow0) &&
          (if started0 then requests0 == Recent(history0, lastNow0, timeWindow) else requests0 == [] && history0 == [])
        {
          CanMakeRequestTracks(maxRequests, timeWindow, now, allowed, requests0, history0, lastNow0, started0,
            requests, history);
        }
      }
    }
  }

  /** Filtering by a weaker test and then by a stronger one is filtering by
      the stronger one alone. */
  lemma {:induction false} FilterNarrowing<T>(s: seq<T>, weak: T -> bool, strong: T -> bool)
    requires forall x :: strong(x) ==> weak(x)
    ensures Filter(Filter(s, weak), strong) == Filter(s, strong)
    decreases |s|
  {
    if s != [] {
      var init := s[..|s| - 1];
      var last := s[|s| - 1];
      FilterNarrowing(init, weak, strong);
      FilterAppend(Filter(init, weak), if weak(last) then [last] else [], strong);
      assert Filter([last], strong) == (if strong(last) then [last] else []) by {
        assert [last][..0] == [];
      }
      assert Filter([], strong) == [];
    }
  }

  /** One call keeps the stored list equal to the admissions inside the
      window, as long as the clock does not go back and the window is
      positive; so the admissions in any window ending at a call never
      exceed `maxRequests`. */
  lemma CanMakeRequestTracks(
    maxRequests: int, timeWindow: int, now: int, allowed: bool,
    requests0: seq<int>, history0: seq<int>, lastNow0: int, started0: bool,
    requests1: seq<int>, history1: seq<int>)
    requires timeWindow > 0
    requires started0 ==> now >= lastNow0
    requires if started0 then requests0 == Recent(history0, lastNow0, timeWindow) else requests0 == [] && history0 == []
    requires requests0 == [] || |requests0| <= maxRequests
    requires allowed <==> |Recent(requests0, now, timeWindow)| < maxRequests
    requires requests1 == Recent(requests0, now, timeWindow) + (if allowed then [now] else [])
    requires history1 == history0 + (if allowed then [now] else [])
    ensures requests1 == Recent(history1, now, timeWindow)
    ensures |Recent(history1, now, timeWindow)| <= maxRequests || Recent(history1, now, timeWindow) == []
  {
    var inWindow := t => now - t < timeWindow;
    if started0 {
      FilterNarrowing(history0, t => lastNow0 - t < timeWindow, inWindow);
    }
    assert Recent(requests0, now, timeWindow) == Recent(history0, now, timeWindow);
    var extra := if allowed then [now] else [];
    FilterAppend(history0, extra, inWindow);
    assert Filter(extra, inWindow) == extra by {
      if allowed { assert extra[..0] == []; }
    }
  }
}
