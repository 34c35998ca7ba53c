/** The few JavaScript value semantics the modelled front-end code relies on.
    Numbers are modelled as integers: every number the modelled code handles
    is an integral count, size or timestamp. */
module Js {
  import opened Text

  datatype JsValue =
    | JUndefined
    | JNull
    | JBool(b: bool)
    | JNum(n: int)
    | JStr(s: string)
    | JArr(elems: seq<JsValue>)

  /** JavaScript truthiness (`!v` is its negation). */
  predicate Truthy(v: JsValue)
  {
    match v
    case JUndefined => false
    case JNull => false
    case JBool(b) => b
    case JNum(n) => n != 0
    case JStr(s) => s != ""
    case JArr(_) => true
  }

  /** `String(v)` for a primitive, `Array.prototype.toString` for an array. */
  function ToStr(v: JsValue): (r: string)
  {
    match v
    case JUndefined => "undefined"
    case JNull => "null"
    case JBool(b) => if b then "true" else "false"
    case JNum(n) => IntToString(n)
    case JStr(s) => s
    case JArr(elems) => JoinValues(elems, ",")
  }

  /** `Array.prototype.join(sep)`: `null` and `undefined` become empty. */
  function JoinValues(elems: seq<JsValue>, sep: string): (r: string)
    decreases elems, 1
  {
    if |elems| == 0 then ""
    else
      var first := if elems[0].JUndefined? || elems[0].JNull? then "" else ToStr(elems[0]);
      if |elems| == 1 then first else first + sep + JoinValues(elems[1..], sep)
  }

  /** Resolves a `slice` index against a length: negative counts from the end,
      and the result is clamped to `[0, len]`. */
  function SliceIndex(i: int, len: nat): (r: nat)
    ensures r <= len
    ensures 0 <= i <= len ==> r == i
  {
    if i < 0 then (if len + i < 0 then 0 else len + i) else if i > len then len else i
  }

  /** `Array.prototype.slice(start, end)` and `String.prototype.slice`. */
  function Slice<T>(s: seq<T>, start: int, end: int): (r: seq<T>)
    ensures |r| <= |s|
    ensures var a := SliceIndex(start, |s|); var b := SliceIndex(end, |s|);
      if a < b then r == s[a..b] else r == []
  {
    var a := SliceIndex(start, |s|);
    var b := SliceIndex(end, |s|);
    if a < b then s[a..b] else []
  }

  /** A slice never holds more than `end - start` elements, whatever `start`. */
  lemma SliceLength<T>(s: seq<T>, start: int, count: nat)
    ensures |Slice(s, start, start + count)| <= count
  {
  }

  /** Consecutive slices of width `w` starting at multiples of `w` cover the
      sequence in order. */
  lemma SliceAdjacent<T>(s: seq<T>, a: nat, b: nat, c: nat)
    requires a <= b <= c
    ensures Slice(s, a, b) + Slice(s, b, c) == Slice(s, a, c)
  {
    var n := |s|;
    if b >= n {
      assert Slice(s, b, c) == [];
      if a < n { assert Slice(s, a, b) == s[a..n] == Slice(s, a, c); }
    } else if c >= n {
      assert s[a..b] + s[b..n] == s[a..n];
    } else {
      assert s[a..b] + s[b..c] == s[a..c];
    }
  }
}
