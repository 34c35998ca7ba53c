/** The front end's performance helpers (`utils/performanceUtils.js`): a
    virtual-scrolling window, memoisation, image URL parameters and a timer.
    Clock readings (`performance.now()`) and the container's height are
    parameters, all in whole units. */
module PerformanceUtils {
  import opened Wrappers
  import opened Text
  import opened Js

  // ---- VirtualScroller ------------------------------------------------------

  /** `Math.ceil(a / b)` for a positive divisor. */
  function CeilDiv(a: int, b: int): (r: int)
    requires b > 0
    ensures (r - 1) * b < a <= r * b
  {
    var q := (-a) / b;
    assert b * q <= -a < b * q + b;
    -q
  }

  /** A window of `visibleItems` consecutive items over a list, moved by
      scrolling. */
  class VirtualScroller<T> {
    const itemHeight: int
    const items: seq<T>
    const visibleItems: int
    var startIndex: int
    var endIndex: int

    /** The window always spans `visibleItems` indices. */
    predicate Valid()
      reads this
    {
      itemHeight > 0 && endIndex == startIndex + visibleItems
    }

    /** The window starts at the top and holds as many items as fit in the
        container, counting a partly visible one. */
    constructor(clientHeight: int, itemHeight: int, items: seq<T>)
      requires itemHeight > 0
      ensures this.itemHeight == itemHeight && this.items == items
      ensures visibleItems == CeilDiv(clientHeight, itemHeight)
      ensures startIndex == 0 && endIndex == visibleItems && Valid()
    {
      this.itemHeight := itemHeight;
      this.items := items;
      visibleItems := CeilDiv(clientHeight, itemHeight);
      startIndex := 0;
      endIndex := CeilDiv(clientHeight, itemHeight);
    }

    /** `getVisibleItems`: the items of the window, a contiguous run of at
        most `visibleItems` of them. */
    function GetVisibleItems(): (r: seq<T>)
      reads this
      requires Valid()
      ensures visibleItems >= 0 ==> |r| <= visibleItems
      ensures var a := SliceIndex(startIndex, |items|); a + |r| <= |items| && r == items[a..a + |r|]
      ensures 0 <= startIndex <= endIndex <= |items| ==> r == items[startIndex..endIndex]
    {
      if visibleItems >= 0 then
        SliceLength(items, startIndex, visibleItems);
        Slice(items, startIndex, endIndex)
      else Slice(items, startIndex, endIndex)
    }

    /** `updateScroll`: the window moves to the item at the scroll offset
        and keeps its width. */
    method UpdateScroll(scrollTop: int)
      requires Valid()
      modifies this
      ensures startIndex == scrollTop / itemHeight
      ensures endIndex == startIndex + visibleItems && Valid()
    {
      startIndex := scrollTop / itemHeight;
      endIndex := startIndex + visibleItems;
    }
  }

  /** The first window is the prefix of the items that fits the container. */
  lemma InitialWindow<T>(clientHeight: int, itemHeight: int, items: seq<T>)
    requires itemHeight > 0 && clientHeight >= 0
    ensures var n := CeilDiv(clientHeight, itemHeight);
      n >= 0 && Slice(items, 0, n) == items[..if n <= |items| then n else |items|]
  {
    var n := CeilDiv(clientHeight, itemHeight);
    assert n == -((-clientHeight) / itemHeight);
  }

  /** After scrolling, item `i` is shown exactly when it lies in the rows the
      scroll offset uncovered. */
  lemma ScrolledWindow<T>(items: seq<T>, itemHeight: int, visibleItems: nat, scrollTop: int, i: int)
    requires itemHeight > 0 && scrollTop >= 0 && 0 <= i < |items|
    ensures var s := scrollTop / itemHeight;
      var w := Slice(items, s, s + visibleItems);
      (s <= i < s + visibleItems ==> w[i - s] == items[i]) &&
      s * itemHeight <= scrollTop < (s + 1) * itemHeight
  {
    var s := scrollTop / itemHeight;
    assert s >= 0;
  }

  // ---- memoize --------------------------------------------------------------

  /** A memoised function: `fn` is pure, and `serialize` stands for
      `JSON.stringify` of the argument list. `calls` records, for the proof,
      the argument lists `fn` was applied to. */
  class Memoized<V> {
    const fn: seq<JsValue> -> V
    const serialize: seq<JsValue> -> string
    var cache: map<string, V>
    ghost var calls: seq<seq<JsValue>>

    /** `fn` has been applied to one argument list per cached key, and the
        cache holds its result. */
    ghost predicate Valid()
      reads this
    {
      (forall i, j :: 0 <= i < j < |calls| ==> serialize(calls[i]) != serialize(calls[j])) &&
      (forall i :: 0 <= i < |calls| ==> serialize(calls[i]) in cache && cache[serialize(calls[i])] == fn(calls[i])) &&
      (forall k :: k in cache ==> exists i :: 0 <= i < |calls| && serialize(calls[i]) == k)
    }

    constructor(fn: seq<JsValue> -> V, serialize: seq<JsValue> -> string)
      ensures this.fn == fn && this.serialize == serialize
      ensures cache == map[] && calls == [] && Valid()
    {
      this.fn := fn;
      this.serialize := serialize;
      cache := map[];
      calls := [];
    }

    /** One call of the memoised function: a cached key answers from the
        cache without applying `fn`; a new key applies `fn` once and caches
        the result. */
    method Call(args: seq<JsValue>) returns (result: V)
      requires Valid()
      modifies this
      ensures Valid()
      ensures var key := serialize(args);
        if key in old(cache) then result == old(cache)[key] && cache == old(cache) && calls == old(calls)
        else result == fn(args) && cache == old(cache)[key := result] && calls == old(calls) + [args]
      ensures exists i :: 0 <= i < |calls| && serialize(calls[i]) == serialize(args) && result == fn(calls[i])
    {
      var key := serialize(args);
      if key in cache {
        result := cache[key];
      } else {
        result := fn(args);
        cache := cache[key := result];
        ghost var before := calls;
        calls := calls + [args];
        assert serialize(calls[|calls| - 1]) == key;
        forall k | k in cache
          ensures exists i :: 0 <= i < |calls| && serialize(calls[i]) == k
        {
          if k != key {
            var i :| 0 <= i < |before| && serialize(before[i]) == k;
            assert calls[i] == before[i];
          }
        }
      }
    }
  }

  /** Two calls whose arguments serialise alike apply `fn` once, and the
      second returns the first one's result. */
  method CallTwice<V>(m: Memoized<V>, a: seq<JsValue>, b: seq<JsValue>) returns (first: V, second: V)
    requires m.Valid() && m.serialize(a) == m.serialize(b)
    modifies m
    ensures second == first
    ensures |m.calls| <= |old(m.calls)| + 1
  {
    first := m.Call(a);
    second := m.Call(b);
  }

  // ---- optimizeImage --------------------------------------------------------

  /** `optimizeImage`: the URL with width, height and quality parameters;
      the quality is 80 unless given. Decimal integers need no URL encoding. */
  function OptimizeImage(url: string, width: int, height: int, quality: Option<int>): string
  {
    var q := if quality.Some? then quality.value else 80;
    url + "?w=" + IntToString(width) + "&h=" + IntToString(height) + "&q=" + IntToString(q)
  }

  lemma IntToStringPlain(i: int)
    ensures '&' !in IntToString(i) && '?' !in IntToString(i)
  {
    var n := if i < 0 then -i else i;
    var d := NatToString(n);
    assert forall j :: 0 <= j < |d| ==> IsDigit(d[j]);
    assert '&' !in d && '?' !in d;
  }

  /** The query string splits back into the three parameters, in order. */
  lemma OptimizeImageQuery(url: string, width: int, height: int, quality: Option<int>)
    ensures var q := if quality.Some? then quality.value else 80;
      var r := OptimizeImage(url, width, height, quality);
      StartsWith(r, url + "?") &&
      SplitAll(r[|url| + 1..], '&') == ["w=" + IntToString(width), "h=" + IntToString(height), "q=" + IntToString(q)]
  {
    var q := if quality.Some? then quality.value else 80;
    var w, h, qs := IntToString(width), IntToString(height), IntToString(q);
    IntToStringPlain(width);
    IntToStringPlain(height);
    IntToStringPlain(q);
    var r := OptimizeImage(url, width, height, quality);
    var query := "w=" + w + "&h=" + h + "&q=" + qs;
    assert r == (url + "?") + query;
    assert query == ("w=" + w) + ['&'] + (("h=" + h) + ['&'] + ("q=" + qs));
    SplitAllAppend("w=" + w, ("h=" + h) + ['&'] + ("q=" + qs), '&');
    SplitAllAppend("h=" + h, "q=" + qs, '&');
    SplitAllNoSep("q=" + qs, '&');
  }

  /** Different parameters give different URLs. */
  lemma OptimizeImageInjective(url: string, w1: int, h1: int, q1: int, w2: int, h2: int, q2: int)
    requires OptimizeImage(url, w1, h1, Some(q1)) == OptimizeImage(url, w2, h2, Some(q2))
    ensures w1 == w2 && h1 == h2 && q1 == q2
  {
    OptimizeImageQuery(url, w1, h1, Some(q1));
    OptimizeImageQuery(url, w2, h2, Some(q2));
    var p1 := ["w=" + IntToString(w1), "h=" + IntToString(h1), "q=" + IntToString(q1)];
    var p2 := ["w=" + IntToString(w2), "h=" + IntToString(h2), "q=" + IntToString(q2)];
    assert p1 == p2;
    assert p1[0][2..] == IntToString(w1) && p2[0][2..] == IntToString(w2);
    assert p1[1][2..] == IntToString(h1) && p2[1][2..] == IntToString(h2);
    assert p1[2][2..] == IntToString(q1) && p2[2][2..] == IntToString(q2);
    IntToStringInjective(w1, w2);
    IntToStringInjective(h1, h2);
    IntToStringInjective(q1, q2);
  }

  lemma OptimizeImageDefault(url: string, width: int, height: int)
    ensures OptimizeImage(url, width, height, None) == OptimizeImage(url, width, height, Some(80))
  {
  }

  // ---- PerformanceMonitor ---------------------------------------------------

  /** Named start times of running measurements. */
  class PerformanceMonitor {
    var metrics: map<string, int>

    constructor()
      ensures metrics == map[]
    {
      metrics := map[];
    }

    /** `startMeasure`: (re)starts the measurement `name` at `now`. */
    method StartMeasure(name: string, now: int)
      modifies this
      ensures metrics == old(metrics)[name := now]
    {
      metrics := metrics[name := now];
    }

    /** `endMeasure`: with a truthy start time, the elapsed time, and the
        measurement is removed; otherwise `null` and nothing changes. A start
        time of 0 is falsy, so it counts as no start. */
    method EndMeasure(name: string, now: int) returns (duration: Option<int>)
      modifies this
      ensures old(name in metrics && metrics[name] != 0) ==>
        duration == Some(now - old(metrics[name])) && metrics == old(metrics) - {name}
      ensures !old(name in metrics && metrics[name] != 0) ==> duration == None && metrics == old(metrics)
    {
      if name in metrics && metrics[name] != 0 {
        duration := Some(now - metrics[name]);
        metrics := metrics - {name};
      } else {
        duration := None;
      }
    }

    /** `getMetrics`: the running measurements as a plain object. */
    function GetMetrics(): map<string, int>
      reads this
    {
      metrics
    }
  }

  /** A measurement started at a non-zero time reports the time elapsed
      since and is then gone; one started at time 0 reports nothing and
      stays. */
  method Measure(m: PerformanceMonitor, name: string, start: int, end: int) returns (d: Option<int>)
    modifies m
    ensures start != 0 ==> d == Some(end - start) && name !in m.metrics
    ensures start == 0 ==> d == None && name in m.metrics && m.metrics[name] == 0
    ensures m.metrics - {name} == old(m.metrics) - {name}
  {
    m.StartMeasure(name, start);
    d := m.EndMeasure(name, end);
  }
}
