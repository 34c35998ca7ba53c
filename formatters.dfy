/** The duration formatter of the front end (`utils/formatters.js`). Times
    are whole milliseconds; `Math.floor` of a quotient by a positive divisor
    is Dafny's `/` on `int`. */
module Formatters {
  import opened Wrappers
  import opened Text

  const MS_PER_SECOND := 1000
  const MS_PER_MINUTE := 60000
  const MS_PER_HOUR := 3600000

  /** `formatDuration(ms)`: "N/A" for a missing or zero duration, otherwise
      the two largest non-zero units of the truncated duration (only the
      seconds below one minute). `None` stands for `null` and `undefined`. */
  function FormatDuration(ms: Option<int>): (r: string)
    ensures ms.None? || ms.value == 0 ==> r == "N/A"
  {
    if ms.None? || ms.value == 0 then "N/A"
    else
      var seconds := ms.value / 1000;
      var minutes := seconds / 60;
      var hours := minutes / 60;
      var days := hours / 24;
      if days > 0 then IntToString(days) + "d " + IntToString(hours % 24) + "h"
      else if hours > 0 then IntToString(hours) + "h " + IntToString(minutes % 60) + "m"
      else if minutes > 0 then IntToString(minutes) + "m " + IntToString(seconds % 60) + "s"
      else IntToString(seconds) + "s"
  }

  /** Euclidean division is determined by its defining equation. */
  lemma DivUnique(a: int, d: int, q: int, r: int)
    requires d > 0 && a == d * q + r && 0 <= r < d
    ensures a / d == q && a % d == r
  {
    var k := a / d - q;
    assert d * k == r - a % d;
    SmallMultiple(d, k);
  }

  lemma SmallMultiple(d: int, k: int)
    requires d > 0 && -d < d * k < d
    ensures k == 0
  {
    if k >= 1 {
      MulMonotone(d, 1, k);
    } else if k <= -1 {
      MulMonotone(d, k, -1);
    }
  }

  lemma MulMonotone(d: int, x: int, y: int)
    requires d > 0 && x <= y
    ensures d * x <= d * y
  {
    assert d * y - d * x == d * (y - x) >= 0;
  }

  /** Taking a quotient twice is taking it once by the product. */
  lemma DivDiv(a: int, b: int, c: int)
    requires b > 0 && c > 0
    ensures a / b / c == a / (b * c)
  {
    var q := a / b;
    var r := a % b;
    var q2 := q / c;
    var r2 := q % c;
    assert q == c * q2 + r2;
    assert a == b * (c * q2 + r2) + r;
    assert a == (b * c) * q2 + (b * r2 + r) by {
      assert b * (c * q2 + r2) == (b * c) * q2 + b * r2;
    }
    assert b * r2 <= b * (c - 1) by { MulMonotone(b, r2, c - 1); }
    assert b * (c - 1) == b * c - b;
    DivUnique(a, b * c, q2, b * r2 + r);
  }

  /** The units shown are those of the truncated duration: days and hours
      together are the whole hours, hours and minutes the whole minutes,
      minutes and seconds the whole seconds, and each second unit stays
      below the number that makes up the first. */
  lemma FormatDurationUnits(ms: int)
    requires ms != 0
    ensures var h := ms / MS_PER_HOUR; var m := ms / MS_PER_MINUTE; var s := ms / MS_PER_SECOND;
      var r := FormatDuration(Some(ms));
      (h >= 24 ==> r == IntToString(h / 24) + "d " + IntToString(h % 24) + "h" &&
                   (h / 24) * 24 + h % 24 == h && h % 24 < 24) &&
      (0 < h < 24 ==> r == IntToString(h) + "h " + IntToString(m % 60) + "m" &&
                      h * 60 + m % 60 == m && m % 60 < 60) &&
      (h <= 0 && m > 0 ==> r == IntToString(m) + "m " + IntToString(s % 60) + "s" &&
                           m * 60 + s % 60 == s && s % 60 < 60) &&
      (m <= 0 ==> r == IntToString(s) + "s")
  {
    var s := ms / 1000;
    DivDiv(ms, 1000, 60);
    var m := s / 60;
    assert m == ms / MS_PER_MINUTE;
    DivDiv(ms, 60000, 60);
    var h := m / 60;
    assert h == ms / MS_PER_HOUR;
    if 0 < h < 24 {
      assert h / 24 == 0;
    }
    if h <= 0 && m > 0 {
      assert h == 0;
    }
    if m <= 0 {
      assert h <= 0 && h / 24 <= 0;
    }
  }

  lemma FormatDurationExamples()
    ensures FormatDuration(Some(999)) == "0s"
    ensures FormatDuration(Some(61000)) == "1m 1s"
    ensures FormatDuration(Some(90061000)) == "1d 1h"
    ensures FormatDuration(None) == "N/A"
  {
    assert IntToString(0) == "0";
    assert IntToString(1) == "1";
  }
}
