/** The `TimeDuration` token of the directive grammar: a number with a time
    unit, such as `5s`. */
module TimeDurationToken {
  import opened Wrappers
  import opened JavaNum
  import opened Text
  import opened ByteSizeToken

  /** The units of `java.util.concurrent.TimeUnit` the token accepts. */
  datatype TimeUnit = MILLISECONDS | SECONDS | MINUTES | HOURS | DAYS

  datatype TimeDuration = TimeDuration(value: Long, unit: TimeUnit, originalString: string)

  /** `parseTimeUnit`: the unit text is matched after `toLowerCase()`; any
      other unit is an `IllegalArgumentException`. */
  function ParseTimeUnit(unit: string): (r: Result<TimeUnit>)
  {
    var u := Lower(unit);
    if u == "ms" then Ok(MILLISECONDS)
    else if u == "s" then Ok(SECONDS)
    else if u == "m" then Ok(MINUTES)
    else if u == "h" then Ok(HOURS)
    else if u == "d" then Ok(DAYS)
    else Err("Unsupported time unit: " + unit)
  }

  /** The constructor, which parses the unit and so may throw. */
  function NewTimeDuration(value: Long, unit: string, originalString: string): (r: Result<TimeDuration>)
  {
    var u := ParseTimeUnit(unit);
    if u.Err? then Err(u.error) else Ok(TimeDuration(value, u.value, originalString))
  }

  function MillisPerUnit(u: TimeUnit): (m: nat)
  {
    match u
    case MILLISECONDS => 1
    case SECONDS => 1000
    case MINUTES => 60 * 1000
    case HOURS => 60 * 60 * 1000
    case DAYS => 24 * 60 * 60 * 1000
  }

  /** The JDK's scaling step: a product `d * m` whose magnitude would exceed
      `over = Long.MAX_VALUE / m` saturates. */
  function JdkScale(d: Long, m: nat, over: int): Long
    requires m >= 1
  {
    if d > over then LONG_MAX else if d < -over then LONG_MIN else WrapLong(d * m)
  }

  /** `toMillis()`, that is `TimeUnit.toMillis(value)`. */
  function ToMillis(t: TimeDuration): Long
  {
    if t.unit == MILLISECONDS then t.value
    else var m := MillisPerUnit(t.unit); JdkScale(t.value, m, LONG_MAX / m)
  }

  /** `value()`: the token's value is its length in milliseconds. */
  function Value(t: TimeDuration): Long
  {
    ToMillis(t)
  }

  function Type(t: TimeDuration): TokenType
  {
    TIME_DURATION
  }

  function ToString(t: TimeDuration): string
  {
    t.originalString
  }

  /** `equals`: value and parsed unit; the original text is ignored. */
  predicate Equals(a: TimeDuration, b: TimeDuration)
  {
    a.value == b.value && a.unit == b.unit
  }

  function HashKey(t: TimeDuration): (Long, TimeUnit)
  {
    (t.value, t.unit)
  }

  // ---- properties ---------------------------------------------------------

  /** Exactly the units ms, s, m, h and d, in any ASCII letter case, are
      accepted; every other unit is rejected with its name in the message. */
  lemma ParseAccepts(unit: string)
    ensures ParseTimeUnit(unit).Ok? <==> Lower(unit) in {"ms", "s", "m", "h", "d"}
    ensures ParseTimeUnit(unit).Err? ==> ParseTimeUnit(unit).error == "Unsupported time unit: " + unit
  {
  }

  lemma NanosAndMicrosRejected(v: Long, orig: string)
    ensures NewTimeDuration(v, "ns", orig) == Err("Unsupported time unit: ns")
    ensures NewTimeDuration(v, "us", orig) == Err("Unsupported time unit: us")
  {
    assert Lower("ns") == "ns" && Lower("us") == "us";
  }

  lemma ScaleSaturates(d: Long, m: nat)
    requires m in {1000, 60000, 3600000, 86400000}
    ensures JdkScale(d, m, LONG_MAX / m) == SaturateLong(d * m)
  {
    if m == 1000 {
      assert LONG_MAX / 1000 == 9223372036854775;
    } else if m == 60000 {
      assert LONG_MAX / 60000 == 153722867280912;
    } else if m == 3600000 {
      assert LONG_MAX / 3600000 == 2562047788015;
    } else {
      assert LONG_MAX / 86400000 == 106751991167;
    }
  }

  /** `toMillis` is the value times 1, 1000, 60000, 3600000 or 86400000,
      saturated at the bounds of `long`; without overflow it is exact. */
  lemma {:induction false} ToMillisScaled(t: TimeDuration)
    ensures ToMillis(t) == SaturateLong(t.value * MillisPerUnit(t.unit))
    ensures IsLong(t.value * MillisPerUnit(t.unit)) ==> ToMillis(t) == t.value * MillisPerUnit(t.unit)
  {
    if t.unit != MILLISECONDS {
      ScaleSaturates(t.value, MillisPerUnit(t.unit));
    }
  }

  lemma ValueIsMillis(t: TimeDuration)
    ensures Value(t) == ToMillis(t) && Type(t) == TIME_DURATION
  {
  }

  /** `1S` and `1s` are equal tokens; 1000 ms and 1 s have the same length
      but are not equal. */
  lemma EqualityUsesParsedUnit()
    ensures NewTimeDuration(1, "S", "1S").Ok? && NewTimeDuration(1, "s", "1s").Ok?
    ensures Equals(NewTimeDuration(1, "S", "1S").value, NewTimeDuration(1, "s", "1s").value)
    ensures NewTimeDuration(1000, "ms", "1000ms").Ok?
    ensures ToMillis(NewTimeDuration(1000, "ms", "1000ms").value) == ToMillis(NewTimeDuration(1, "s", "1s").value)
    ensures !Equals(NewTimeDuration(1000, "ms", "1000ms").value, NewTimeDuration(1, "s", "1s").value)
  {
    assert Lower("S") == "s" && Lower("s") == "s" && Lower("ms") == "ms";
  }

  lemma HashConsistent(a: TimeDuration, b: TimeDuration)
    requires Equals(a, b)
    ensures HashKey(a) == HashKey(b)
  {
  }

  lemma ToStringIsOriginal(a: TimeDuration, b: TimeDuration)
    requires Equals(a, b) && a.originalString != b.originalString
    ensures ToString(a) == a.originalString && ToString(a) != ToString(b)
  {
  }
}
