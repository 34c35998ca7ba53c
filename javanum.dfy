/** Java's fixed-width integer arithmetic, written out over unbounded `int`. */
module JavaNum {
  const TWO_32: int := 0x1_0000_0000
  const INT_MIN: int := -0x8000_0000
  const INT_MAX: int := 0x7FFF_FFFF
  const TWO_64: int := 0x1_0000_0000_0000_0000
  const LONG_MIN: int := -0x8000_0000_0000_0000
  const LONG_MAX: int := 0x7FFF_FFFF_FFFF_FFFF

  /** The values of a Java `long`. */
  type Long = x: int | LONG_MIN <= x <= LONG_MAX
  /** The values of a Java `int`. */
  type Int32 = x: int | INT_MIN <= x <= INT_MAX

  predicate IsLong(x: int) { LONG_MIN <= x <= LONG_MAX }

  /** Two's-complement wrap-around of `long` arithmetic: the unique `long`
      congruent to `x` modulo 2^64. */
  function WrapLong(x: int): (r: Long)
    ensures (r - x) % TWO_64 == 0
    ensures IsLong(x) ==> r == x
  {
    (x - LONG_MIN) % TWO_64 + LONG_MIN
  }

  /** Wrap-around of `int` arithmetic and of a `(int)` cast from `long`. */
  function WrapInt(x: int): (r: Int32)
    ensures (r - x) % TWO_32 == 0
    ensures INT_MIN <= x <= INT_MAX ==> r == x
  {
    (x - INT_MIN) % TWO_32 + INT_MIN
  }

  /** The saturating conversion of `java.util.concurrent.TimeUnit`: results
      beyond the range of `long` become `Long.MIN_VALUE` or `Long.MAX_VALUE`. */
  function SaturateLong(x: int): (r: Long)
    ensures IsLong(x) ==> r == x
    ensures x > LONG_MAX ==> r == LONG_MAX
    ensures x < LONG_MIN ==> r == LONG_MIN
  {
    if x > LONG_MAX then LONG_MAX else if x < LONG_MIN then LONG_MIN else x
  }

  /** Java's (and JavaScript's) division, which truncates toward zero. */
  function TruncDiv(a: int, b: int): (q: int)
    requires b != 0
    ensures a >= 0 && b > 0 ==> q == a / b
    ensures b > 0 && a >= 0 ==> 0 <= q <= a
    ensures b > 0 && a < 0 ==> a <= q <= 0
  {
    var n := if a >= 0 then a else -a;
    var d := if b > 0 then b else -b;
    DivBound(n, d);
    if (a >= 0) == (b > 0) then n / d else -(n / d)
  }

  lemma DivBound(n: nat, d: int)
    requires d >= 1
    ensures 0 <= n / d <= n
  {
    var q := n / d;
    assert q * d + n % d == n;
  }

  /** The remainder that goes with `TruncDiv`: its sign is that of `a`. */
  function TruncMod(a: int, b: int): (m: int)
    requires b != 0
    ensures a == TruncDiv(a, b) * b + m
  {
    a - TruncDiv(a, b) * b
  }

  lemma CongruentWrapEqual(x: int, y: int)
    requires (x - y) % TWO_64 == 0
    ensures WrapLong(x) == WrapLong(y)
  {
    var k := (x - y) / TWO_64;
    assert x - LONG_MIN == (y - LONG_MIN) + k * TWO_64;
    assert (x - LONG_MIN) % TWO_64 == (y - LONG_MIN) % TWO_64;
  }

  /** Accumulating `sum += x` in a `long` gives the exact sum, wrapped. */
  lemma WrapAddLong(acc: int, x: int)
    ensures WrapLong(WrapLong(acc) + x) == WrapLong(acc + x)
  {
    CongruentWrapEqual(WrapLong(acc) + x, acc + x);
  }

  lemma CongruentWrapIntEqual(x: int, y: int)
    requires (x - y) % TWO_32 == 0
    ensures WrapInt(x) == WrapInt(y)
  {
    var k := (x - y) / TWO_32;
    assert x - INT_MIN == (y - INT_MIN) + k * TWO_32;
    assert (x - INT_MIN) % TWO_32 == (y - INT_MIN) % TWO_32;
  }

  /** Accumulating `total += x` in an `int` gives the exact sum, wrapped. */
  lemma WrapAddInt(acc: int, x: int)
    ensures WrapInt(WrapInt(acc) + x) == WrapInt(acc + x)
  {
    CongruentWrapIntEqual(WrapInt(acc) + x, acc + x);
  }
}
