/** The `ByteSize` token of the directive grammar: a number with a size unit,
    such as `10KB`. */
module ByteSizeToken {
  import opened JavaNum
  import opened Text

  /** The kinds of token whose values the aggregation step understands. */
  datatype TokenType = BYTE_SIZE | TIME_DURATION

  datatype ByteSize = ByteSize(value: Long, unit: string, originalString: string)

  /** `long` multiplication by a small constant, as Java evaluates it. */
  function MulLong(x: Long, k: int): Long
  {
    WrapLong(x * k)
  }

  /** `toBytes()`: the unit is matched after `toUpperCase()`, every product
      is a `long` product, and an unknown unit leaves the value as it is. */
  function ToBytes(b: ByteSize): Long
  {
    var u := Upper(b.unit);
    if u == "B" then b.value
    else if u == "KB" then MulLong(b.value, 1024)
    else if u == "MB" then MulLong(MulLong(b.value, 1024), 1024)
    else if u == "GB" then MulLong(MulLong(MulLong(b.value, 1024), 1024), 1024)
    else if u == "TB" then MulLong(MulLong(MulLong(MulLong(b.value, 1024), 1024), 1024), 1024)
    else b.value
  }

  /** The number of bytes one unit stands for. */
  function UnitFactor(unit: string): (f: nat)
    ensures f >= 1
    ensures Upper(unit) == "B" ==> f == 1
    ensures Upper(unit) == "KB" ==> f == 1024
    ensures Upper(unit) == "MB" ==> f == 1024 * 1024
    ensures Upper(unit) == "GB" ==> f == 1024 * 1024 * 1024
    ensures Upper(unit) == "TB" ==> f == 1024 * 1024 * 1024 * 1024
    ensures Upper(unit) !in {"KB", "MB", "GB", "TB"} ==> f == 1
  {
    var u := Upper(unit);
    if u == "KB" then 1024
    else if u == "MB" then 1024 * 1024
    else if u == "GB" then 1024 * 1024 * 1024
    else if u == "TB" then 1024 * 1024 * 1024 * 1024
    else 1
  }

  /** `value()`: the token's value is its size in bytes. */
  function Value(b: ByteSize): (r: Long)
  {
    ToBytes(b)
  }

  function Type(b: ByteSize): TokenType
  {
    BYTE_SIZE
  }

  /** `toString()`. */
  function ToString(b: ByteSize): string
  {
    b.originalString
  }

  /** `equals`: value and unit as written; the original text is ignored. */
  predicate Equals(a: ByteSize, b: ByteSize)
  {
    a.value == b.value && a.unit == b.unit
  }

  /** The fields `hashCode` combines with `Objects.hash`. */
  function HashKey(b: ByteSize): (Long, string)
  {
    (b.value, b.unit)
  }

  // ---- properties ---------------------------------------------------------

  lemma MulLongTwice(x: Long, j: int, k: int)
    ensures MulLong(MulLong(x, j), k) == WrapLong(x * (j * k))
  {
    var w := WrapLong(x * j);
    var q := (w - x * j) / TWO_64;
    assert w - x * j == q * TWO_64;
    assert w * k - x * (j * k) == (w - x * j) * k;
    assert (w - x * j) * k == (q * k) * TWO_64;
    assert (w * k - x * (j * k)) % TWO_64 == 0;
    CongruentWrapEqual(w * k, x * (j * k));
  }

  /** The chain of wrapped products is the wrapped product by the unit's factor. */
  lemma {:induction false} ToBytesIsScaled(b: ByteSize)
    ensures ToBytes(b) == WrapLong(b.value * UnitFactor(b.unit))
  {
    var v := b.value;
    var u := Upper(b.unit);
    if u == "MB" {
      MulLongTwice(v, 1024, 1024);
    } else if u == "GB" {
      MulLongTwice(v, 1024, 1024);
      MulLongTwice(v, 1024 * 1024, 1024);
      assert MulLong(MulLong(v, 1024), 1024) == MulLong(v, 1024 * 1024);
    } else if u == "TB" {
      MulLongTwice(v, 1024, 1024);
      MulLongTwice(v, 1024 * 1024, 1024);
      MulLongTwice(v, 1024 * 1024 * 1024, 1024);
      assert MulLong(MulLong(v, 1024), 1024) == MulLong(v, 1024 * 1024);
      assert MulLong(MulLong(MulLong(v, 1024), 1024), 1024) == MulLong(v, 1024 * 1024 * 1024);
    }
  }

  /** Without overflow, `toBytes` is the value times 1, 1024, 1024^2, 1024^3
      or 1024^4 for B, KB, MB, GB, TB in any letter case, and the bare value
      for any other unit. */
  lemma ToBytesExact(b: ByteSize)
    requires IsLong(b.value * UnitFactor(b.unit))
    ensures ToBytes(b) == b.value * UnitFactor(b.unit)
    ensures Upper(b.unit) !in {"KB", "MB", "GB", "TB"} ==> ToBytes(b) == b.value
  {
    ToBytesIsScaled(b);
  }

  /** `toBytes` depends on the unit only through its upper-case form. */
  lemma ToBytesCaseInsensitive(a: ByteSize, b: ByteSize)
    requires a.value == b.value && Upper(a.unit) == Upper(b.unit)
    ensures ToBytes(a) == ToBytes(b)
  {
  }

  lemma UnknownUnitsUnconverted(v: Long, orig: string)
    ensures ToBytes(ByteSize(v, "PB", orig)) == v
    ensures ToBytes(ByteSize(v, "", orig)) == v
  {
    assert Upper("PB") == "PB";
  }

  lemma ValueIsBytes(b: ByteSize)
    ensures Value(b) == ToBytes(b) && Type(b) == BYTE_SIZE
  {
  }

  /** One kilobyte and 1024 bytes convert to the same number of bytes, yet
      are not equal; equality and the hash ignore the original text. */
  lemma EqualityIsSyntactic(orig1: string, orig2: string)
    ensures ToBytes(ByteSize(1, "KB", orig1)) == ToBytes(ByteSize(1024, "B", orig2))
    ensures !Equals(ByteSize(1, "KB", orig1), ByteSize(1024, "B", orig2))
    ensures !Equals(ByteSize(1, "KB", orig1), ByteSize(1, "kb", orig1))
    ensures Equals(ByteSize(1, "KB", orig1), ByteSize(1, "KB", orig2))
    ensures HashKey(ByteSize(1, "KB", orig1)) == HashKey(ByteSize(1, "KB", orig2))
  {
    assert Upper("KB") == "KB" && Upper("B") == "B";
  }

  /** Equal tokens have equal hash inputs, so equal hash codes. */
  lemma HashConsistent(a: ByteSize, b: ByteSize)
    requires Equals(a, b)
    ensures HashKey(a) == HashKey(b)
  {
  }

  /** `toString` prints the original text, which equality does not see. */
  lemma ToStringIsOriginal(a: ByteSize, b: ByteSize)
    requires Equals(a, b) && a.originalString != b.originalString
    ensures ToString(a) == a.originalString && ToString(a) != ToString(b)
  {
  }
}
