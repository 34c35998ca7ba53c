/** The mapping between ClickHouse column types and the logical types of a
    flat file, used when a file's columns are matched to a table's. */
module DataTypeMapper {
  import opened Text
  import opened Js

  /** Native ClickHouse type name to logical type. */
  const ClickHouseToFlat: map<string, string> := map[
    "UInt8" := "integer", "UInt16" := "integer", "UInt32" := "integer", "UInt64" := "integer",
    "Int8" := "integer", "Int16" := "integer", "Int32" := "integer", "Int64" := "integer",
    "Float32" := "float", "Float64" := "float",
    "String" := "string", "FixedString" := "string",
    "Date" := "date", "DateTime" := "datetime",
    "Enum8" := "string", "Enum16" := "string",
    "Array" := "array", "Nullable" := "nullable"]

  /** Logical type to native ClickHouse type. */
  const FlatToClickHouse: map<string, string> := map[
    "integer" := "Int32", "float" := "Float64", "string" := "String",
    "date" := "Date", "datetime" := "DateTime", "array" := "Array(String)",
    "boolean" := "UInt8"]

  /** The object `convertClickHouseToFlat` returns: `{type, nullable}`, or
      `{type: 'array', elementType}` (which has no `nullable` property) for an
      `Array(...)` type. */
  datatype FlatMapping =
    | Plain(typ: string, nullable: bool)
    | ArrayOf(elementType: string)
  {
    function Type(): string
    {
      if ArrayOf? then "array" else typ
    }

    /** The `nullable` property as a later call reads it: absent is falsy. */
    predicate IsNullable()
    {
      Plain? && nullable
    }
  }

  /** A table lookup with `'string'` as the fallback for unknown names. */
  function LookupFlat(name: string): (r: string)
    ensures name in ClickHouseToFlat ==> r == ClickHouseToFlat[name]
    ensures name !in ClickHouseToFlat ==> r == "string"
    ensures r in {"integer", "float", "string", "date", "datetime", "array", "nullable"}
    ensures r == "array" <==> name == "Array"
    ensures r == "nullable" <==> name == "Nullable"
  {
    if name in ClickHouseToFlat then ClickHouseToFlat[name] else "string"
  }

  function ConvertClickHouseToFlat(clickhouseType: string): (r: FlatMapping)
  {
    if StartsWith(clickhouseType, "Nullable(") then
      Plain(LookupFlat(Slice(clickhouseType, 9, -1)), true)
    else if StartsWith(clickhouseType, "Array(") then
      ArrayOf(LookupFlat(Slice(clickhouseType, 6, -1)))
    else
      Plain(LookupFlat(clickhouseType), false)
  }

  function ConvertFlatToClickHouse(flatType: string, nullable: bool): (r: string)
  {
    var base := if flatType in FlatToClickHouse then FlatToClickHouse[flatType] else "String";
    if nullable then "Nullable(" + base + ")" else base
  }

  predicate IsNumeric(t: string) { t == "integer" || t == "float" }

  predicate ValidateDataTypeCompatibility(sourceType: string, targetType: string)
  {
    var s := ConvertClickHouseToFlat(sourceType).Type();
    var t := ConvertClickHouseToFlat(targetType).Type();
    s == t || (IsNumeric(s) && IsNumeric(t)) || s == "string"
  }

  /** `getDefaultValue`; `nowIso` stands for `new Date().toISOString()`. */
  function GetDefaultValue(flatType: string, nowIso: string): (r: JsValue)
  {
    if flatType == "integer" || flatType == "float" then JNum(0)
    else if flatType == "string" then JStr("")
    else if flatType == "date" || flatType == "datetime" then JStr(nowIso)
    else if flatType == "boolean" then JBool(false)
    else if flatType == "array" then JArr([])
    else JNull
  }

  // ---- properties ---------------------------------------------------------

  lemma SliceOfWrapped(prefix: string, x: string)
    ensures Slice(prefix + x + ")", |prefix|, -1) == x
  {
    var s := prefix + x + ")";
    assert SliceIndex(-1, |s|) == |s| - 1;
    assert s[|prefix|..|s| - 1] == x;
  }

  /** A name starting with neither `N` nor `A` carries no wrapper. */
  lemma PlainName(s: string)
    requires |s| > 0 && s[0] != 'N' && s[0] != 'A'
    ensures ConvertClickHouseToFlat(s) == Plain(LookupFlat(s), false)
  {
    if |s| >= 6 { assert s[..6][0] == s[0]; }
    if |s| >= 9 { assert s[..9][0] == s[0]; }
  }

  /** `Nullable(X)` is read as the mapping of `X`, marked nullable. */
  lemma NullableUnwrapsOneLevel(x: string)
    ensures ConvertClickHouseToFlat("Nullable(" + x + ")") == Plain(LookupFlat(x), true)
  {
    var s := "Nullable(" + x + ")";
    assert s[..9] == "Nullable(";
    SliceOfWrapped("Nullable(", x);
  }

  /** `Array(X)` is read as an array whose element type is the mapping of `X`. */
  lemma ArrayUnwrapsOneLevel(x: string)
    ensures ConvertClickHouseToFlat("Array(" + x + ")") == ArrayOf(LookupFlat(x))
  {
    var s := "Array(" + x + ")";
    assert s[..6] == "Array(";
    assert s[0] != 'N';
    SliceOfWrapped("Array(", x);
  }

  /** Only one wrapper level is understood: a nested `Array(...)` inside
      `Nullable(...)` is not a key of the table and falls back to `string`. */
  lemma NestedWrapperFallsBack()
    ensures ConvertClickHouseToFlat("Nullable(Array(String))") == Plain("string", true)
  {
    NullableUnwrapsOneLevel("Array(String)");
  }

  /** A logical type the reverse table knows, other than `array` and
      `boolean`, survives the round trip to a native type and back. */
  lemma {:induction false} FlatRoundTrip(t: string, nullable: bool)
    requires t in {"integer", "float", "string", "date", "datetime"}
    ensures ConvertClickHouseToFlat(ConvertFlatToClickHouse(t, nullable)) == Plain(t, nullable)
  {
    var base := FlatToClickHouse[t];
    if nullable {
      NullableUnwrapsOneLevel(base);
    } else {
      PlainName(base);
    }
  }

  /** The round trip of the remaining logical types: `boolean` comes back as
      `integer`, `array` as an array of strings (or as a nullable string), and
      an unknown name as `string`. */
  lemma {:induction false} FlatRoundTripOthers(t: string, nullable: bool)
    requires t !in {"integer", "float", "string", "date", "datetime"}
    ensures var back := ConvertClickHouseToFlat(ConvertFlatToClickHouse(t, nullable));
      back == (if t == "boolean" then Plain("integer", nullable)
               else if t == "array" && !nullable then ArrayOf("string")
               else Plain("string", nullable))
  {
    var base := if t in FlatToClickHouse then FlatToClickHouse[t] else "String";
    if nullable {
      NullableUnwrapsOneLevel(base);
    } else if t == "array" {
      assert base == "Array(" + "String" + ")";
      ArrayUnwrapsOneLevel("String");
    } else {
      PlainName(base);
    }
  }

  /** The logical type of every reading is a value of the table or the
      fallback: the conversion never fails. */
  lemma ConvertTypeRange(clickhouseType: string)
    ensures ConvertClickHouseToFlat(clickhouseType).Type()
      in {"integer", "float", "string", "date", "datetime", "array", "nullable"}
  {
  }

  /** Reading a native type, writing the reading back and checking the two
      for compatibility succeeds exactly when the reading is neither the
      table's own `nullable` entry nor a nullable `array`: `Nullable`,
      `Nullable(Nullable)` and `Nullable(Array)` fail the round trip. */
  lemma {:induction false} NativeRoundTripCompatible(native: string)
    ensures var m := ConvertClickHouseToFlat(native);
      ValidateDataTypeCompatibility(native, ConvertFlatToClickHouse(m.Type(), m.IsNullable()))
      <==> !(m.Type() == "nullable" || (m.Type() == "array" && m.IsNullable()))
  {
    var m := ConvertClickHouseToFlat(native);
    ConvertTypeRange(native);
    if m.Type() in {"integer", "float", "string", "date", "datetime"} {
      FlatRoundTrip(m.Type(), m.IsNullable());
    } else {
      FlatRoundTripOthers(m.Type(), m.IsNullable());
    }
  }

  lemma BareNullableFailsRoundTrip()
    ensures ConvertClickHouseToFlat("Nullable") == Plain("nullable", false)
    ensures !ValidateDataTypeCompatibility("Nullable", ConvertFlatToClickHouse("nullable", false))
  {
    assert !StartsWith("Nullable", "Nullable(");
    assert "Nullable"[..6][0] == 'N';
    PlainName("String");
  }

  /** Compatibility is reflexive, holds between numeric types in both
      directions, and from a string source to anything; it is not symmetric. */
  lemma CompatibilityShape(a: string, b: string)
    ensures ValidateDataTypeCompatibility(a, a)
    ensures ConvertClickHouseToFlat(a).Type() == "string" ==> ValidateDataTypeCompatibility(a, b)
    ensures IsNumeric(ConvertClickHouseToFlat(a).Type()) && IsNumeric(ConvertClickHouseToFlat(b).Type())
      ==> ValidateDataTypeCompatibility(a, b) && ValidateDataTypeCompatibility(b, a)
    ensures ValidateDataTypeCompatibility(a, b) && !ValidateDataTypeCompatibility(b, a)
      ==> ConvertClickHouseToFlat(a).Type() == "string"
  {
  }

  lemma CompatibilityNotSymmetric()
    ensures ValidateDataTypeCompatibility("String", "Int32")
    ensures !ValidateDataTypeCompatibility("Int32", "String")
  {
    PlainName("String");
    PlainName("Int32");
  }

  /** Every logical type the reverse table knows has a non-null default; any
      other name defaults to `null`. Dates default to the current instant. */
  lemma DefaultValueMatchesType(t: string, nowIso: string)
    ensures t in FlatToClickHouse <==> GetDefaultValue(t, nowIso) != JNull
    ensures t == "integer" || t == "float" <==> GetDefaultValue(t, nowIso) == JNum(0)
    ensures t == "date" || t == "datetime" ==> GetDefaultValue(t, nowIso) == JStr(nowIso)
    ensures t == "string" ==> GetDefaultValue(t, nowIso) == JStr("")
    ensures t == "boolean" ==> GetDefaultValue(t, nowIso) == JBool(false)
    ensures t == "array" ==> GetDefaultValue(t, nowIso) == JArr([])
  {
  }
}
