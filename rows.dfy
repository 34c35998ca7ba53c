/** The rows a directive works on. The `Row` class of the wrangler API is not
    part of this model; it is taken to be an ordered list of named fields in
    which `getValue(name)` returns the value of the first field with exactly
    that name (or `null`), and `add` appends a field. */
module Rows {
  import opened ByteSizeToken
  import opened TimeDurationToken

  /** The objects a row field can hold, as far as the modelled code tells
      them apart. */
  datatype Value =
    | Null
    | Bytes(size: ByteSize)
    | Duration(time: TimeDuration)
    | Str(s: string)
    | Number(n: int)

  datatype Row = Row(fields: seq<(string, Value)>)

  function GetValue(r: Row, name: string): (v: Value)
    ensures v != Null ==> exists i :: 0 <= i < |r.fields| && r.fields[i] == (name, v)
    decreases |r.fields|
  {
    if r.fields == [] then Null
    else if r.fields[0].0 == name then r.fields[0].1
    else GetValue(Row(r.fields[1..]), name)
  }

  /** `new Row(row)` followed by `add(name, v)`: a copy with one more field. */
  function Add(r: Row, name: string, v: Value): Row
  {
    Row(r.fields + [(name, v)])
  }

  /** Appending a field does not hide the fields already there, and a name
      not yet present reads back the appended value. */
  lemma {:induction false} GetValueAfterAdd(r: Row, name: string, v: Value, other: string)
    ensures GetValue(Add(r, name, v), other) ==
      (if GetValue(r, other) != Null || other != name then GetValue(r, other)
       else if (exists i :: 0 <= i < |r.fields| && r.fields[i].0 == name) then Null
       else v)
    decreases |r.fields|
  {
    if r.fields != [] {
      assert Add(r, name, v).fields[1..] == Add(Row(r.fields[1..]), name, v).fields;
      GetValueAfterAdd(Row(r.fields[1..]), name, v, other);
      if r.fields[0].0 != other && other == name && GetValue(r, other) == Null {
        var tail := Row(r.fields[1..]);
        if exists i :: 0 <= i < |tail.fields| && tail.fields[i].0 == name {
          var i :| 0 <= i < |tail.fields| && tail.fields[i].0 == name;
          assert r.fields[i + 1].0 == name;
        }
        if exists i :: 0 <= i < |r.fields| && r.fields[i].0 == name {
          var i :| 0 <= i < |r.fields| && r.fields[i].0 == name;
          assert i != 0;
          assert tail.fields[i - 1].0 == name;
        }
      }
    }
  }
}
