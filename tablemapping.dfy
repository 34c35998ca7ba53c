/** The table-mapping registry of the backend: a repository of mappings,
    each addressed by its table name. The repository's rows are kept in
    `findAll` order; `save` of a new mapping assigns the next identifier. */
module TableMappingService {
  import opened Wrappers

  /** A stored mapping, as the service reads and sets it. `columnMappings`
      pairs a target column with the source column it is filled from. */
  datatype TableMapping = TableMapping(
    id: int,
    tableName: string,
    schemaDefinition: string,
    columnMappings: seq<(string, string)>)

  datatype TableMappingRequest = TableMappingRequest(
    tableName: string,
    schemaDefinition: string,
    columnMappings: seq<(string, string)>)

  function AlreadyExists(tableName: string): string
  {
    "Table mapping already exists for table: " + tableName
  }

  function NotFound(tableName: string): string
  {
    "Table mapping not found for table: " + tableName
  }

  /** `findByTableName`: the position of the row with that name, or -1. */
  function IndexOfName(ms: seq<TableMapping>, name: string): (i: int)
    ensures -1 <= i < |ms|
    ensures i >= 0 ==> ms[i].tableName == name
    ensures i < 0 <==> forall j :: 0 <= j < |ms| ==> ms[j].tableName != name
    decreases |ms|
  {
    if ms == [] then -1
    else if ms[0].tableName == name then 0
    else
      var k := IndexOfName(ms[1..], name);
      if k < 0 then -1 else k + 1
  }

  /** No two rows share a table name, and identifiers are distinct and
      below the next one to be assigned. */
  predicate UniqueNames(ms: seq<TableMapping>)
  {
    forall i, j :: 0 <= i < j < |ms| ==> ms[i].tableName != ms[j].tableName
  }

  predicate WellFormed(ms: seq<TableMapping>, nextId: int)
  {
    UniqueNames(ms) && nextId >= 1 &&
    (forall i :: 0 <= i < |ms| ==> 1 <= ms[i].id < nextId) &&
    (forall i, j :: 0 <= i < j < |ms| ==> ms[i].id != ms[j].id)
  }

  class TableMappingRegistry {
    var mappings: seq<TableMapping>
    var nextId: int

    predicate Valid()
      reads this
    {
      WellFormed(mappings, nextId)
    }

    constructor ()
      ensures Valid() && mappings == [] && nextId == 1
    {
      mappings := [];
      nextId := 1;
    }

    /** `getTableMapping`. */
    function Get(tableName: string): (r: Result<TableMapping>)
      reads this
      ensures r.Err? <==> forall j :: 0 <= j < |mappings| ==> mappings[j].tableName != tableName
      ensures r.Err? ==> r.error == NotFound(tableName)
      ensures r.Ok? ==> r.value in mappings && r.value.tableName == tableName
    {
      var i := IndexOfName(mappings, tableName);
      if i < 0 then Err(NotFound(tableName)) else Ok(mappings[i])
    }

    /** `getAllTableMappings`: every listed mapping is the one `Get` finds
        under its name. */
    function GetAll(): (r: seq<TableMapping>)
      requires Valid()
      reads this
      ensures |r| == |mappings|
      ensures forall i :: 0 <= i < |r| ==> Get(r[i].tableName) == Ok(r[i])
    {
      forall i | 0 <= i < |mappings| ensures Get(mappings[i].tableName) == Ok(mappings[i]) {
        FoundIsUnique(mappings, i);
      }
      mappings
    }

    method CreateTableMapping(request: TableMappingRequest) returns (r: Result<TableMapping>)
      requires Valid()
      modifies this
      ensures Valid()
      ensures old(Get(request.tableName)).Ok? ==>
        r == Err(AlreadyExists(request.tableName)) && mappings == old(mappings) && nextId == old(nextId)
      ensures old(Get(request.tableName)).Err? ==>
        r == Ok(TableMapping(old(nextId), request.tableName, request.schemaDefinition, request.columnMappings)) &&
        mappings == old(mappings) + [r.value] && nextId == old(nextId) + 1
      ensures r.Ok? ==> Get(request.tableName) == r
    {
      if IndexOfName(mappings, request.tableName) >= 0 {
        return Err(AlreadyExists(request.tableName));
      }
      var m := TableMapping(nextId, request.tableName, request.schemaDefinition, request.columnMappings);
      AppendFresh(mappings, m);
      mappings := mappings + [m];
      nextId := nextId + 1;
      r := Ok(m);
    }

    /** `updateTableMapping`: the stored row keeps its id and table name and
        takes the request's schema and column mappings; the request's own
        table name is not used. */
    method UpdateTableMapping(tableName: string, request: TableMappingRequest) returns (r: Result<TableMapping>)
      requires Valid()
      modifies this
      ensures Valid() && nextId == old(nextId) && |mappings| == |old(mappings)|
      ensures old(Get(tableName)).Err? ==> r == old(Get(tableName)) && mappings == old(mappings)
      ensures old(Get(tableName)).Ok? ==>
        r == Ok(old(Get(tableName)).value.(schemaDefinition := request.schemaDefinition,
                                            columnMappings := request.columnMappings)) &&
        Get(tableName) == r &&
        (forall j :: 0 <= j < |mappings| && old(mappings)[j].tableName != tableName ==> mappings[j] == old(mappings)[j])
    {
      var i := IndexOfName(mappings, tableName);
      if i < 0 {
        return Err(NotFound(tableName));
      }
      var u := mappings[i].(schemaDefinition := request.schemaDefinition, columnMappings := request.columnMappings);
      mappings := mappings[i := u];
      FoundIsUnique(mappings, i);
      r := Ok(u);
    }

    /** `deleteTableMapping`: removes the one row with that name. */
    method DeleteTableMapping(tableName: string) returns (r: Result<()>)
      requires Valid()
      modifies this
      ensures Valid() && nextId == old(nextId)
      ensures old(Get(tableName)).Err? ==> r == Err(NotFound(tableName)) && mappings == old(mappings)
      ensures old(Get(tableName)).Ok? ==>
        r == Ok(()) && Get(tableName).Err? &&
        multiset(mappings) + multiset{old(Get(tableName)).value} == multiset(old(mappings)) &&
        (forall m :: m in old(mappings) && m.tableName != tableName ==> m in mappings)
    {
      var i := IndexOfName(mappings, tableName);
      if i < 0 {
        return Err(NotFound(tableName));
      }
      RemoveFound(mappings, nextId, i);
      mappings := Without(mappings, i);
      r := Ok(());
    }
  }

  /** With unique names the row at position i is the one found by its name. */
  lemma FoundIsUnique(ms: seq<TableMapping>, i: int)
    requires UniqueNames(ms) && 0 <= i < |ms|
    ensures IndexOfName(ms, ms[i].tableName) == i
  {
    var k := IndexOfName(ms, ms[i].tableName);
    assert k >= 0;
    assert ms[k].tableName == ms[i].tableName;
  }

  /** The rows without the one at position i. */
  function Without(ms: seq<TableMapping>, i: int): (r: seq<TableMapping>)
    requires 0 <= i < |ms|
    ensures |r| == |ms| - 1
    ensures forall j :: 0 <= j < i ==> r[j] == ms[j]
    ensures forall j :: i <= j < |r| ==> r[j] == ms[j + 1]
    ensures multiset(r) + multiset{ms[i]} == multiset(ms)
  {
    assert ms == ms[..i] + [ms[i]] + ms[i + 1..];
    ms[..i] + ms[i + 1..]
  }

  /** Removing the row at position i keeps the invariant, leaves no row of
      that name and keeps every other row. */
  lemma RemoveFound(ms: seq<TableMapping>, nextId: int, i: int)
    requires WellFormed(ms, nextId) && 0 <= i < |ms|
    ensures WellFormed(Without(ms, i), nextId)
    ensures forall j :: 0 <= j < |Without(ms, i)| ==> Without(ms, i)[j].tableName != ms[i].tableName
    ensures forall m :: m in ms && m.tableName != ms[i].tableName ==> m in Without(ms, i)
  {
    var rest := Without(ms, i);
    forall a, b | 0 <= a < b < |rest|
      ensures rest[a].tableName != rest[b].tableName && rest[a].id != rest[b].id
    {
      var a' := if a < i then a else a + 1;
      var b' := if b < i then b else b + 1;
      assert rest[a] == ms[a'] && rest[b] == ms[b'] && a' < b';
    }
    forall j | 0 <= j < |rest| ensures rest[j].tableName != ms[i].tableName && 1 <= rest[j].id < nextId {
      var j' := if j < i then j else j + 1;
      assert rest[j] == ms[j'] && j' != i;
    }
    forall m | m in ms && m.tableName != ms[i].tableName ensures m in rest {
      var k :| 0 <= k < |ms| && ms[k] == m;
      if k < i { assert rest[k] == m; } else { assert rest[k - 1] == m; }
    }
  }

  /** Appending a row with a new name and a new identifier keeps the
      registry's invariant. */
  lemma AppendFresh(ms: seq<TableMapping>, m: TableMapping)
    requires UniqueNames(ms)
    requires forall j :: 0 <= j < |ms| ==> ms[j].tableName != m.tableName
    ensures UniqueNames(ms + [m])
    ensures IndexOfName(ms + [m], m.tableName) == |ms|
  {
    FoundIsUnique(ms + [m], |ms|);
  }

  /** Creating two mappings for the same table: the second is refused and
      the first stays as it was. */
  method CreateTwice(request: TableMappingRequest, other: TableMappingRequest) returns (first: Result<TableMapping>, second: Result<TableMapping>)
    requires other.tableName == request.tableName
    ensures first.Ok? && first.value.schemaDefinition == request.schemaDefinition
    ensures first.value.columnMappings == request.columnMappings
    ensures second == Err(AlreadyExists(request.tableName))
  {
    var registry := new TableMappingRegistry();
    first := registry.CreateTableMapping(request);
    second := registry.CreateTableMapping(other);
  }
}
