/** The ClickHouse connection service: a pool of data sources keyed by a
    connection id, and the batch INSERT it runs. Connecting to the server and
    executing statements are outside the model; their outcomes are passed in
    as parameters (`connectError`, `executeResult`). */
module ClickHouseConnectionService {
  import opened Wrappers
  import opened JavaNum
  import opened Text

  datatype ConnectionRequest = ConnectionRequest(
    host: string, port: string, database: string, username: string, password: string)

  /** What a `ClickHouseDataSource` is built from. */
  datatype DataSource = DataSource(url: string, user: string, password: string)

  /** `generateConnectionId`: `"%s_%s_%s"` of host, port and database. */
  function GenerateConnectionId(req: ConnectionRequest): string
  {
    req.host + "_" + req.port + "_" + req.database
  }

  function JdbcUrl(req: ConnectionRequest): string
  {
    "jdbc:clickhouse://" + req.host + ":" + req.port + "/" + req.database
  }

  function DataSourceFor(req: ConnectionRequest): DataSource
  {
    DataSource(JdbcUrl(req), req.username, req.password)
  }

  /** Looking a connection up in the pool `p` and connecting through it. */
  function Connect(p: map<string, DataSource>, connectionId: string, connectError: Option<string>): Result<DataSource>
  {
    if connectionId !in p then Err("Connection not found: " + connectionId)
    else if connectError.Some? then Err("Failed to get connection: " + connectError.value)
    else Ok(p[connectionId])
  }

  class ConnectionPool {
    var pool: map<string, DataSource>

    constructor ()
      ensures pool == map[]
    {
      pool := map[];
    }

    /** `createConnection`: an id already pooled is returned without a new
        connect; otherwise a failed connect is reported and the pool is
        left alone, and a successful one pools the new data source. */
    method CreateConnection(req: ConnectionRequest, connectError: Option<string>) returns (r: Result<string>)
      modifies this
      ensures GenerateConnectionId(req) in old(pool) ==>
        r == Ok(GenerateConnectionId(req)) && pool == old(pool)
      ensures GenerateConnectionId(req) !in old(pool) && connectError.Some? ==>
        r == Err("Failed to create connection to ClickHouse: " + connectError.value) && pool == old(pool)
      ensures GenerateConnectionId(req) !in old(pool) && connectError.None? ==>
        r == Ok(GenerateConnectionId(req)) && pool == old(pool)[GenerateConnectionId(req) := DataSourceFor(req)]
    {
      var connectionId := GenerateConnectionId(req);
      if connectionId in pool {
        return Ok(connectionId);
      }
      var dataSource := DataSourceFor(req);
      if connectError.Some? {
        return Err("Failed to create connection to ClickHouse: " + connectError.value);
      }
      pool := pool[connectionId := dataSource];
      r := Ok(connectionId);
    }

    /** `testConnection`: true exactly when the connect succeeds; it never
        touches the pool (it has no `modifies` clause). */
    method TestConnection(req: ConnectionRequest, connectError: Option<string>) returns (ok: bool)
      ensures ok <==> connectError.None?
    {
      var dataSource := DataSourceFor(req);
      ok := connectError.None?;
    }

    /** `getConnection`: an id not in the pool is an error; otherwise the
        pooled data source, unless connecting through it fails. */
    function GetConnection(connectionId: string, connectError: Option<string>): (r: Result<DataSource>)
      reads this
      ensures connectionId !in pool ==> r == Err("Connection not found: " + connectionId)
      ensures connectionId in pool && connectError.Some? ==> r == Err("Failed to get connection: " + connectError.value)
      ensures r.Ok? <==> connectionId in pool && connectError.None?
      ensures r.Ok? ==> r.value == pool[connectionId]
    {
      Connect(pool, connectionId, connectError)
    }

    /** `executeBatchInsert`. No rows: 0, and no connection is asked for.
        The error of `getConnection` is not an `SQLException`, so it reaches
        the caller unchanged; a failing batch is wrapped. The statement
        prepared is returned beside the count. */
    method ExecuteBatchInsert(connectionId: string, tableName: string, columns: seq<string>,
                              values: seq<seq<string>>, connectError: Option<string>,
                              executeResult: Result<seq<Int32>>)
      returns (r: Result<Int32>, statement: Option<string>)
      ensures values == [] ==> r == Ok(0) && statement.None?
      ensures values != [] && GetConnection(connectionId, connectError).Err? ==>
        r == Err(GetConnection(connectionId, connectError).error) && statement.None?
      ensures values != [] && GetConnection(connectionId, connectError).Ok? ==>
        statement == Some(InsertStatement(tableName, columns)) &&
        r == (if executeResult.Err? then Err("Failed to execute batch insert: " + executeResult.error)
              else Ok(WrapInt(Sum(executeResult.value))))
    {
      statement := None;
      if values == [] {
        return Ok(0), statement;
      }
      var connection := GetConnection(connectionId, connectError);
      if connection.Err? {
        return Err(connection.error), statement;
      }
      statement := Some(InsertStatement(tableName, columns));
      if executeResult.Err? {
        return Err("Failed to execute batch insert: " + executeResult.error), statement;
      }
      var total := SumResults(executeResult.value);
      r := Ok(total);
    }

    /** `closeConnection`: the id is no longer pooled, whether it was or not. */
    method CloseConnection(connectionId: string)
      modifies this
      ensures pool == old(pool) - {connectionId}
    {
      pool := pool - {connectionId};
    }
  }

  // ---- the INSERT statement -------------------------------------------------

  function Repeat(s: string, n: nat): (r: seq<string>)
    ensures |r| == n && forall i :: 0 <= i < n ==> r[i] == s
  {
    if n == 0 then [] else [s] + Repeat(s, n - 1)
  }

  /** `String.join(", ", Collections.nCopies(n, "?"))`. */
  function Placeholders(n: nat): string
  {
    Join(Repeat("?", n), ", ")
  }

  function InsertStatement(tableName: string, columns: seq<string>): string
  {
    "INSERT INTO " + tableName + " (" + Join(columns, ", ") + ") VALUES (" + Placeholders(|columns|) + ")"
  }

  /** The placeholder list holds exactly one '?' per column. */
  lemma {:induction false} PlaceholderCount(n: nat)
    ensures multiset(Placeholders(n))['?'] == n
  {
    if n >= 2 {
      PlaceholderCount(n - 1);
      assert Repeat("?", n)[1..] == Repeat("?", n - 1);
      assert Placeholders(n) == "?" + ", " + Placeholders(n - 1);
      assert multiset(", ")['?'] == 0;
    } else if n == 1 {
      assert Placeholders(1) == "?";
    }
  }

  /** Joining names free of '?' gives a text free of '?'. */
  lemma {:induction false} JoinFreeOf(parts: seq<string>, sep: string, c: char)
    requires c !in sep && forall i :: 0 <= i < |parts| ==> c !in parts[i]
    ensures c !in Join(parts, sep)
    decreases |parts|
  {
    if |parts| >= 2 {
      JoinFreeOf(parts[1..], sep, c);
    }
  }

  /** The statement has one '?' for each column (and no other), as long as
      no name in it contains a '?'. */
  lemma InsertStatementPlaceholders(tableName: string, columns: seq<string>)
    requires '?' !in tableName && forall i :: 0 <= i < |columns| ==> '?' !in columns[i]
    ensures multiset(InsertStatement(tableName, columns))['?'] == |columns|
  {
    var head := StatementHead(tableName, columns);
    var ph := Placeholders(|columns|);
    PlaceholderCount(|columns|);
    assert InsertStatement(tableName, columns) == head + ph + ")";
    CountBetween(head, ph, ')', '?');
  }

  lemma CountBetween(head: string, middle: string, last: char, c: char)
    requires c !in head && c != last
    ensures multiset(head + middle + [last])[c] == multiset(middle)[c]
  {
    assert multiset(head + middle + [last]) == multiset(head) + multiset(middle) + multiset([last]);
  }

  /** The statement up to its placeholder list. */
  function StatementHead(tableName: string, columns: seq<string>): (h: string)
    requires '?' !in tableName && forall i :: 0 <= i < |columns| ==> '?' !in columns[i]
    ensures '?' !in h
  {
    JoinFreeOf(columns, ", ", '?');
    "INSERT INTO " + tableName + " (" + Join(columns, ", ") + ") VALUES ("
  }

  lemma InsertStatementExample()
    ensures InsertStatement("t", ["a", "b"]) == "INSERT INTO t (a, b) VALUES (?, ?)"
  {
    assert Join(["b"], ", ") == "b";
    assert Join(["a", "b"], ", ") == "a, b";
    assert Repeat("?", 2) == ["?", "?"];
    assert Join(["?"], ", ") == "?";
    assert Placeholders(2) == "?, ?";
  }

  // ---- the row count ----------------------------------------------------------

  function Sum(xs: seq<int>): int
  {
    if xs == [] then 0 else Sum(xs[..|xs| - 1]) + xs[|xs| - 1]
  }

  /** The `totalRows += result` loop, in `int` arithmetic. */
  method SumResults(results: seq<Int32>) returns (total: Int32)
    ensures total == WrapInt(Sum(results))
  {
    total := 0;
    var i := 0;
    while i < |results|
      invariant 0 <= i <= |results|
      invariant total == WrapInt(Sum(results[..i]))
    {
      assert results[..i + 1][..i] == results[..i];
      WrapAddInt(Sum(results[..i]), results[i]);
      total := WrapInt(total + results[i]);
      i := i + 1;
    }
    assert results[..i] == results;
  }

  /** A batch of two single-row statements counts 2 rows. */
  lemma SumExample()
    ensures WrapInt(Sum([1, 1])) == 2
  {
    assert [1, 1][..1] == [1];
    assert Sum([1]) == 1;
  }

  /** While the sum fits an `int`, the count is the plain sum. */
  lemma SumFits(results: seq<Int32>)
    requires INT_MIN <= Sum(results) <= INT_MAX
    ensures WrapInt(Sum(results)) == Sum(results)
  {
  }

  // ---- connection ids -----------------------------------------------------------

  /** The position of the first `c` in `s`, or `|s|`. */
  function FirstIndex(s: string, c: char): nat
    decreases |s|
  {
    if s == [] || s[0] == c then 0 else 1 + FirstIndex(s[1..], c)
  }

  lemma {:induction false} FirstIndexAfter(a: string, c: char, rest: string)
    requires c !in a
    ensures FirstIndex(a + [c] + rest, c) == |a|
    decreases |a|
  {
    if a != [] {
      assert (a + [c] + rest)[1..] == a[1..] + [c] + rest;
      FirstIndexAfter(a[1..], c, rest);
    }
  }

  /** Splitting at the first separator: when the head has no '_', the id
      determines it. */
  lemma FirstFieldDetermined(a: string, r: string, b: string, t: string)
    requires '_' !in a && '_' !in b && a + "_" + r == b + "_" + t
    ensures a == b && r == t
  {
    var s := a + "_" + r;
    FirstIndexAfter(a, '_', r);
    FirstIndexAfter(b, '_', t);
    assert a == s[..|a|] == b;
    assert r == s[|a| + 1..] == t;
  }

  /** With host and port free of '_' the id names exactly one host, port
      and database, so `createConnection` reuses a pooled source only for
      the same server. */
  lemma ConnectionIdInjective(x: ConnectionRequest, y: ConnectionRequest)
    requires '_' !in x.host && '_' !in x.port && '_' !in y.host && '_' !in y.port
    requires GenerateConnectionId(x) == GenerateConnectionId(y)
    ensures x.host == y.host && x.port == y.port && x.database == y.database
  {
    assert GenerateConnectionId(x) == x.host + "_" + (x.port + "_" + x.database);
    assert GenerateConnectionId(y) == y.host + "_" + (y.port + "_" + y.database);
    FirstFieldDetermined(x.host, x.port + "_" + x.database, y.host, y.port + "_" + y.database);
    FirstFieldDetermined(x.port, x.database, y.port, y.database);
  }

  /** Without that restriction two different servers share an id, and the
      second `createConnection` returns the first one's pooled source. */
  lemma ConnectionIdCollision()
    ensures GenerateConnectionId(ConnectionRequest("a_b", "1", "db", "u", "p")) ==
            GenerateConnectionId(ConnectionRequest("a", "b_1", "db", "u", "p"))
  {
  }

  /** A repeat `createConnection` for the same server returns the same id
      and keeps the pooled data source, even if connecting would now fail. */
  method CreateTwice(p: ConnectionPool, req: ConnectionRequest, laterError: Option<string>)
    returns (first: Result<string>, second: Result<string>)
    modifies p
    ensures first.Ok? ==> second == first && p.pool.Keys == old(p.pool).Keys + {GenerateConnectionId(req)}
    ensures GenerateConnectionId(req) in old(p.pool) ==> p.pool == old(p.pool)
  {
    first := p.CreateConnection(req, None);
    second := p.CreateConnection(req, laterError);
  }
}
