/**
 * The data access object of source/DatabaseHandler.py: a registry of the
 * tables in use and the methods that build a statement, hand it to the
 * driver and shape the rows that come back.
 *
 * The sqlite driver is not modelled. What a statement returns is a
 * parameter (`response`, `pragmaRows`) supplied by the caller of the model,
 * and the ghost field `executed` records, in order, every statement text
 * handed to the driver.
 */
module Database {
  import opened Wrappers
  import opened Text
  import opened Queries
  import Logging

  /** A field of a returned row, as text. */
  type Value = string

  /** One row returned by the driver. */
  type Row = seq<Value>

  /** The exceptions the modelled code can raise. */
  datatype Exception = KeyError(key: string) | IndexError

  /**
   * An element of the list `update` receives: a `(column, value)` pair, or
   * a tuple already in `(column, operator, value)` form. The source
   * rewrites the list in place, so both shapes live in one list.
   */
  datatype Entry = Pair(column: string, value: string) | Cond(triple: Triple)

  /** `e[0]` of the tuple. */
  function First(e: Entry): string
  {
    match e
    case Pair(c, _) => c
    case Cond(t) => t.column
  }

  /** `e[1]` of the tuple. */
  function Second(e: Entry): string
  {
    match e
    case Pair(_, v) => v
    case Cond(t) => t.op
  }

  /** The assignment `(e[0], "=", e[1])` that `update` makes of an element. */
  function Assignment(e: Entry): Triple
  {
    Triple(First(e), "=", Second(e))
  }

  /** The assignments made of a whole list. */
  function Assignments(es: seq<Entry>): seq<Triple>
  {
    seq(|es|, i requires 0 <= i < |es| => Assignment(es[i]))
  }

  /** The tuples of a list every element of which is already a triple. */
  function Triples(es: seq<Entry>): seq<Triple>
    requires forall i :: 0 <= i < |es| ==> es[i].Cond?
  {
    seq(|es|, i requires 0 <= i < |es| => es[i].triple)
  }

  function Min(a: nat, b: nat): nat
  {
    if a <= b then a else b
  }

  /** Python's `list(zip(cols, row))`: pairs up to the shorter of the two. */
  function Zip(cols: seq<string>, row: Row): (z: seq<(string, Value)>)
    ensures |z| == Min(|cols|, |row|)
    ensures forall j :: 0 <= j < |z| ==> z[j] == (cols[j], row[j])
  {
    if cols == [] || row == [] then []
    else [(cols[0], row[0])] + Zip(cols[1..], row[1..])
  }

  /**
   * Index of the first row with fewer fields than there are columns, or
   * the number of rows when there is none.
   */
  function FirstShort(cols: seq<string>, rows: seq<Row>): (k: nat)
    ensures k <= |rows|
    ensures k < |rows| ==> |rows[k]| < |cols|
    ensures forall i :: 0 <= i < k ==> |rows[i]| >= |cols|
  {
    if rows == [] then 0
    else if |rows[0]| < |cols| then 0
    else 1 + FirstShort(cols, rows[1..])
  }

  class DatabaseHandler {
    const path: string
    /**
     * The log sink, created with the level given at construction. The log
     * calls of the methods are not modelled, so it only carries that level.
     */
    const lh: Logging.LogHandler
    /** The registry of used tables: table name to its column names. */
    var tables: map<string, seq<string>>
    /** Every statement text handed to the driver, oldest first. */
    ghost var executed: seq<string>

    constructor(path: string, logLevel: int)
      ensures this.path == path && lh == Logging.LogHandler(logLevel)
      ensures tables == map[] && executed == []
    {
      this.path := path;
      lh := Logging.LogHandler(logLevel);
      tables := map[];
      executed := [];
    }

    /**
     * Runs a statement. A driver error is caught and logged by the source,
     * and the rows are fetched either way, so the statement is always
     * recorded and the rows are whatever the driver answers.
     */
    method ExecuteQuery(query: string, response: seq<Row>) returns (rows: seq<Row>)
      modifies this`executed
      ensures executed == old(executed) + [query]
      ensures rows == response
    {
      executed := executed + [query];
      rows := response;
    }

    /**
     * The column names of a table: the second field of each row of its
     * `PRAGMA table_info`, in order. A row with fewer than two fields
     * raises an IndexError.
     */
    method GetTableName(name: string, pragmaRows: seq<Row>) returns (r: Result<seq<string>, Exception>)
      modifies this`executed
      ensures executed == old(executed) + [PragmaQuery(name)]
      ensures r.Success? <==> forall i :: 0 <= i < |pragmaRows| ==> |pragmaRows[i]| >= 2
      ensures r.Failure? ==> r.error == IndexError
      ensures r.Success? ==> |r.value| == |pragmaRows|
      ensures r.Success? ==> forall i :: 0 <= i < |pragmaRows| ==> r.value[i] == pragmaRows[i][1]
    {
      executed := executed + [PragmaQuery(name)];
      var columns: seq<string> := [];
      for n := 0 to |pragmaRows|
        invariant |columns| == n
        invariant forall i :: 0 <= i < n ==> |pragmaRows[i]| >= 2 && columns[i] == pragmaRows[i][1]
      {
        var col := pragmaRows[n];
        if |col| < 2 {
          return Failure(IndexError);
        }
        columns := columns + [col[1]];
      }
      return Success(columns);
    }

    /**
     * Registers a table under the columns its PRAGMA rows name, replacing
     * any earlier entry for it; no other entry changes.
     */
    method SetUsedTable(name: string, pragmaRows: seq<Row>) returns (outcome: Outcome<Exception>)
      modifies this`tables, this`executed
      ensures executed == old(executed) + [PragmaQuery(name)]
      ensures outcome.Pass? <==> forall i :: 0 <= i < |pragmaRows| ==> |pragmaRows[i]| >= 2
      ensures outcome.Fail? ==> outcome.error == IndexError && tables == old(tables)
      ensures outcome.Pass? ==>
        name in tables && tables == old(tables)[name := tables[name]] &&
        |tables[name]| == |pragmaRows| &&
        forall i :: 0 <= i < |pragmaRows| ==> tables[name][i] == pragmaRows[i][1]
    {
      var columns := GetTableName(name, pragmaRows);
      if columns.Failure? {
        return Fail(columns.error);
      }
      tables := tables[name := columns.value];
      return Pass;
    }

    /** Removes one table from the registry; a name not registered raises a KeyError. */
    method ReleaseUsedTable(name: string) returns (outcome: Outcome<Exception>)
      modifies this`tables
      ensures outcome == if name in old(tables) then Pass else Fail(KeyError(name))
      ensures tables == old(tables) - {name}
    {
      if name !in tables {
        return Fail(KeyError(name));
      }
      tables := tables - {name};
      return Pass;
    }

    /** Empties the registry. */
    method ClearUsedTables()
      modifies this`tables
      ensures tables == map[]
    {
      tables := map[];
    }

    /** `tuple_list_to_statement`: the tuples rendered and joined by a bare comma. */
    method TupleListToStatement(tupleList: seq<Triple>) returns (statement: string)
      ensures statement == Statement(tupleList)
    {
      statement := "";
      for n := 0 to |tupleList|
        invariant statement == Statement(tupleList[..n])
      {
        var t := tupleList[n];
        var tmp := t.column + " " + t.op + " " + t.value;
        if statement == "" {
          statement := tmp;
        } else {
          statement := Join(",", [statement, tmp]);
          JoinTwo(",", Statement(tupleList[..n]), tmp);
        }
        assert tupleList[..n + 1] == tupleList[..n] + [t];
        StatementSnoc(tupleList[..n], t);
      }
      assert tupleList[..|tupleList|] == tupleList;
    }

    /**
     * The duplicate check. It pairs each value with the column at the same
     * index, then compares against an empty result, so it never reports a
     * duplicate; with fewer columns than values the pairing raises an
     * IndexError first.
     */
    method IsRegistered(tableName: string, dataList: seq<string>, colList: seq<string>)
      returns (r: Result<bool, Exception>)
      ensures r == if |colList| < |dataList| then Failure(IndexError) else Success(false)
    {
      var ret := false;
      var newList: seq<Triple> := [];
      for x := 0 to |dataList|
        invariant x <= |colList|
      {
        if x >= |colList| {
          return Failure(IndexError);
        }
        newList := newList + [Triple(dataList[x], "=", colList[x])];
      }
      var result: seq<Row> := [];
      if result != [] {
        ret := true;
      }
      return Success(ret);
    }

    /**
     * Inserts one row. The duplicate check runs outside the source's
     * try block, so its IndexError escapes and nothing is executed;
     * otherwise the insert statement is always executed.
     */
    method Insert(tableName: string, data: seq<string>, columns: seq<string>, response: seq<Row>)
      returns (outcome: Outcome<Exception>)
      modifies this`executed
      ensures outcome == if |columns| < |data| then Fail(IndexError) else Pass
      ensures executed == if |columns| < |data| then old(executed)
                          else old(executed) + [InsertQuery(tableName, data, columns)]
    {
      var registered := IsRegistered(tableName, data, columns);
      if registered.Failure? {
        return Fail(registered.error);
      }
      if registered.value {
        return Pass;
      }
      var query := InsertQuery(tableName, data, columns);
      var _ := ExecuteQuery(query, response);
      return Pass;
    }

    /**
     * The row loop of `select`. Each row's zip with the columns is appended
     * before the row is indexed by every column position, so a row shorter
     * than the column list is kept and then raises an IndexError, which
     * ends the loop.
     */
    method ZipRows(cols: seq<string>, rows: seq<Row>) returns (zipped: seq<seq<(string, Value)>>, raised: bool)
      ensures raised <==> FirstShort(cols, rows) < |rows|
      ensures |zipped| == if raised then FirstShort(cols, rows) + 1 else |rows|
      ensures forall i :: 0 <= i < |zipped| ==> zipped[i] == Zip(cols, rows[i])
    {
      zipped, raised := [], false;
      for n := 0 to |rows|
        invariant |zipped| == n
        invariant forall i :: 0 <= i < n ==> zipped[i] == Zip(cols, rows[i]) && |rows[i]| >= |cols|
      {
        var row := rows[n];
        zipped := zipped + [Zip(cols, row)];
        if |row| < |cols| {
          raised := true;
          return;
        }
      }
    }

    /**
     * Selects `cols` from a table. An empty column list raises before any
     * statement is built, and the catch-and-return leaves the empty result.
     * Otherwise the statement is executed and the result holds one zip per
     * row processed, up to and including the first row shorter than `cols`.
     */
    method Select(tableName: string, cols: seq<string>, condition: seq<Triple>, distinct: bool,
                  response: seq<Row>)
      returns (zipped: seq<seq<(string, Value)>>)
      modifies this`executed
      ensures cols == [] ==> zipped == [] && executed == old(executed)
      ensures cols != [] ==>
        executed == old(executed) + [SelectQuery(tableName, cols, condition, distinct)]
      ensures cols != [] ==>
        |zipped| == (if FirstShort(cols, response) < |response|
                     then FirstShort(cols, response) + 1 else |response|)
      ensures forall i :: 0 <= i < |zipped| ==> zipped[i] == Zip(cols, response[i])
    {
      zipped := [];
      if cols == [] {
        return;
      }
      var query := SelectQuery(tableName, cols, condition, distinct);
      var rows := ExecuteQuery(query, response);
      var raised;
      zipped, raised := ZipRows(cols, rows);
    }

    /**
     * Updates rows. The caller's list is rewritten in place, each element
     * becoming `(e[0], "=", e[1])`, and the rewritten list gives the SET
     * part of the statement.
     */
    method Update(tableName: string, data: array<Entry>, condition: seq<Triple>, response: seq<Row>)
      modifies this`executed, data
      ensures forall i :: 0 <= i < data.Length ==> data[i] == Cond(Assignment(old(data[i])))
      ensures executed ==
        old(executed) + [UpdateQuery(tableName, Assignments(old(data[..])), condition)]
    {
      ghost var original := data[..];
      var keyword := "UPDATE " + tableName + " SET";
      for i := 0 to data.Length
        modifies data
        invariant forall j :: 0 <= j < i ==> data[j] == Cond(Assignment(old(data[j])))
        invariant forall j :: i <= j < data.Length ==> data[j] == old(data[j])
      {
        data[i] := Cond(Triple(First(data[i]), "=", Second(data[i])));
      }
      assert Triples(data[..]) == Assignments(original);
      var dArgs := TupleListToStatement(Triples(data[..]));
      var cArgs := WhereClause(condition);
      var query := Join(" ", [keyword, dArgs, cArgs]) + ";";
      assert query == UpdateQuery(tableName, Assignments(original), condition);
      var _ := ExecuteQuery(query, response);
    }

    /** Deletes the rows the conditions select. */
    method Delete(tableName: string, condition: seq<Triple>, response: seq<Row>)
      modifies this`executed
      ensures executed == old(executed) + [DeleteQuery(tableName, condition)]
    {
      var query := DeleteQuery(tableName, condition);
      var _ := ExecuteQuery(query, response);
    }
  }

  /** Registering, releasing and releasing again, as a caller sees it. */
  method RegistryScenario()
  {
    var db := new DatabaseHandler("test.db", 0);
    var pragma := [["0", "a", "", "0", "", "0"], ["1", "b", "", "0", "", "0"]];
    var o := db.SetUsedTable("t", pragma);
    assert o.Pass? && |db.tables["t"]| == 2;
    assert db.tables["t"] == ["a", "b"];
    assert db.tables == map["t" := ["a", "b"]];
    o := db.ReleaseUsedTable("t");
    assert o == Pass && db.tables == map[];
    o := db.ReleaseUsedTable("t");
    assert o == Fail(KeyError("t"));
  }

  /** Select on an empty answer, and on an answer with a row shorter than the columns. */
  method SelectScenario()
  {
    var db := new DatabaseHandler("test.db", 0);
    var z := db.Select("t", ["a", "b"], [], false, []);
    assert z == [];
    z := db.Select("t", ["a", "b"], [], false, [["1", "2"], ["3"], ["4", "5"]]);
    assert FirstShort(["a", "b"], [["1", "2"], ["3"], ["4", "5"]]) == 1;
    assert |z| == 2 && z[1] == Zip(["a", "b"], ["3"]) && |z[1]| == 1;
    z := db.Select("t", [], [], false, [["1"]]);
    assert z == [];
  }

  /** Passing the same list to `update` twice: the second call sees the rewritten tuples. */
  method UpdateTwiceScenario()
  {
    var db := new DatabaseHandler("test.db", 0);
    var data := new Entry[1] [Pair("a", "1")];
    db.Update("t", data, [], []);
    assert data[0] == Cond(Triple("a", "=", "1"));
    db.Update("t", data, [], []);
    assert data[0] == Cond(Triple("a", "=", "="));
  }
}
