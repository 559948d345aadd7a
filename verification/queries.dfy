/**
 * The SQL text that source/DatabaseHandler.py assembles. Every statement is
 * built by joining fixed keywords, the caller's names and values, and the
 * rendered conditions with Python's `str.join`; nothing is quoted or
 * checked, so the text is treated here as an opaque string.
 */
module Queries {
  import opened Text

  /** A condition or assignment tuple `(column, operator, value)`. */
  datatype Triple = Triple(column: string, op: string, value: string)

  /** One tuple as `str(t[0]) + " " + str(t[1]) + " " + str(t[2])`. */
  function Render(t: Triple): (r: string)
    ensures |r| == |t.column| + |t.op| + |t.value| + 2
    ensures StartsWith(r, t.column + " ") && EndsWith(r, " " + t.value)
    ensures r[|t.column| + 1..|t.column| + 1 + |t.op|] == t.op
  {
    var r := t.column + " " + t.op + " " + t.value;
    assert r == (t.column + " ") + (t.op + " " + t.value);
    assert r == (t.column + " " + t.op) + (" " + t.value);
    r
  }

  /** The rendered tuples, in order. */
  function Fragments(conds: seq<Triple>): seq<string>
  {
    seq(|conds|, i requires 0 <= i < |conds| => Render(conds[i]))
  }

  /** The text of `tuple_list_to_statement`: the fragments joined by a bare comma. */
  function Statement(conds: seq<Triple>): (s: string)
    ensures s == "" <==> conds == []
  {
    Join(",", Fragments(conds))
  }

  /** The text of `where_clause`. */
  function WhereClause(conds: seq<Triple>): (w: string)
    ensures |w| >= 6 && w[..6] == "WHERE "
    ensures w == "WHERE " <==> conds == []
  {
    "WHERE " + Statement(conds)
  }

  /** The statement `insert` hands to the driver. Values are not quoted. */
  function InsertQuery(table: string, data: seq<string>, columns: seq<string>): (q: string)
    ensures q == "INSERT INTO " + table + " (" + Join(",", columns) + ") VALUES ("
                 + Join(",", data) + ");"
  {
    var cols := "(" + Join(",", columns) + ")";
    var args := "(" + Join(",", data) + ")";
    JoinFive(" ", "INSERT INTO", table, cols, "VALUES", args);
    Join(" ", ["INSERT INTO", table, cols, "VALUES", args]) + ";"
  }

  /**
   * The statement `select` hands to the driver. The special case for the
   * column list `["*"]` makes no difference to the text, and the space
   * before the where part stays when there are no conditions.
   */
  function SelectQuery(table: string, cols: seq<string>, conds: seq<Triple>, distinct: bool): (q: string)
    ensures q == (if distinct then "SELECT DISTINCT" else "SELECT") + " " + Join(", ", cols)
                 + " FROM " + table + " " + (if conds == [] then "" else WhereClause(conds)) + ";"
  {
    var keyword := if !distinct then "SELECT" else "SELECT DISTINCT";
    var args := if cols == ["*"] then "*" else Join(", ", cols);
    var from := "FROM " + table;
    var where := if conds != [] then WhereClause(conds) else "";
    assert args == Join(", ", cols) by { StarIsPlainJoin(); }
    JoinFour(" ", keyword, args, from, where);
    var head := keyword + " " + args;
    assert head + " " + from == head + " FROM " + table;
    Join(" ", [keyword, args, from, where]) + ";"
  }

  /** The statement `update` hands to the driver once its data are assignment triples. */
  function UpdateQuery(table: string, assignments: seq<Triple>, conds: seq<Triple>): (q: string)
    ensures q == "UPDATE " + table + " SET " + Statement(assignments) + " "
                 + WhereClause(conds) + ";"
  {
    var keyword := "UPDATE " + table + " SET";
    var assigns := Statement(assignments);
    var where := WhereClause(conds);
    JoinSnoc(" ", [keyword], assigns);
    assert [keyword, assigns] + [where] == [keyword, assigns, where];
    JoinSnoc(" ", [keyword, assigns], where);
    Join(" ", [keyword, assigns, where]) + ";"
  }

  /** The statement `delete` hands to the driver. */
  function DeleteQuery(table: string, conds: seq<Triple>): (q: string)
    ensures q == "DELETE FROM " + table + " " + WhereClause(conds) + ";"
  {
    var keyword := "DELETE FROM " + table;
    JoinTwo(" ", keyword, WhereClause(conds));
    Join(" ", [keyword, WhereClause(conds)]) + ";"
  }

  /** The introspection statement `get_table_name` sends for a table. */
  function PragmaQuery(name: string): (q: string)
    ensures |q| == |name| + 21 && q[19..|q| - 2] == name
    ensures StartsWith(q, "PRAGMA table_info('") && EndsWith(q, "')")
  {
    "PRAGMA table_info('" + name + "')"
  }

  /** Adding one tuple adds one fragment, after a comma unless it is the first. */
  lemma StatementSnoc(conds: seq<Triple>, t: Triple)
    ensures Statement(conds + [t]) ==
      if conds == [] then Render(t) else Statement(conds) + "," + Render(t)
  {
    assert Fragments(conds + [t]) == Fragments(conds) + [Render(t)];
    assert Fragments(conds + [t])[..|conds|] == Fragments(conds);
  }

  /** The statement of two condition lists is their statements joined by one comma. */
  lemma StatementAppend(a: seq<Triple>, b: seq<Triple>)
    requires a != [] && b != []
    ensures Statement(a + b) == Statement(a) + "," + Statement(b)
  {
    assert Fragments(a + b) == Fragments(a) + Fragments(b);
    JoinAppend(",", Fragments(a), Fragments(b));
  }

  /**
   * The conditions are separated by commas and nothing else: when no field
   * contains a comma, splitting the statement on commas gives back exactly
   * the rendered tuples, so no AND or OR is ever inserted between them.
   */
  lemma StatementSplits(conds: seq<Triple>)
    requires conds != []
    requires forall i :: 0 <= i < |conds| ==>
      ',' !in conds[i].column && ',' !in conds[i].op && ',' !in conds[i].value
    ensures Split(',', Statement(conds)) == Fragments(conds)
  {
    var fs := Fragments(conds);
    forall i | 0 <= i < |fs| ensures ',' !in fs[i] {
      assert fs[i] == conds[i].column + " " + conds[i].op + " " + conds[i].value;
    }
    SplitJoin(',', fs);
  }

  /** Without conditions a select ends right after the table name, a space and the semicolon. */
  lemma SelectWithoutCondition(table: string, cols: seq<string>, distinct: bool)
    ensures var q := SelectQuery(table, cols, [], distinct);
      |q| >= |table| + 8 && q[|q| - |table| - 8..] == " FROM " + table + " ;"
  {
    var head := (if distinct then "SELECT DISTINCT" else "SELECT") + " " + Join(", ", cols);
    var tail := " FROM " + table + " ;";
    assert SelectQuery(table, cols, [], distinct) == head + tail;
    assert (head + tail)[|head|..] == tail;
  }

  /** Without conditions an update and a delete both end in a dangling `WHERE ;`. */
  lemma EmptyConditionDangles(table: string, assignments: seq<Triple>)
    ensures var q := UpdateQuery(table, assignments, []);
      |q| >= 8 && q[|q| - 8..] == " WHERE ;"
    ensures var q := DeleteQuery(table, []);
      q == "DELETE FROM " + table + " WHERE ;"
  {
  }

  /** Listing the single column "*" gives the same text the general join would. */
  lemma StarIsPlainJoin()
    ensures Join(", ", ["*"]) == "*"
  {
  }
}
