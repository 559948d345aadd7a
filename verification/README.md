# python-sqlite-wrapper, modelled in Dafny

This project models the two components of a small Python wrapper around
sqlite:

- **`DatabaseHandler`**, a data access object. It keeps a registry of the
  tables "in use" (table name to column names). It builds INSERT, SELECT,
  UPDATE and DELETE statements by joining keywords, names, values and
  condition tuples into text, hands them to the driver, and shapes the rows
  that come back.
- **`LogHandler`**, a log sink. Each of its five severity methods prints one
  tagged line when its fixed comparison against the level chosen at
  construction lets it through.

SQL is treated as opaque text. The sqlite driver is not modelled: what a
statement returns (`response`, `pragmaRows`) is a parameter, and the ghost
field `executed` of `DatabaseHandler` records every statement text handed to
the driver, in order.

Files:

- `wrappers.dfy`: `Option`, `Result` and `Outcome`. They stand in for Python's return values and raised exceptions.
- `text.dfy`: Python's `str.join`, `str.startswith` and `str.endswith`, and `str.split` on one character, which recovers the parts of a join.
- `logging.dfy`: the log sink. A `LogHandler` never changes its level, so it is a datatype value. Each method returns the line it would print, or `None`.
- `queries.dfy`: the statement texts as functions of their arguments. Each builder mirrors the source's `" ".join([...]) + ";"`, and its contract writes the text out.
- `database_handler.dfy`: the `DatabaseHandler` class, plus three client scenarios that exercise its contracts.

Three behaviours of the code that the model keeps:

- `get_table_name` runs its PRAGMA directly on the cursor, not through `execute_query`.
- A table that does not exist gives zero PRAGMA rows. It is then registered with an empty column list rather than failing.
- `select` with an empty column list raises inside its own `try`. The result is the empty list, and no statement is executed.

## Model

| member | source | states |
|---|---|---|
| `Logging.Emits` | source/LogHandler.py:9-27 | the gate of the five methods: nothing prints above level 4, every severity that prints does so at a level no higher than its rank, and a negative level prints everything except debug |
| `Logging.Line` | source/LogHandler.py:11-27 | a line is printed exactly when the gate is open, and it is the tag, one space, then the message unchanged |
| `Logging.LogHandler.Debug` | source/LogHandler.py:9-11 | prints `[DEBUG]\t\t msg` exactly when the gating rule of the five methods lets debug through, i.e. only at level 0 |
| `Logging.LogHandler.Info` | source/LogHandler.py:13-15 | prints `[INFO]\t\t msg` exactly when the rank rule lets info through (level at most 1) |
| `Logging.LogHandler.Warning` | source/LogHandler.py:17-19 | prints `[WARNING]\t msg` exactly when the rank rule lets warnings through (level at most 2) |
| `Logging.LogHandler.Critical` | source/LogHandler.py:21-23 | prints `[CRITICAL]\t msg` exactly when the rank rule lets critical messages through (level at most 3) |
| `Logging.LogHandler.Fatal` | source/LogHandler.py:25-27 | prints `[FATAL]\t\t msg` exactly when the rank rule lets fatal messages through (level at most 4) |
| `Logging.LogHandler.ExceptionHandling` | source/LogHandler.py:29-31 | a caught exception prints one critical line naming its type and text, exactly when the level is at most 3 |
| `Logging.EmitsMonotoneInLevel` | source/LogHandler.py:13-27 | for every severity but debug, a severity printed at a level is printed at every lower level |
| `Logging.EmitsMonotoneInSeverity` | source/LogHandler.py:13-27 | for every severity but debug, a level that prints a severity prints every higher severity |
| `Logging.DebugDeparture` | source/LogHandler.py:9-27 | debug departs from the rank rule exactly at negative levels, which silence debug and print all other severities |
| `Logging.LevelTwo` | source/LogHandler.py:9-27 | at level 2 debug and info print nothing; warning, critical and fatal print one tagged line each |
| `Logging.TagsAlign` | source/LogHandler.py:11-27 | every tag, with its tabs, ends at display column 16, so all messages start in the same column |
| `Queries.Statement` | source/DatabaseHandler.py:211-224 | the joined condition text is empty exactly when there are no tuples |
| `Queries.StatementSnoc` | source/DatabaseHandler.py:217-224 | one more tuple adds its `c o v` fragment, after a comma unless it is the first |
| `Queries.StatementAppend` | source/DatabaseHandler.py:211-224 | the text of two non-empty tuple lists is their texts joined by one comma |
| `Queries.StatementSplits` | source/DatabaseHandler.py:211-224 | splitting the text on commas gives back exactly the `c o v` fragments, in order, when no field contains a comma; no AND or OR is inserted |
| `Queries.WhereClause` | source/DatabaseHandler.py:169-177 | the clause starts with `WHERE `, and is exactly `WHERE ` when there are no conditions |
| `Queries.InsertQuery` | source/DatabaseHandler.py:92-96 | `" ".join(["INSERT INTO", t, "(c1,c2)", "VALUES", "(v1,v2)"]) + ";"` is exactly `INSERT INTO t (c1,c2) VALUES (v1,v2);`, with values unquoted |
| `Queries.SelectQuery` | source/DatabaseHandler.py:116-126 | `" ".join([keyword, args, "FROM " + t, where]) + ";"` is exactly `SELECT [DISTINCT] c1, c2 FROM t <where>;`; the `["*"]` special case changes nothing, and the space before an empty where part remains |
| `Queries.SelectWithoutCondition` | source/DatabaseHandler.py:121-126 | with no conditions the select text ends in ` FROM t ;` |
| `Queries.UpdateQuery` | source/DatabaseHandler.py:150-155 | `" ".join(["UPDATE t SET", assignments, where]) + ";"` is exactly `UPDATE t SET <assignments> WHERE <conditions>;` |
| `Queries.DeleteQuery` | source/DatabaseHandler.py:164-166 | `" ".join(["DELETE FROM t", where]) + ";"` is exactly `DELETE FROM t WHERE <conditions>;` |
| `Queries.PragmaQuery` | source/DatabaseHandler.py:35 | the introspection text embeds the table name unchanged between `PRAGMA table_info('` and `')` |
| `Queries.Render` | source/DatabaseHandler.py:219 | one tuple becomes `c o v`: the three fields with one space between neighbours, nothing else added |
| `Queries.EmptyConditionDangles` | source/DatabaseHandler.py:150-166 | with no conditions, update and delete both end in ` WHERE ;` |
| `Queries.StarIsPlainJoin` | source/DatabaseHandler.py:117-120 | joining the single column `*` gives `*` |
| `Database.Zip` | source/DatabaseHandler.py:130 | the zip of a row has `min(len(cols), len(row))` pairs, the j-th being `(cols[j], row[j])` |
| `Database.FirstShort` | source/DatabaseHandler.py:128-133 | finds the first row shorter than the column list: every earlier row is long enough |
| `Database.DatabaseHandler.constructor` | source/DatabaseHandler.py:8-16 | a new handler has an empty registry, has executed nothing, and logs at the given level |
| `Database.DatabaseHandler.ExecuteQuery` | source/DatabaseHandler.py:64-75 | the statement is recorded as executed whether or not the driver fails, and the driver's rows are returned |
| `Database.DatabaseHandler.GetTableName` | source/DatabaseHandler.py:29-41 | gives the second field of each PRAGMA row, in order; raises IndexError exactly when some row has fewer than two fields |
| `Database.DatabaseHandler.SetUsedTable` | source/DatabaseHandler.py:43-49 | registers the table under those column names; other entries are unchanged, and on error the registry is untouched |
| `Database.DatabaseHandler.ReleaseUsedTable` | source/DatabaseHandler.py:51-57 | removes only that table; raises KeyError exactly when it was not registered |
| `Database.DatabaseHandler.ClearUsedTables` | source/DatabaseHandler.py:59-62 | the registry is empty afterwards |
| `Database.DatabaseHandler.TupleListToStatement` | source/DatabaseHandler.py:211-224 | the loop's text equals the comma-joined fragments of all tuples |
| `Database.DatabaseHandler.IsRegistered` | source/DatabaseHandler.py:226-238 | never reports a duplicate; raises IndexError exactly when there are fewer columns than values |
| `Database.DatabaseHandler.Insert` | source/DatabaseHandler.py:81-99 | with fewer columns than values, the IndexError escapes and nothing runs; otherwise the insert text always runs |
| `Database.DatabaseHandler.ZipRows` | source/DatabaseHandler.py:128-141 | zips every row up to and including the first row shorter than the columns, then stops with an error; otherwise zips all rows |
| `Database.DatabaseHandler.Select` | source/DatabaseHandler.py:102-141 | no columns: nothing runs and the result is empty; otherwise the select text runs and the result is the zipped rows up to and including the first short row |
| `Database.DatabaseHandler.Update` | source/DatabaseHandler.py:143-156 | rewrites each element of the caller's list to `(e[0], "=", e[1])` in place, keeping its length, and runs the update text built from those assignments |
| `Database.DatabaseHandler.Delete` | source/DatabaseHandler.py:158-167 | runs the delete text for the conditions |

## Left out

- The sqlite driver calls are not modelled: `open`, `close`, `commit`, and the cursor's `execute` and `fetchall` (source/DatabaseHandler.py:18-27, 35-36, 64-79). Their results are parameters, and executed statements go to a ghost log.
- Driver failures are not modelled. `execute_query` catches them and returns whatever `fetchall` gives, which the `response` parameter stands for. A second failure inside `fetchall` is not modelled either.
- SetUsedTable: a failing PRAGMA is not modelled. `get_table_name` sends it straight to the cursor (source/DatabaseHandler.py:35), outside any `try`, so a driver error there (for example a table name containing `'`) escapes `get_table_name` and `set_used_table` and leaves the registry untouched. The model's `GetTableName` and `SetUsedTable` only raise IndexError, for a PRAGMA row with fewer than two fields.
- Update: aliasing between `data` and `condition` is not modelled. The source rewrites `data` in place (source/DatabaseHandler.py:151-152) before building the WHERE part from `condition` (line 154), so a caller who passes the same list as both gets a WHERE part built from the rewritten tuples. `Update` takes `condition` as a value and cannot express that call.
- SQL meaning is left out: whether a statement is valid, what it does, quoting and injection. Statements are opaque text.
- `DatabaseHandler` prints log lines through its `LogHandler`. The model does not record those lines. What each log call would print is modelled in the logging module.
- Printing to standard output and `sys.exc_info()` are left out. Each severity method returns its line, and `ExceptionHandling` takes the exception's type name as a parameter.
- The debug text that `select` builds per row is left out. So is the `index is not (len(cols)-1)` comparison, which only affects that text. Only one fact about that inner loop is kept: it raises IndexError exactly when the row has fewer fields than there are columns.
- The placeholder clause methods are left out (`and_clause` to `having_clause`), because they only `pass`. The unused `__keywords` field is left out as well.
- Python values are modelled as strings. A tuple shorter than three fields would make `tuple_list_to_statement` raise. The model does not represent such tuples: conditions are always triples, and `update` elements are pairs or triples.
- Python's shared mutable default arguments are left out. The only mutating use is `update`'s empty default list, which cannot change anything.
