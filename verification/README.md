# SQLQuery statement builder, modelled in Dafny

This project models `SQLQuery`, the SQL statement builder of the
`sqlite_object` package. A builder object holds two things: the text of one
statement under construction (`sql`) and the ordered list of values that will
be bound to its `?` placeholders (`placeholder_values`).

- The statement heads `select`, `insert`, `update` and `delete` overwrite the
  text.
- The clauses `where`, `where_simple`, `order_by` and `limit` append to it.
- `where_simple`, `insert` and `update` also append a dict's values to the
  value list, in the dict's order.
- `get_query` and `get_placeholder_values` hand out the text or the list and
  reset it.

Files:

- `strings.dfy` (module `Strings`): Python's `sep.join(parts)` as `Join`, an
  independent splitter `Split` that undoes it, counting of a character
  (`Occurrences`, used for `?`), and the decimal rendering that an f-string
  gives an `int` (`IntToString`) with a parser that reads it back.
- `fragments.dfy` (module `Fragments`): the arguments (`Option`, `Value`,
  `Columns`, `Row` for a dict, `OrderSpec`), the pure parts of the class
  (`columns_as_str`, `get_columns_and_values`) and the text each clause
  appends, with the lemmas about them.
- `sql_query.dfy` (module `SqlQueries`): the class `SqlQuery` with the two
  fields and one method per state-changing source method. Each method's
  `ensures` gives the new text and the new value list in terms of the old
  ones. The source's default arguments are kept as Dafny parameter defaults:
  `columns` of `select` defaults to `Raw("*")` (`'*'`), and every optional
  `where`, `order_specifications` and `limit_values` defaults to `None`. It also holds the
  chains from the repository's test, with the exact text they expect.

A Python dict is modelled as `seq<(string, Value)>` in iteration order.
`None` and the empty string, list or dict are all falsy in Python, and the
builder treats them the same. An optional argument is therefore an
`Option<seq<_>>`, and `OrEmpty(o) == []` is the falsy case.

`Balanced()` is a class predicate: the number of `?` in the text equals the
number of bound values. Every method states how it affects this predicate.
`where` gives the exact change in the `?` count. `limit`, the two `get_`
methods and `append_placeholder_values` state it without conditions. The
other methods state it when the identifiers they write contain no `?`: the
table, the columns, the dict keys and the ORDER BY entries. The map-driven methods (`where_simple`, `insert`, `update`,
`update_simple`) write exactly one `?` per value they bind, provided the
identifiers contain no `?`. A head keeps the values bound before it, so it
yields a balanced statement only on a builder whose values were drained.

The builder does not check that the number of `?` equals the number of
bound values, so `Balanced()` is not a class invariant:

- A raw `where` adds the `?` of its expression without binding values
  (sqlite_object/sql_query.py:18-21).
- The heads do not clear values bound earlier
  (sqlite_object/sql_query.py:13-16, 71-75).
- `get_query` leaves the values in place (sqlite_object/sql_query.py:77-79).

Identifiers are emitted
exactly as given, without quoting (sqlite_object/sql_query.py:10), and so
does the model.

## Model

| member | source | states |
|---|---|---|
| `SqlQueries.SqlQuery.constructor` | sqlite_object/sql_query.py:3-6 | a new builder has empty text and no bound values (so it is balanced) |
| `Fragments.ColumnsAsStr` | sqlite_object/sql_query.py:8-11 | a raw column string passes through unchanged; an empty list of names gives `""`; a non-empty list of column names, none containing a comma, is written so that splitting on `", "` gives back exactly the names, in order |
| `SqlQueries.SqlQuery.Select` | sqlite_object/sql_query.py:13-16 | text becomes exactly `SELECT <columns> FROM <table>` whatever it held before; `columns` defaults to `*`; columns are the raw string or the names joined with `", "`; bound values unchanged; with `?`-free table and columns the result is balanced iff no values were bound before |
| `Fragments.WhereClause` | sqlite_object/sql_query.py:18-21 | the `where` clause text is empty exactly when the expression is `None` or `""` |
| `Fragments.WhereClauseCount` | sqlite_object/sql_query.py:18-21 | the `where` clause adds exactly the `?` that the raw expression holds, and binds nothing for them |
| `SqlQueries.SqlQuery.Where` | sqlite_object/sql_query.py:18-21 | appends ` WHERE <expr>` for a non-empty expression; no-op for `None`/`""` (the default); bound values unchanged; the `?` count of the text grows by exactly the `?` of the expression, so an expression without `?` keeps balance |
| `Fragments.ColumnsAndValues` | sqlite_object/sql_query.py:88-91 | keys and values of the dict, each as long as the dict, the i-th key and value being those of the i-th entry |
| `Fragments.KeysValuesAppend` | sqlite_object/sql_query.py:88-91 | adding an entry at the end of the dict adds its key at the end of the keys and its value at the end of the values |
| `Fragments.WhereSimpleClause` | sqlite_object/sql_query.py:23-33 | the `where_simple` text is empty exactly when the dict is `None` or empty |
| `Fragments.WhereSimpleValues` | sqlite_object/sql_query.py:27-28 | the values `where_simple` binds are the dict's values, one per entry, in dict order |
| `Fragments.WhereSimpleOnePlaceholderPerValue` | sqlite_object/sql_query.py:27-32 | with `?`-free column names, `where_simple` writes exactly as many `?` as it binds values |
| `Fragments.WhereSimpleAppendEntry` | sqlite_object/sql_query.py:27-32 | adding an entry at the end of a non-empty dict adds its condition ` AND col = ?` last in the text and its value last in the bound values: conditions and values stay in the same order |
| `SqlQueries.SqlQuery.WhereSimple` | sqlite_object/sql_query.py:23-33 | appends ` WHERE c1 = ? AND ...` and binds the dict's values after those already bound; changes nothing for `None` (the default) or `{}`; with `?`-free keys it keeps balance |
| `Fragments.OrderByClause` | sqlite_object/sql_query.py:35-39 | the `order_by` text is empty exactly when the list is `None` or empty |
| `Fragments.OrderByKeepsOrder` | sqlite_object/sql_query.py:36-38 | a non-empty list appends ` ORDER BY` and one `col dir` term per entry, the i-th term being the i-th entry; the list splits back into exactly those terms (no reordering, no deduplication) when no entry contains a comma |
| `Fragments.OrderByAppend` | sqlite_object/sql_query.py:37-38 | for non-empty `a` and `b`, ordering by `a + b` is ordering by `a` followed by `", "` and `b`'s terms |
| `Fragments.OrderByHasNoPlaceholder` | sqlite_object/sql_query.py:35-39 | an ORDER BY clause over columns and directions without `?` contains no `?` |
| `SqlQueries.SqlQuery.OrderBy` | sqlite_object/sql_query.py:35-39 | appends the ORDER BY clause; no-op for `None` (the default) or `[]`; bound values unchanged; balance kept when entries hold no `?` |
| `Fragments.LimitClause` | sqlite_object/sql_query.py:41-44 | the `limit` text is empty exactly when the list is `None` or empty |
| `Fragments.LimitReadsBack` | sqlite_object/sql_query.py:43 | `LIMIT` renders the first two numbers as ` LIMIT a, b`, each rendering reading back as the same integer |
| `Fragments.LimitHasNoPlaceholder` | sqlite_object/sql_query.py:41-44 | a LIMIT clause never contains `?` |
| `SqlQueries.SqlQuery.Limit` | sqlite_object/sql_query.py:41-44 | appends ` LIMIT <l[0]>, <l[1]>` for a non-empty list; no-op for `None` (the default) or `[]`; bound values unchanged; balance always kept |
| `Fragments.InsertOnePlaceholderPerValue` | sqlite_object/sql_query.py:46-52 | with a `?`-free table and keys, the INSERT text holds exactly one `?` per bound value |
| `Fragments.InsertListsRoundTrip` | sqlite_object/sql_query.py:50-52 | for a non-empty dict whose keys contain no comma, the INSERT column list splits back into the dict's keys in order, and the VALUES list into one `?` per key |
| `SqlQueries.SqlQuery.Insert` | sqlite_object/sql_query.py:46-53 | text becomes `InsertText(table, values)`, that is `INSERT INTO t (c1, ...) VALUES (?, ...)` with the dict's keys in order and one `?` per key; the dict's values are bound after those already bound; with `?`-free identifiers the result is balanced iff no values were bound before |
| `Fragments.UpdateOnePlaceholderPerValue` | sqlite_object/sql_query.py:55-61 | with a `?`-free table and keys, the UPDATE text holds exactly one `?` per bound value |
| `SqlQueries.SqlQuery.Update` | sqlite_object/sql_query.py:55-62 | text becomes `UpdateText(table, values)`, that is `UPDATE t SET c1 = ?, ...` with the dict's keys in order; the dict's values are bound after those already bound; balanced iff no values were bound before (`?`-free identifiers) |
| `Fragments.UpdateSimpleOnePlaceholderPerValue` | sqlite_object/sql_query.py:64-69 | with a `?`-free table, SET keys and WHERE keys, the UPDATE text followed by the `where_simple` clause holds exactly as many `?` as the SET values followed by the WHERE values |
| `SqlQueries.SqlQuery.UpdateSimple` | sqlite_object/sql_query.py:64-69 | same text and values as `update` followed by `where_simple` (whose dict defaults to `None`): SET values first, then WHERE values; with `?`-free identifiers balanced iff no values were bound before |
| `SqlQueries.SqlQuery.Delete` | sqlite_object/sql_query.py:71-75 | text becomes `DELETE FROM t`, plus ` WHERE w` only for a non-empty `w` (`None` by default); bound values unchanged; with a `?`-free table the text holds exactly the `?` of `w` |
| `SqlQueries.SqlQuery.GetQuery` | sqlite_object/sql_query.py:77-79 | returns the text and leaves it empty; bound values unchanged; afterwards balanced iff no values are bound |
| `SqlQueries.SqlQuery.GetPlaceholderValues` | sqlite_object/sql_query.py:81-83 | returns the bound values and leaves the list empty; text unchanged; afterwards balanced iff the text holds no `?` |
| `SqlQueries.SqlQuery.AppendPlaceholderValues` | sqlite_object/sql_query.py:85-86 | binds the given values after those already bound; text unchanged; from a balanced state it stays balanced iff no values are given |
| `Strings.JoinAppend` | sqlite_object/sql_query.py:37 | `", ".join` keeps the parts' order: for non-empty `a` and `b`, joining `a + b` is joining `a`, the separator, then joining `b` |
| `Strings.SplitJoin` | sqlite_object/sql_query.py:10 | joining a non-empty list with a non-empty separator is undone by splitting when no part contains the separator's first character |
| `Strings.OccurrencesJoin` | sqlite_object/sql_query.py:31 | joining parts that each hold one `?` with a `?`-free separator gives one `?` per part |
| `Strings.ParseIntToString` | sqlite_object/sql_query.py:43 | the decimal rendering of an integer is well-formed and reads back as that integer |
| `SqlQueries.TestSelectWhere` | tests/test.py:274-275 | `select("tests").where("title = ? OR title = ?")` gives exactly `SELECT * FROM tests WHERE title = ? OR title = ?` |
| `SqlQueries.TestSelectOrderByLimit` | tests/test.py:277-287 | the chain with `order_by([("test","DESC"),("title","ASC")])` and `limit([30, 10])` gives exactly the expected text; a second `get_query` gives `""` |
| `SqlQueries.TestSelectOrderByOneLimit` | tests/test.py:289-301 | the chain with the one-entry `order_by` gives exactly the expected text |
| `SqlQueries.WhereSimpleChain` | sqlite_object/sql_query.py:13-33 | `select("tests")` then `where_simple({"title": "test"})` gives exactly `SELECT * FROM tests WHERE title = ?` and binds exactly `["test"]` |

## Left out

- `sqlite_object/sqlite_object.py` (the `SQLiteObject` database facade and
  `get_sqlite_object`) is not part of this model. It executes statements,
  commits, rolls back and fetches rows through Python's `sqlite3`. The
  behaviour of those calls lives in the database engine. The statements it
  builds are `SQLQuery` chains, which are modelled here.
- The `table` argument of the constructor is stored and never read, so it is
  not modelled.
- Every method returns `self` for chaining. The Dafny methods return nothing,
  and chains are written as consecutive calls on one object.
- `columns_as_str` passes any non-list value through unchanged (a tuple
  would be formatted by its repr). Only a string or a list of names is
  modelled.
- `SqlQueries.SqlQuery.Limit`: a non-empty list with fewer than two entries
  raises `IndexError` in the source. This is a precondition
  (`LimitArgumentOk`) rather than an error result. Entries are modelled as
  integers. Other printable values, such as strings, are not modelled.
- Bound values are modelled as `NULL`, integer, real or text. Other Python
  objects are not modelled; the builder never inspects them.
- A `Row` does not enforce distinct keys as a dict does. Every statement
  proved holds without that constraint.
- The `?`-counting and split-back lemmas require identifiers without `?`
  (and without commas, for splitting). The builder does not escape
  identifiers, so for other names these properties do not hold.
- Nothing in the model claims that the text is valid SQL.
- `SqlQueries.TestSelectOrderByLimit` and
  `SqlQueries.TestSelectOrderByOneLimit` write the expected string as the
  concatenation of its clause texts, cut where one clause ends and the next
  begins. The pieces joined are the test's single literal; an equality
  between literals of that length is beyond what the solver proves within
  the resource limit used here.
