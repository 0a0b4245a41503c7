/** The statement builder `SQLQuery`: an object holding the text of one SQL
    statement under construction and the values bound to its `?` placeholders.
    The statement heads (`select`, `insert`, `update`, `delete`) overwrite the
    text; the clauses (`where`, `where_simple`, `order_by`, `limit`) append to
    it; the two `get_` operations hand out what was accumulated and reset it. */
module SqlQueries {
  import opened Strings
  import opened Fragments

  class SqlQuery {
    var sql: string
    var placeholderValues: seq<Value>

    /** Every `?` of the text has a bound value and no bound value is left
        over. This holds of a statement built only from dicts whose keys (and
        a table name) hold no `?`, on a builder whose values were drained. */
    ghost predicate Balanced()
      reads this
    {
      Occurrences('?', sql) == |placeholderValues|
    }

    constructor ()
      ensures sql == "" && placeholderValues == []
      ensures Balanced()
    {
      sql := "";
      placeholderValues := [];
    }

    /** `select`: the text becomes exactly the SELECT head; prior text is
        discarded, bound values are kept. The columns default to `*`. */
    method Select(table: string, columns: Columns := Raw("*"))
      modifies this
      ensures sql == "SELECT " + ColumnsAsStr(columns) + " FROM " + table
      ensures placeholderValues == old(placeholderValues)
      ensures '?' !in table && '?' !in ColumnsAsStr(columns) ==> (Balanced() <==> old(placeholderValues) == [])
    {
      var cols := ColumnsAsStr(columns);
      sql := "SELECT " + cols + " FROM " + table;
      assert '?' !in "SELECT " && '?' !in " FROM ";
      OccurrencesAbsent('?', sql);
    }

    /** `where`: appends ` WHERE <expr>` for a non-empty expression, nothing
        for `None` or `""`; never binds a value. */
    method Where(where: Option<string> := None)
      modifies this
      ensures OrEmpty(where) == [] ==> sql == old(sql)
      ensures OrEmpty(where) != [] ==> sql == old(sql) + " WHERE " + OrEmpty(where)
      ensures placeholderValues == old(placeholderValues)
      ensures Occurrences('?', sql) == old(Occurrences('?', sql)) + Occurrences('?', OrEmpty(where))
      ensures '?' !in OrEmpty(where) ==> (Balanced() <==> old(Balanced()))
    {
      var w := OrEmpty(where);
      OccurrencesAbsent('?', w);
      if w != [] {
        WhereClauseCount(where);
        OccurrencesAppend('?', sql, WhereClause(where));
        assert sql + WhereClause(where) == sql + " WHERE " + w;
        sql := sql + " WHERE " + w;
      }
    }

    /** `where_simple`: for a non-empty dict appends ` WHERE c1 = ? AND ...`
        in the dict's order and binds the dict's values after those already
        bound; for `None` or `{}` changes nothing. */
    method WhereSimple(where: Option<Row> := None)
      modifies this
      ensures sql == old(sql) + WhereSimpleClause(where)
      ensures placeholderValues == old(placeholderValues) + WhereSimpleValues(where)
      ensures OrEmpty(where) == [] ==> sql == old(sql) && placeholderValues == old(placeholderValues)
      ensures NoPlaceholderInKeys(OrEmpty(where)) ==> (Balanced() <==> old(Balanced()))
    {
      var m := OrEmpty(where);
      if m == [] {
        return;
      }
      var (columns, values) := ColumnsAndValues(m);
      AppendPlaceholderValues(values);
      var whereClauses := AssignPlaceholders(columns);
      var whereStatement := Join(" AND ", whereClauses);
      WhereSimpleOnePlaceholderPerValue(where);
      OccurrencesAppend('?', sql, " WHERE " + whereStatement);
      sql := sql + " WHERE " + whereStatement;
    }

    /** `order_by`: for a non-empty list appends ` ORDER BY col dir, ...` with
        the entries in the given order; never binds a value. */
    method OrderBy(specs: Option<seq<OrderSpec>> := None)
      modifies this
      ensures sql == old(sql) + OrderByClause(specs)
      ensures OrEmpty(specs) == [] ==> sql == old(sql)
      ensures placeholderValues == old(placeholderValues)
      ensures (forall i :: 0 <= i < |OrEmpty(specs)| ==> '?' !in OrEmpty(specs)[i].0 && '?' !in OrEmpty(specs)[i].1)
              ==> (Balanced() <==> old(Balanced()))
    {
      var s := OrEmpty(specs);
      if s != [] {
        var orderBy := Join(", ", OrderTerms(s));
        assert sql + " ORDER BY " + orderBy == sql + OrderByClause(specs);
        OrderByHasNoPlaceholder(specs);
        OccurrencesAbsent('?', OrderByClause(specs));
        OccurrencesAppend('?', sql, OrderByClause(specs));
        sql := sql + " ORDER BY " + orderBy;
      }
    }

    /** `limit`: for a non-empty list appends ` LIMIT <first>, <second>`;
        never binds a value, and the clause holds no `?`. */
    method Limit(limit: Option<seq<int>> := None)
      requires LimitArgumentOk(limit)
      modifies this
      ensures OrEmpty(limit) == [] ==> sql == old(sql)
      ensures OrEmpty(limit) != [] ==> sql == old(sql) + " LIMIT " + IntToString(OrEmpty(limit)[0])
                                               + ", " + IntToString(OrEmpty(limit)[1])
      ensures placeholderValues == old(placeholderValues)
      ensures Balanced() <==> old(Balanced())
    {
      var l := OrEmpty(limit);
      if l != [] {
        LimitHasNoPlaceholder(limit);
        AppendWithoutPlaceholder(sql, LimitClause(limit));
        assert sql + LimitClause(limit) == sql + " LIMIT " + IntToString(l[0]) + ", " + IntToString(l[1]);
        sql := sql + " LIMIT " + IntToString(l[0]) + ", " + IntToString(l[1]);
      }
    }

    /** `insert`: the text becomes the INSERT statement, one `?` per column;
        the dict's values are bound after those already bound. */
    method Insert(table: string, values: Row)
      modifies this
      ensures sql == InsertText(table, values)
      ensures placeholderValues == old(placeholderValues) + Values(values)
      ensures '?' !in table && NoPlaceholderInKeys(values) ==> (Balanced() <==> old(placeholderValues) == [])
    {
      var (columns, vals) := ColumnsAndValues(values);
      AppendPlaceholderValues(vals);
      var placeholders := Join(", ", Placeholders(|columns|));
      var columnsFormatted := Join(", ", columns);
      sql := "INSERT INTO " + table + " (" + columnsFormatted + ") VALUES (" + placeholders + ")";
      InsertOnePlaceholderPerValue(table, values);
    }

    /** `update`: the text becomes the UPDATE head, one `c = ?` per column;
        the dict's values are bound after those already bound. */
    method Update(table: string, values: Row)
      modifies this
      ensures sql == UpdateText(table, values)
      ensures placeholderValues == old(placeholderValues) + Values(values)
      ensures '?' !in table && NoPlaceholderInKeys(values) ==> (Balanced() <==> old(placeholderValues) == [])
    {
      var (columns, vals) := ColumnsAndValues(values);
      AppendPlaceholderValues(vals);
      var setClauses := AssignPlaceholders(columns);
      var setStatement := Join(", ", setClauses);
      sql := "UPDATE " + table + " SET " + setStatement;
      UpdateOnePlaceholderPerValue(table, values);
    }

    /** `update_simple` is `update` followed by `where_simple`: the SET values
        are bound first, then the WHERE values. */
    method UpdateSimple(table: string, values: Row, where: Option<Row> := None)
      modifies this
      ensures sql == UpdateText(table, values) + WhereSimpleClause(where)
      ensures placeholderValues == old(placeholderValues) + Values(values) + WhereSimpleValues(where)
      ensures '?' !in table && NoPlaceholderInKeys(values) && NoPlaceholderInKeys(OrEmpty(where))
              ==> (Balanced() <==> old(placeholderValues) == [])
    {
      Update(table, values);
      WhereSimple(where);
    }

    /** `delete`: the text becomes `DELETE FROM <table>`, followed by
        ` WHERE <expr>` only for a non-empty expression; never binds a value. */
    method Delete(table: string, where: Option<string> := None)
      modifies this
      ensures sql == "DELETE FROM " + table + WhereClause(where)
      ensures OrEmpty(where) == [] ==> sql == "DELETE FROM " + table
      ensures placeholderValues == old(placeholderValues)
      ensures '?' !in table ==> Occurrences('?', sql) == Occurrences('?', OrEmpty(where))
      ensures '?' !in table && '?' !in OrEmpty(where) ==> (Balanced() <==> old(placeholderValues) == [])
    {
      sql := "DELETE FROM " + table;
      assert '?' !in "DELETE FROM ";
      OccurrencesAbsent('?', sql);
      if OrEmpty(where) != [] {
        Where(where);
      }
    }

    /** `get_query`: hands out the text and leaves the buffer empty; the bound
        values stay. */
    method GetQuery() returns (query: string)
      modifies this
      ensures query == old(sql)
      ensures sql == ""
      ensures placeholderValues == old(placeholderValues)
      ensures Balanced() <==> placeholderValues == []
    {
      query, sql := sql, "";
    }

    /** `get_placeholder_values`: hands out the bound values and leaves the
        list empty; the text stays. */
    method GetPlaceholderValues() returns (values: seq<Value>)
      modifies this
      ensures values == old(placeholderValues)
      ensures placeholderValues == []
      ensures sql == old(sql)
      ensures Balanced() <==> '?' !in sql
    {
      values, placeholderValues := placeholderValues, [];
      OccurrencesAbsent('?', sql);
    }

    /** `append_placeholder_values`: binds the values after those already bound. */
    method AppendPlaceholderValues(values: seq<Value>)
      modifies this
      ensures placeholderValues == old(placeholderValues) + values
      ensures sql == old(sql)
      ensures old(Balanced()) ==> (Balanced() <==> values == [])
    {
      placeholderValues := placeholderValues + values;
    }
  }

  /** The first chain of the repository's test: `select` then `where`. */
  method TestSelectWhere() returns (query: string)
    ensures query == "SELECT * FROM tests WHERE title = ? OR title = ?"
  {
    var q := new SqlQuery();
    q.Select("tests");
    q.Where(Some("title = ? OR title = ?"));
    query := q.GetQuery();
    SelectWhereText();
  }

  // The two longer chains state their expected text cut where one clause ends
  // and the next begins: the pieces joined are the test's single literal.

  /** The full chain of the repository's test, ordering by two columns;
      draining the text a second time gives the empty string. */
  method TestSelectOrderByLimit() returns (query: string, drained: string)
    ensures query == "SELECT * FROM tests WHERE title = ? OR title = ?"
                     + " ORDER BY test DESC, title ASC" + " LIMIT 30, 10"
    ensures drained == ""
  {
    var q := new SqlQuery();
    q.Select("tests");
    q.Where(Some("title = ? OR title = ?"));
    q.OrderBy(Some([("test", "DESC"), ("title", "ASC")]));
    q.Limit(Some([30, 10]));
    query := q.GetQuery();
    drained := q.GetQuery();
    SelectWhereText();
    TwoColumnChainText();
  }

  /** The same chain ordering by one column. */
  method TestSelectOrderByOneLimit() returns (query: string)
    ensures query == "SELECT * FROM tests WHERE title = ? OR title = ?"
                     + " ORDER BY title ASC" + " LIMIT 30, 10"
  {
    var q := new SqlQuery();
    q.Select("tests");
    q.Where(Some("title = ? OR title = ?"));
    q.OrderBy(Some([("title", "ASC")]));
    q.Limit(Some([30, 10]));
    query := q.GetQuery();
    SelectWhereText();
    OneColumnChainText();
  }

  /** `where_simple({"title": "test"})` after `select("tests")` gives one
      condition and binds its one value. */
  method WhereSimpleChain() returns (query: string, values: seq<Value>)
    ensures query == "SELECT * FROM tests WHERE title = ?"
    ensures values == [Text("test")]
  {
    var q := new SqlQuery();
    q.Select("tests");
    q.WhereSimple(Some([("title", Text("test"))]));
    query := q.GetQuery();
    values := q.GetPlaceholderValues();
    WhereSimpleChainText();
  }

  // The lemmas below evaluate the chains' texts. Equalities between string
  // literals grow costly for the solver with their length, so each one is
  // stated on its own, over as short a text as the step allows.

  /** The text of `select("tests").where(...)`, evaluated. */
  lemma SelectWhereText()
    ensures "SELECT " + ColumnsAsStr(Raw("*")) + " FROM " + "tests" + " WHERE " + "title = ? OR title = ?"
         == "SELECT * FROM tests WHERE title = ? OR title = ?"
  {
    SelectTestsText();
    assert " WHERE " + "title = ? OR title = ?" == " WHERE title = ? OR title = ?";
    SelectWhereJoined();
  }

  /** The two pieces of the first chain's literal, joined. */
  lemma SelectWhereJoined()
    ensures "SELECT * FROM tests" + " WHERE title = ? OR title = ?"
         == "SELECT * FROM tests WHERE title = ? OR title = ?"
  {
  }

  /** The head of the chains, `select("tests")`, evaluated. */
  lemma SelectTestsText()
    ensures "SELECT " + ColumnsAsStr(Raw("*")) + " FROM " + "tests" == "SELECT * FROM tests"
  {
  }

  /** The clauses of the two-column chain, evaluated. */
  lemma TwoColumnChainText()
    ensures forall a: string ::
              a + OrderByClause(Some([("test", "DESC"), ("title", "ASC")])) + " LIMIT " + IntToString(30) + ", " + IntToString(10)
              == a + " ORDER BY test DESC, title ASC" + " LIMIT 30, 10"
  {
    TwoColumnOrderBy();
    ThirtyAndTen();
  }

  /** `order_by([("test", "DESC"), ("title", "ASC")])`, evaluated. */
  lemma TwoColumnOrderBy()
    ensures OrderByClause(Some([("test", "DESC"), ("title", "ASC")])) == " ORDER BY test DESC, title ASC"
  {
    TwoColumnTerms();
    assert Join(", ", ["test DESC", "title ASC"]) == "test DESC" + ", " + "title ASC" == "test DESC, title ASC";
    assert " ORDER BY " + "test DESC, title ASC" == " ORDER BY test DESC, title ASC";
  }

  /** Its two `col dir` terms. */
  lemma TwoColumnTerms()
    ensures OrderTerms([("test", "DESC"), ("title", "ASC")]) == ["test DESC", "title ASC"]
  {
    var terms := OrderTerms([("test", "DESC"), ("title", "ASC")]);
    assert terms[0] == "test" + " " + "DESC" == "test DESC";
    assert terms[1] == "title" + " " + "ASC" == "title ASC";
  }

  /** The clauses of the one-column chain, evaluated. */
  lemma OneColumnChainText()
    ensures forall a: string ::
              a + OrderByClause(Some([("title", "ASC")])) + " LIMIT " + IntToString(30) + ", " + IntToString(10)
              == a + " ORDER BY title ASC" + " LIMIT 30, 10"
  {
    var terms := OrderTerms([("title", "ASC")]);
    assert terms[0] == "title" + " " + "ASC" == "title ASC";
    assert terms == ["title ASC"];
    assert " ORDER BY " + "title ASC" == " ORDER BY title ASC";
    ThirtyAndTen();
  }

  /** The numbers of the chains' `LIMIT`, rendered. */
  lemma ThirtyAndTen()
    ensures " LIMIT " + IntToString(30) + ", " + IntToString(10) == " LIMIT 30, 10"
  {
    assert NatToString(30) == NatToString(3) + ['0'];
    assert NatToString(10) == NatToString(1) + ['0'];
    assert " LIMIT " + "30" + ", " + "10" == " LIMIT 30, 10";
  }

  /** The text of the `where_simple` chain, evaluated. */
  lemma WhereSimpleChainText()
    ensures "SELECT " + ColumnsAsStr(Raw("*")) + " FROM " + "tests"
            + WhereSimpleClause(Some([("title", Text("test"))]))
         == "SELECT * FROM tests WHERE title = ?"
  {
    SelectTestsText();
    assert "title" + " = ?" == "title = ?";
    assert WhereSimpleClause(Some([("title", Text("test"))])) == " WHERE " + Join(" AND ", ["title = ?"]);
    assert " WHERE " + "title = ?" == " WHERE title = ?";
    SelectWhereSimpleJoined();
  }

  /** The two pieces of the `where_simple` chain's literal, joined. */
  lemma SelectWhereSimpleJoined()
    ensures "SELECT * FROM tests" + " WHERE title = ?" == "SELECT * FROM tests WHERE title = ?"
  {
  }
}
