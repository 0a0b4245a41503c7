/** The pure part of the statement builder: the arguments the builder's methods
    take, and the text fragments each method writes or appends. */
module Fragments {
  import opened Strings

  /** An optional argument: `None` stands for Python's `None`. */
  datatype Option<+T> = None | Some(value: T)

  /** A Python argument that may be `None` or a (possibly empty) sequence;
      both count as falsy, and the builder treats them alike. */
  function OrEmpty<T>(o: Option<seq<T>>): seq<T>
  {
    match o
    case None => []
    case Some(s) => s
  }

  /** A value bound to a `?` placeholder at execution time. */
  datatype Value = Null | Integer(i: int) | Real(r: real) | Text(t: string)

  /** A dict of column name to value, in the dict's iteration (insertion) order. */
  type Row = seq<(string, Value)>

  /** The `columns` argument of `select`: a string passed through as written,
      or a list of column names. */
  datatype Columns = Raw(text: string) | Names(names: seq<string>)

  /** An `order_by` entry: a column and its direction (`ASC`, `DESC`, ...). */
  type OrderSpec = (string, string)

  /** `columns_as_str`: a string passes through as written; a list of names
      is joined with `", "`, so that it reads back as the names, in order,
      when none contains a comma. */
  function ColumnsAsStr(columns: Columns): (r: string)
    ensures columns.Raw? ==> r == columns.text
    ensures columns == Names([]) ==> r == ""
    ensures columns.Names? && columns.names != [] && NoneContains(columns.names, ',')
            ==> Split(r, ", ") == columns.names
  {
    match columns
    case Raw(text) => text
    case Names(names) => SplitJoin(", ", names); Join(", ", names)
  }

  /** `get_columns_and_values`: the keys and the values of a dict, as two
      lists in the dict's order. */
  function ColumnsAndValues(m: Row): (cv: (seq<string>, seq<Value>))
    ensures |cv.0| == |m| && |cv.1| == |m|
    ensures forall i :: 0 <= i < |m| ==> cv.0[i] == m[i].0 && cv.1[i] == m[i].1
  {
    if m == [] then ([], [])
    else
      var rest := ColumnsAndValues(m[1..]);
      ([m[0].0] + rest.0, [m[0].1] + rest.1)
  }

  function Keys(m: Row): seq<string> { ColumnsAndValues(m).0 }

  function Values(m: Row): seq<Value> { ColumnsAndValues(m).1 }

  /** `[f"{column} = ?" for column in columns]` */
  function AssignPlaceholders(columns: seq<string>): seq<string>
  {
    seq(|columns|, i requires 0 <= i < |columns| => columns[i] + " = ?")
  }

  /** `["?" for _ in columns]` */
  function Placeholders(n: nat): seq<string>
  {
    seq(n, _ => "?")
  }

  /** `[f"{col} {dir}" for col, dir in order_specifications]` */
  function OrderTerms(specs: seq<OrderSpec>): seq<string>
  {
    seq(|specs|, i requires 0 <= i < |specs| => specs[i].0 + " " + specs[i].1)
  }

  /** The text `where` appends: nothing exactly when the argument is falsy. */
  function WhereClause(where: Option<string>): (r: string)
    ensures r == "" <==> OrEmpty(where) == []
  {
    var w := OrEmpty(where);
    if w == [] then "" else " WHERE " + w
  }

  /** The text `where_simple` appends: nothing exactly when the dict is falsy. */
  function WhereSimpleClause(where: Option<Row>): (r: string)
    ensures r == "" <==> OrEmpty(where) == []
  {
    var m := OrEmpty(where);
    if m == [] then "" else " WHERE " + Join(" AND ", AssignPlaceholders(Keys(m)))
  }

  /** The values `where_simple` binds: the dict's values in its order. */
  function WhereSimpleValues(where: Option<Row>): (vs: seq<Value>)
    ensures |vs| == |OrEmpty(where)|
    ensures forall i :: 0 <= i < |vs| ==> vs[i] == OrEmpty(where)[i].1
  {
    Values(OrEmpty(where))
  }

  /** The text `order_by` appends: nothing exactly when the list is falsy. */
  function OrderByClause(specs: Option<seq<OrderSpec>>): (r: string)
    ensures r == "" <==> OrEmpty(specs) == []
  {
    var s := OrEmpty(specs);
    if s == [] then "" else " ORDER BY " + Join(", ", OrderTerms(s))
  }

  /** `limit` reads the first two entries of a non-empty list. */
  predicate LimitArgumentOk(limit: Option<seq<int>>)
  {
    OrEmpty(limit) == [] || |OrEmpty(limit)| >= 2
  }

  /** The text `limit` appends: nothing exactly when the list is falsy. */
  function LimitClause(limit: Option<seq<int>>): (r: string)
    requires LimitArgumentOk(limit)
    ensures r == "" <==> OrEmpty(limit) == []
  {
    var l := OrEmpty(limit);
    if l == [] then "" else " LIMIT " + IntToString(l[0]) + ", " + IntToString(l[1])
  }

  /** The text `insert` writes. */
  function InsertText(table: string, values: Row): string
  {
    "INSERT INTO " + table + " (" + Join(", ", Keys(values)) + ") VALUES ("
      + Join(", ", Placeholders(|Keys(values)|)) + ")"
  }

  /** The text `update` writes. */
  function UpdateText(table: string, values: Row): string
  {
    "UPDATE " + table + " SET " + Join(", ", AssignPlaceholders(Keys(values)))
  }

  /** No column name of the dict contains `?`. */
  predicate NoPlaceholderInKeys(m: Row)
  {
    forall i :: 0 <= i < |m| ==> '?' !in m[i].0
  }

  /** `where` adds exactly the `?` its expression holds. */
  lemma WhereClauseCount(where: Option<string>)
    ensures Occurrences('?', WhereClause(where)) == Occurrences('?', OrEmpty(where))
  {
    var w := OrEmpty(where);
    if w != [] {
      assert '?' !in " WHERE ";
      AppendWithoutPlaceholder("", " WHERE ");
      OccurrencesAppend('?', " WHERE ", w);
    }
  }

  /** Each `column = ?` term carries exactly one `?` when the name has none. */
  lemma AssignPlaceholdersCount(columns: seq<string>)
    requires NoneContains(columns, '?')
    ensures forall i :: 0 <= i < |columns| ==> Occurrences('?', AssignPlaceholders(columns)[i]) == 1
  {
    forall i | 0 <= i < |columns|
      ensures Occurrences('?', AssignPlaceholders(columns)[i]) == 1
    {
      OccurrencesAbsent('?', columns[i]);
      OccurrencesAppend('?', columns[i], " = ?");
    }
  }

  /** `where_simple` writes exactly one `?` per value it binds. */
  lemma WhereSimpleOnePlaceholderPerValue(where: Option<Row>)
    ensures NoPlaceholderInKeys(OrEmpty(where))
            ==> Occurrences('?', WhereSimpleClause(where)) == |WhereSimpleValues(where)|
  {
    var m := OrEmpty(where);
    if m != [] && NoPlaceholderInKeys(m) {
      var terms := AssignPlaceholders(Keys(m));
      AssignPlaceholdersCount(Keys(m));
      OccurrencesJoin('?', " AND ", terms);
      OccurrencesAppend('?', " WHERE ", Join(" AND ", terms));
    }
  }

  /** Adding one more entry at the end of a non-empty `where_simple` dict adds
      its condition last in the text and its value last in the bound values:
      conditions and values stay in the same order. */
  lemma WhereSimpleAppendEntry(m: Row, column: string, v: Value)
    requires m != []
    ensures WhereSimpleClause(Some(m + [(column, v)]))
         == WhereSimpleClause(Some(m)) + " AND " + column + " = ?"
    ensures WhereSimpleValues(Some(m + [(column, v)])) == WhereSimpleValues(Some(m)) + [v]
  {
    var terms := AssignPlaceholders(Keys(m));
    var last := column + " = ?";
    KeysValuesAppend(m, (column, v));
    assert AssignPlaceholders(Keys(m + [(column, v)])) == terms + [last];
    JoinAppend(" AND ", terms, [last]);
    assert " WHERE " + (Join(" AND ", terms) + " AND " + (column + " = ?"))
        == " WHERE " + Join(" AND ", terms) + " AND " + column + " = ?";
  }

  /** Appending an entry to a dict appends its key and its value. */
  lemma KeysValuesAppend(m: Row, e: (string, Value))
    ensures Keys(m + [e]) == Keys(m) + [e.0]
    ensures Values(m + [e]) == Values(m) + [e.1]
  {
    assert Keys(m + [e]) == Keys(m) + [e.0] by {
      assert forall i :: 0 <= i < |m| ==> (m + [e])[i] == m[i];
    }
    assert Values(m + [e]) == Values(m) + [e.1] by {
      assert forall i :: 0 <= i < |m| ==> (m + [e])[i] == m[i];
    }
  }

  /** `order_by` lists one `col dir` term per entry, in exactly the given
      order, without reordering or dropping duplicates: the list reads back
      as the entries when no column or direction contains a comma. */
  lemma OrderByKeepsOrder(specs: seq<OrderSpec>)
    requires specs != []
    requires forall i :: 0 <= i < |specs| ==> ',' !in specs[i].0 && ',' !in specs[i].1
    ensures OrderByClause(Some(specs)) == " ORDER BY " + Join(", ", OrderTerms(specs))
    ensures Split(Join(", ", OrderTerms(specs)), ", ") == OrderTerms(specs)
    ensures |OrderTerms(specs)| == |specs|
    ensures forall i :: 0 <= i < |specs| ==> OrderTerms(specs)[i] == specs[i].0 + " " + specs[i].1
  {
    SplitJoin(", ", OrderTerms(specs));
  }

  /** Ordering by `a` then `b` appends `b`'s terms after `a`'s. */
  lemma OrderByAppend(a: seq<OrderSpec>, b: seq<OrderSpec>)
    requires a != [] && b != []
    ensures OrderByClause(Some(a + b)) == OrderByClause(Some(a)) + ", " + Join(", ", OrderTerms(b))
  {
    assert OrderTerms(a + b) == OrderTerms(a) + OrderTerms(b);
    JoinAppend(", ", OrderTerms(a), OrderTerms(b));
  }

  /** The two numbers of a `LIMIT` clause are rendered so that each reads
      back as the integer given. */
  lemma LimitReadsBack(offset: int, count: int)
    ensures LimitClause(Some([offset, count]))
         == " LIMIT " + IntToString(offset) + ", " + IntToString(count)
    ensures ParseInt(IntToString(offset)) == offset && ParseInt(IntToString(count)) == count
  {
    ParseIntToString(offset);
    ParseIntToString(count);
  }

  /** A `LIMIT` clause holds no `?`: it never needs a bound value. */
  lemma LimitHasNoPlaceholder(limit: Option<seq<int>>)
    requires LimitArgumentOk(limit)
    ensures '?' !in LimitClause(limit)
  {
    var l := OrEmpty(limit);
    if l != [] {
      IntToStringHasNoPlaceholder(l[0]);
      IntToStringHasNoPlaceholder(l[1]);
    }
  }

  lemma IntToStringHasNoPlaceholder(i: int)
    ensures '?' !in IntToString(i)
  {
    var d := NatToString(if i < 0 then -i else i);
    assert forall k :: 0 <= k < |d| ==> d[k] != '?';
  }

  /** An ORDER BY clause over columns and directions without `?` holds no `?`. */
  lemma OrderByHasNoPlaceholder(specs: Option<seq<OrderSpec>>)
    ensures (forall i :: 0 <= i < |OrEmpty(specs)| ==> '?' !in OrEmpty(specs)[i].0 && '?' !in OrEmpty(specs)[i].1)
            ==> '?' !in OrderByClause(specs)
  {
    var s := OrEmpty(specs);
    if s != [] && forall i :: 0 <= i < |s| ==> '?' !in s[i].0 && '?' !in s[i].1 {
      assert '?' !in " ORDER BY " && '?' !in ", ";
      JoinAbsent('?', ", ", OrderTerms(s));
    }
  }

  /** `insert` writes exactly one `?` per value it binds, and its column list
      reads back as the dict's keys when no key contains a comma. */
  lemma InsertOnePlaceholderPerValue(table: string, values: Row)
    ensures '?' !in table && NoPlaceholderInKeys(values)
            ==> Occurrences('?', InsertText(table, values)) == |Values(values)|
  {
    if '?' !in table && NoPlaceholderInKeys(values) {
      var cols := Keys(values);
      JoinAbsent('?', ", ", cols);
      OccurrencesAbsent('?', Join(", ", cols));
      PlaceholdersCount(|cols|);
      InsertFrameCount(table, Join(", ", cols), Join(", ", Placeholders(|cols|)));
    }
  }

  /** The list of `?` that `insert` writes holds one `?` per column. */
  lemma PlaceholdersCount(n: nat)
    ensures Occurrences('?', Join(", ", Placeholders(n))) == n
  {
    var ps := Placeholders(n);
    forall i | 0 <= i < n ensures Occurrences('?', ps[i]) == 1 {
      assert ps[i] == "?";
      assert ps[i][1..] == [];
    }
    OccurrencesJoin('?', ", ", ps);
  }

  /** The fixed words of an INSERT statement hold no `?`. */
  lemma InsertFrameCount(table: string, columns: string, placeholders: string)
    requires '?' !in table
    ensures Occurrences('?', "INSERT INTO " + table + " (" + columns + ") VALUES (" + placeholders + ")")
         == Occurrences('?', columns) + Occurrences('?', placeholders)
  {
    InsertWordsHoldNoPlaceholder();
    OccurrencesAbsent('?', "INSERT INTO ");
    var s1 := "INSERT INTO " + table;
    AppendWithoutPlaceholder("INSERT INTO ", table);
    var s2 := s1 + " (";
    AppendWithoutPlaceholder(s1, " (");
    var s3 := s2 + columns;
    OccurrencesAppend('?', s2, columns);
    var s4 := s3 + ") VALUES (";
    AppendWithoutPlaceholder(s3, ") VALUES (");
    var s5 := s4 + placeholders;
    OccurrencesAppend('?', s4, placeholders);
    AppendWithoutPlaceholder(s5, ")");
  }

  /** The fixed words of an INSERT statement hold no `?`. Stated apart: inside
      the proof above these facts about literals cost the solver far more. */
  lemma InsertWordsHoldNoPlaceholder()
    ensures '?' !in "INSERT INTO " && '?' !in " (" && '?' !in ") VALUES (" && '?' !in ")"
  {
  }

  /** Appending text without `?` adds no `?`. */
  lemma AppendWithoutPlaceholder(a: string, b: string)
    requires '?' !in b
    ensures Occurrences('?', a + b) == Occurrences('?', a)
  {
    OccurrencesAbsent('?', b);
    OccurrencesAppend('?', a, b);
  }

  /** The column list of `insert` reads back as the dict's keys, in order,
      and the placeholder list as one `?` per key. */
  lemma InsertListsRoundTrip(values: Row)
    requires values != [] && forall i :: 0 <= i < |values| ==> ',' !in values[i].0
    ensures Split(Join(", ", Keys(values)), ", ") == Keys(values)
    ensures Split(Join(", ", Placeholders(|values|)), ", ") == Placeholders(|values|)
  {
    SplitJoin(", ", Keys(values));
    SplitJoin(", ", Placeholders(|values|));
  }

  /** `update` writes exactly one `?` per value it binds. */
  lemma UpdateOnePlaceholderPerValue(table: string, values: Row)
    ensures '?' !in table && NoPlaceholderInKeys(values)
            ==> Occurrences('?', UpdateText(table, values)) == |Values(values)|
  {
    if '?' !in table && NoPlaceholderInKeys(values) {
      var terms := AssignPlaceholders(Keys(values));
      AssignPlaceholdersCount(Keys(values));
      OccurrencesJoin('?', ", ", terms);
      OccurrencesAbsent('?', table);
      OccurrencesAppend('?', "UPDATE ", table);
      OccurrencesAppend('?', "UPDATE " + table, " SET ");
      OccurrencesAppend('?', "UPDATE " + table + " SET ", Join(", ", terms));
    }
  }

  /** `update_simple` writes exactly one `?` per value it binds: the SET values
      followed by the WHERE values. */
  lemma UpdateSimpleOnePlaceholderPerValue(table: string, values: Row, where: Option<Row>)
    ensures '?' !in table && NoPlaceholderInKeys(values) && NoPlaceholderInKeys(OrEmpty(where))
            ==> (Occurrences('?', UpdateText(table, values) + WhereSimpleClause(where))
                 == |Values(values) + WhereSimpleValues(where)|)
  {
    UpdateOnePlaceholderPerValue(table, values);
    WhereSimpleOnePlaceholderPerValue(where);
    OccurrencesAppend('?', UpdateText(table, values), WhereSimpleClause(where));
  }
}
