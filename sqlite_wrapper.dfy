/**
 * The SQLite wrapper of the data-entry tool: name validation against the
 * schema, and the construction of each parameterised statement from a table
 * name, a column list and the values. The model stops at the pair (statement
 * text, parameter tuple) handed to `cursor.execute`; what SQLite does with it
 * is not part of this model.
 */
module SqliteWrapper {
  import opened Wrappers
  import opened Dicts
  import opened Text
  import opened Schema
  import opened QueryText

  /** The exceptions the wrapper's operations raise. */
  datatype Error =
    | ArityMismatch     // the `len(obj) == len(obj_schema)` assertion fails
    | TableNotInSchema  // ValueError "tablename must be in SCHEMA"
    | ColumnNotInTable  // ValueError "column must be in tablename"
    | ExecuteRaised     // `cursor.execute` rejects the statement (an sqlite3 error)

  /** A statement text with its parameter tuple, as handed to `cursor.execute`. */
  datatype Statement<V> = Statement(text: string, params: seq<V>)

  /** `ensure_tablename`. */
  function EnsureTablename(t: string): Outcome<Error>
  {
    if IsTable(t) then Pass else Fail(TableNotInSchema)
  }

  /** `ensure_is_column`. */
  function EnsureIsColumn(t: string, c: string): Outcome<Error>
  {
    if IsColumn(t, c) then Pass else Fail(ColumnNotInTable)
  }

  /** `ensure_tablename` raises exactly for names that are none of the eleven table-name constants. */
  lemma EnsureTablenameFailsExactly(t: string)
    ensures EnsureTablename(t) == Pass <==> t in TABLENAMES
    ensures EnsureTablename(t) != Pass ==> EnsureTablename(t) == Fail(TableNotInSchema)
  {
    IsTableIffTablename(t);
  }

  /** `ensure_is_column` raises exactly when no table of SCHEMA named `t` lists `c`, in particular for an unknown table. */
  lemma EnsureIsColumnFailsExactly(t: string, c: string)
    ensures EnsureIsColumn(t, c) == Pass <==> exists k :: 0 <= k < |SCHEMA| && SCHEMA[k].0 == t && c in SCHEMA[k].1
    ensures EnsureIsColumn(t, c) == Pass ==> t in TABLENAMES
    ensures EnsureIsColumn(t, c) != Pass ==> EnsureIsColumn(t, c) == Fail(ColumnNotInTable)
  {
    IsColumnIffListed(t, c);
    IsTableIffTablename(t);
    if IsColumn(t, c) {
      ColumnsArePlain(t, c);
    }
  }

  /** Every column of the list is a column of `table`. */
  predicate AllColumns(table: string, columns: seq<string>)
  {
    forall k :: 0 <= k < |columns| ==> IsColumn(table, columns[k])
  }

  /** `insert_one` up to the call of `execute`: the statement, or the exception raised first. */
  function InsertStatement<V>(table: string, columns: seq<string>, obj: seq<V>): Result<Statement<V>, Error>
  {
    if |obj| != |columns| then Failure(ArityMismatch)
    else if !IsTable(table) then Failure(TableNotInSchema)
    else if !AllColumns(table, columns) then Failure(ColumnNotInTable)
    else if columns == [] then Success(Statement(EmptyInsertText(table), obj))
    else Success(Statement(InsertText(table, columns), obj))
  }

  /** `get_all` up to the call of `execute`. */
  function SelectAllStatement<V>(table: string): Result<Statement<V>, Error>
  {
    if !IsTable(table) then Failure(TableNotInSchema)
    else Success(Statement(SELECT_HEAD + table, []))
  }

  /** `get_with_cond_equal` up to the call of `execute`; `filter` is the dictionary's entries in iteration order. */
  function SelectStatement<V>(table: string, filter: seq<(string, V)>): Result<Statement<V>, Error>
  {
    if !IsTable(table) then Failure(TableNotInSchema)
    else if !AllColumns(table, Keys(filter)) then Failure(ColumnNotInTable)
    else if filter == [] then Success(Statement(EmptyWhereText(SELECT_HEAD, table), []))
    else Success(Statement(WhereText(SELECT_HEAD, table, Keys(filter)), Values(filter)))
  }

  /** `delete` up to the call of `execute`. */
  function DeleteStatement<V>(table: string, columns: seq<string>, obj: seq<V>): Result<Statement<V>, Error>
  {
    if |obj| != |columns| then Failure(ArityMismatch)
    else if !IsTable(table) then Failure(TableNotInSchema)
    else if !AllColumns(table, columns) then Failure(ColumnNotInTable)
    else if columns == [] then Success(Statement(EmptyWhereText(DELETE_HEAD, table), obj))
    else Success(Statement(WhereText(DELETE_HEAD, table, columns), obj))
  }

  /** The statement-building part of `insert_one`, with its loop over the columns. */
  method BuildInsert<V>(table: string, columns: seq<string>, obj: seq<V>) returns (r: Result<Statement<V>, Error>)
    ensures r == InsertStatement(table, columns, obj)
  {
    if |obj| != |columns| {
      return Failure(ArityMismatch);
    }
    if EnsureTablename(table).Fail? {
      return Failure(TableNotInSchema);
    }
    var front := INSERT_HEAD + table + " (";
    var query := front;
    for i := 0 to |columns|
      invariant query == front + Terminated(columns[..i], ",")
      invariant AllColumns(table, columns[..i])
    {
      if EnsureIsColumn(table, columns[i]).Fail? {
        return Failure(ColumnNotInTable);
      }
      TerminatedExtend(front, columns, i, ",", query);
      query := query + columns[i] + ",";
    }
    assert AllColumns(table, columns) by {
      assert columns[..|columns|] == columns;
    }
    InsertTextFromLoop(table, columns, |obj|, query);
    query := query[..|query| - 1] + ") values (?";
    query := query + Repeat(",?", |obj| - 1);
    query := query + ")";
    return Success(Statement(query, obj));
  }

  /** The statement-building part of `get_with_cond_equal`, with its loop over the filter's keys. */
  method BuildSelect<V>(table: string, filter: seq<(string, V)>) returns (r: Result<Statement<V>, Error>)
    ensures r == SelectStatement(table, filter)
  {
    if EnsureTablename(table).Fail? {
      return Failure(TableNotInSchema);
    }
    var keys := Keys(filter);
    var front := SELECT_HEAD + table + " WHERE ";
    var query := front;
    for i := 0 to |filter|
      invariant query == front + Terminated(keys[..i], "=? AND ")
      invariant AllColumns(table, keys[..i])
    {
      if EnsureIsColumn(table, filter[i].0).Fail? {
        return Failure(ColumnNotInTable);
      }
      TerminatedExtend(front, keys, i, "=? AND ", query);
      query := query + filter[i].0 + "=? AND ";
    }
    assert AllColumns(table, keys) by {
      assert keys[..|keys|] == keys;
    }
    WhereTextFromLoop(SELECT_HEAD, table, keys, query);
    query := query[..|query| - 4];
    return Success(Statement(query, Values(filter)));
  }

  /** The statement-building part of `delete`, with its loop over the columns. */
  method BuildDelete<V>(table: string, columns: seq<string>, obj: seq<V>) returns (r: Result<Statement<V>, Error>)
    ensures r == DeleteStatement(table, columns, obj)
  {
    if |obj| != |columns| {
      return Failure(ArityMismatch);
    }
    if EnsureTablename(table).Fail? {
      return Failure(TableNotInSchema);
    }
    var front := DELETE_HEAD + table + " WHERE ";
    var query := front;
    for i := 0 to |columns|
      invariant query == front + Terminated(columns[..i], "=? AND ")
      invariant AllColumns(table, columns[..i])
    {
      if EnsureIsColumn(table, columns[i]).Fail? {
        return Failure(ColumnNotInTable);
      }
      TerminatedExtend(front, columns, i, "=? AND ", query);
      query := query + columns[i] + "=? AND ";
    }
    assert AllColumns(table, columns) by {
      assert columns[..|columns|] == columns;
    }
    WhereTextFromLoop(DELETE_HEAD, table, columns, query);
    query := query[..|query| - 4];
    return Success(Statement(query, obj));
  }

  /** The failure conditions of `insert_one`, in the order the source checks them: arity first, then the table, then each column. */
  lemma InsertStatementFailures<V>(table: string, columns: seq<string>, obj: seq<V>)
    ensures InsertStatement(table, columns, obj) == Failure(ArityMismatch) <==> |obj| != |columns|
    ensures InsertStatement(table, columns, obj) == Failure(TableNotInSchema)
      <==> |obj| == |columns| && table !in TABLENAMES
    ensures InsertStatement(table, columns, obj) == Failure(ColumnNotInTable)
      <==> |obj| == |columns| && table in TABLENAMES && exists k :: 0 <= k < |columns| && EnsureIsColumn(table, columns[k]) != Pass
  {
    IsTableIffTablename(table);
  }

  /** The failure conditions of `delete`: the same checks, in the same order, as `insert_one`. */
  lemma DeleteStatementFailures<V>(table: string, columns: seq<string>, obj: seq<V>)
    ensures DeleteStatement(table, columns, obj) == Failure(ArityMismatch) <==> |obj| != |columns|
    ensures DeleteStatement(table, columns, obj) == Failure(TableNotInSchema)
      <==> |obj| == |columns| && table !in TABLENAMES
    ensures DeleteStatement(table, columns, obj) == Failure(ColumnNotInTable)
      <==> |obj| == |columns| && table in TABLENAMES && exists k :: 0 <= k < |columns| && EnsureIsColumn(table, columns[k]) != Pass
  {
    IsTableIffTablename(table);
  }

  /** The failure conditions of `get_with_cond_equal`: the table, then each key of the filter. */
  lemma SelectStatementFailures<V>(table: string, filter: seq<(string, V)>)
    ensures SelectStatement(table, filter) == Failure(TableNotInSchema) <==> table !in TABLENAMES
    ensures SelectStatement(table, filter) == Failure(ColumnNotInTable)
      <==> table in TABLENAMES && exists k :: 0 <= k < |filter| && EnsureIsColumn(table, filter[k].0) != Pass
  {
    IsTableIffTablename(table);
  }

  /** Names that passed validation are plain identifiers. */
  lemma ValidatedNamesPlain(table: string, columns: seq<string>)
    requires IsTable(table) && AllColumns(table, columns)
    ensures PlainName(table) && AllPlain(columns)
  {
    TableIsPlain(table);
    forall k | 0 <= k < |columns| ensures PlainName(columns[k]) {
      ColumnsArePlain(table, columns[k]);
    }
  }

  /**
   * A successful `insert_one` on a non-empty column list: the text names the table and exactly the
   * given columns in the given order, has one `?` per value, and the values travel only as parameters.
   */
  lemma InsertStatementWellFormed<V>(table: string, columns: seq<string>, obj: seq<V>)
    requires columns != []
    requires InsertStatement(table, columns, obj).Success?
    ensures var st := InsertStatement(table, columns, obj).value;
      && st.params == obj
      && ParseInsert(st.text) == Some((table, columns))
      && Count(st.text, '?') == |st.params|
  {
    ValidatedNamesPlain(table, columns);
    InsertTextRoundTrip(table, columns);
    InsertTextPlaceholders(table, columns);
  }

  /**
   * A successful `get_with_cond_equal` on a non-empty filter: the text names the table and the keys in
   * iteration order, has one `?` per value, and the i-th `?` stands for the i-th key with the i-th value.
   */
  lemma SelectStatementWellFormed<V>(table: string, filter: seq<(string, V)>)
    requires filter != []
    requires SelectStatement(table, filter).Success?
    ensures var st := SelectStatement(table, filter).value;
      && ParseWhere(SELECT_HEAD, st.text) == Some((table, Keys(filter)))
      && Count(st.text, '?') == |st.params| == |filter|
      && forall i :: 0 <= i < |filter| ==> (Keys(filter)[i], st.params[i]) == filter[i]
  {
    ValidatedNamesPlain(table, Keys(filter));
    WhereTextRoundTrip(SELECT_HEAD, table, Keys(filter));
    WhereTextPlaceholders(SELECT_HEAD, table, Keys(filter));
  }

  /**
   * A successful `delete` on a non-empty column list: the text names the table and exactly the given
   * columns in order, and the parameter tuple is the values, one per `?`, aligned by position.
   */
  lemma DeleteStatementWellFormed<V>(table: string, columns: seq<string>, obj: seq<V>)
    requires columns != []
    requires DeleteStatement(table, columns, obj).Success?
    ensures var st := DeleteStatement(table, columns, obj).value;
      && st.params == obj
      && ParseWhere(DELETE_HEAD, st.text) == Some((table, columns))
      && Count(st.text, '?') == |st.params|
  {
    ValidatedNamesPlain(table, columns);
    WhereTextRoundTrip(DELETE_HEAD, table, columns);
    WhereTextPlaceholders(DELETE_HEAD, table, columns);
  }

  /** The text depends only on the table and the column names: values of the same arity give the same outcome and text. */
  lemma StatementTextIgnoresValues<V>(table: string, columns: seq<string>, a: seq<V>, b: seq<V>)
    requires |a| == |b|
    ensures InsertStatement(table, columns, a).Success? == InsertStatement(table, columns, b).Success?
    ensures InsertStatement(table, columns, a).Success? ==>
      InsertStatement(table, columns, a).value.text == InsertStatement(table, columns, b).value.text
    ensures DeleteStatement(table, columns, a).Success? == DeleteStatement(table, columns, b).Success?
    ensures DeleteStatement(table, columns, a).Success? ==>
      DeleteStatement(table, columns, a).value.text == DeleteStatement(table, columns, b).value.text
  {
  }

  /** Two filters with the same keys in the same order give the same outcome and the same text. */
  lemma SelectTextIgnoresValues<V>(table: string, f: seq<(string, V)>, g: seq<(string, V)>)
    requires Keys(f) == Keys(g)
    ensures SelectStatement(table, f).Success? == SelectStatement(table, g).Success?
    ensures SelectStatement(table, f).Success? ==> SelectStatement(table, f).value.text == SelectStatement(table, g).value.text
  {
    assert f == [] <==> g == [];
  }

  /**
   * Empty inputs, which the source does not reject: `insert_one` builds a text with one `?` for no
   * value and no column list, and the WHERE builders build a text cut inside `WHERE`; none of them reads
   * back as a statement of its kind.
   */
  lemma EmptyInputsMalformed<V>(table: string)
    requires IsTable(table)
    ensures InsertStatement<V>(table, [], []) == Success(Statement(EmptyInsertText(table), []))
    ensures Count(EmptyInsertText(table), '?') == 1
    ensures ParseInsert(EmptyInsertText(table)) == None
    ensures SelectStatement<V>(table, []) == Success(Statement(EmptyWhereText(SELECT_HEAD, table), []))
    ensures ParseWhere(SELECT_HEAD, EmptyWhereText(SELECT_HEAD, table)) == None
    ensures DeleteStatement<V>(table, [], []) == Success(Statement(EmptyWhereText(DELETE_HEAD, table), []))
    ensures ParseWhere(DELETE_HEAD, EmptyWhereText(DELETE_HEAD, table)) == None
  {
    TableIsPlain(table);
    EmptyInsertUnreadable(table);
    EmptyWhereUnreadable(SELECT_HEAD, table);
    EmptyWhereUnreadable(DELETE_HEAD, table);
  }

  /** The insert text for no columns has one mark, and its `)` right after the table name does not read back. */
  lemma EmptyInsertUnreadable(table: string)
    requires PlainName(table)
    ensures Count(EmptyInsertText(table), '?') == 1
    ensures ParseInsert(EmptyInsertText(table)) == None
  {
    var t := EmptyInsertText(table);
    CountAbsent(INSERT_HEAD + table + " ) values (", '?');
    CountConcat(INSERT_HEAD + table + " ) values (", "?)", '?');
    assert t == INSERT_HEAD + table + " ) values (" + "?)";
    SkipConcat(INSERT_HEAD, table + " ) values (?)");
    IndexOfAt(table, " ) values (?)", ' ');
  }

  /** A WHERE text cut to `" WH"` does not read back. */
  lemma EmptyWhereUnreadable(head: string, table: string)
    requires PlainName(table)
    ensures ParseWhere(head, EmptyWhereText(head, table)) == None
  {
    SkipConcat(head, table + " WH");
    IndexOfAt(table, " WH", ' ');
  }

  /**
   * The module-level connection `dbconn` and cursor `dbcur`, seen through what the wrapper hands them:
   * every statement passed to `execute`, in order, and the number of `commit` calls. Whether SQLite
   * accepts a statement is outside the model: each operation takes it as the parameter `executeOk`.
   */
  class Connection<V> {
    var executed: seq<Statement<V>>
    var commits: nat

    /** A freshly opened connection (what `connect` leaves behind). */
    constructor ()
      ensures executed == [] && commits == 0
    {
      executed := [];
      commits := 0;
    }

    /**
     * `insert_one`: on a validation failure nothing is executed or committed; otherwise the statement
     * is handed to `execute`, and committed once only when `execute` returns.
     */
    method InsertOne(table: string, columns: seq<string>, obj: seq<V>, executeOk: bool) returns (outcome: Outcome<Error>)
      modifies this
      ensures match InsertStatement(table, columns, obj)
        case Failure(e) => outcome == Fail(e) && executed == old(executed) && commits == old(commits)
        case Success(st) =>
          && executed == old(executed) + [st]
          && (if executeOk then outcome == Pass && commits == old(commits) + 1
              else outcome == Fail(ExecuteRaised) && commits == old(commits))
    {
      var r := BuildInsert(table, columns, obj);
      match r
      case Failure(e) =>
        return Fail(e);
      case Success(st) =>
        executed := executed + [st];
        if !executeOk {
          return Fail(ExecuteRaised);
        }
        commits := commits + 1;
        return Pass;
    }

    /** `get_all`: `SELECT * FROM T` with no parameters, after the table check; nothing is committed. */
    method GetAll(table: string, executeOk: bool) returns (outcome: Outcome<Error>)
      modifies this
      ensures match SelectAllStatement<V>(table)
        case Failure(e) => outcome == Fail(e) && executed == old(executed)
        case Success(st) =>
          && executed == old(executed) + [st]
          && outcome == (if executeOk then Pass else Fail(ExecuteRaised))
      ensures commits == old(commits)
    {
      if EnsureTablename(table).Fail? {
        return Fail(TableNotInSchema);
      }
      executed := executed + [Statement(SELECT_HEAD + table, [])];
      if !executeOk {
        return Fail(ExecuteRaised);
      }
      return Pass;
    }

    /** `get_with_cond_equal`: on a validation failure nothing is executed; otherwise one statement; nothing is committed. */
    method GetWithCondEqual(table: string, filter: seq<(string, V)>, executeOk: bool) returns (outcome: Outcome<Error>)
      modifies this
      ensures match SelectStatement(table, filter)
        case Failure(e) => outcome == Fail(e) && executed == old(executed)
        case Success(st) =>
          && executed == old(executed) + [st]
          && outcome == (if executeOk then Pass else Fail(ExecuteRaised))
      ensures commits == old(commits)
    {
      var r := BuildSelect(table, filter);
      match r
      case Failure(e) =>
        return Fail(e);
      case Success(st) =>
        executed := executed + [st];
        if !executeOk {
          return Fail(ExecuteRaised);
        }
        return Pass;
    }

    /**
     * `delete`: on a validation failure nothing is executed or committed; otherwise the statement is
     * handed to `execute`, and committed once only when `execute` returns.
     */
    method Delete(table: string, columns: seq<string>, obj: seq<V>, executeOk: bool) returns (outcome: Outcome<Error>)
      modifies this
      ensures match DeleteStatement(table, columns, obj)
        case Failure(e) => outcome == Fail(e) && executed == old(executed) && commits == old(commits)
        case Success(st) =>
          && executed == old(executed) + [st]
          && (if executeOk then outcome == Pass && commits == old(commits) + 1
              else outcome == Fail(ExecuteRaised) && commits == old(commits))
    {
      var r := BuildDelete(table, columns, obj);
      match r
      case Failure(e) =>
        return Fail(e);
      case Success(st) =>
        executed := executed + [st];
        if !executeOk {
          return Fail(ExecuteRaised);
        }
        commits := commits + 1;
        return Pass;
    }
  }
}
