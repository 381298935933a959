/**
 * The statement texts that the query builders hand to SQLite, stated by their
 * shape, and decoders that read the table and the columns back out of a text.
 * Values are never part of a text: they travel beside it as the parameter
 * tuple and are bound to the `?` marks in order (qmark paramstyle of PEP 249).
 */
module QueryText {
  import opened Wrappers
  import opened Text
  import opened Schema

  const INSERT_HEAD := "insert into "
  const SELECT_HEAD := "SELECT * FROM "
  const DELETE_HEAD := "DELETE FROM "

  /** `?,?,...,?` with `n` marks, spelled as the source spells it: `"?" + ",?" * (n - 1)`. */
  function Placeholders(n: nat): string
    requires n >= 1
  {
    "?" + Repeat(",?", n - 1)
  }

  /** `insert into T (c1,...,cn) values (?,...,?)`. */
  function InsertText(table: string, columns: seq<string>): string
    requires columns != []
  {
    INSERT_HEAD + table + " (" + Join(columns, ",") + ") values (" + Placeholders(|columns|) + ")"
  }

  /** `c1=? AND c2=? AND ... AND cn=?`. */
  function Conditions(columns: seq<string>): string
    requires columns != []
  {
    columns[0] + "=?" + (if |columns| == 1 then "" else " AND " + Conditions(columns[1..]))
  }

  /** `<head>T WHERE c1=? AND ... AND cn=? `, with its one trailing space. */
  function WhereText(head: string, table: string, columns: seq<string>): string
    requires columns != []
  {
    head + table + " WHERE " + Conditions(columns) + " "
  }

  /** What the insert builder produces for an empty column list: the `(` is cut and one mark remains. */
  function EmptyInsertText(table: string): string
  {
    INSERT_HEAD + table + " ) values (?)"
  }

  /** What the WHERE builders produce for an empty column list: the cut of four characters eats into `WHERE`. */
  function EmptyWhereText(head: string, table: string): string
  {
    head + table + " WH"
  }

  /** Reads the table and the column list back out of an insert text; None for any other text. */
  function ParseInsert(s: string): Option<(string, seq<string>)>
  {
    match Skip(s, INSERT_HEAD)
    case None => None
    case Some(r) =>
      var i := IndexOf(r, ' ');
      match Skip(r[i..], " (")
      case None => None
      case Some(r') =>
        var j := IndexOf(r', ')');
        var columns := Split(r'[..j], ',');
        if r'[j..] == ") values (" + Placeholders(|columns|) + ")" then Some((r[..i], columns)) else None
  }

  /** Reads the columns back out of `c1=? AND ... AND cn=?`; None for any other text. */
  function ParseConditions(s: string): Option<seq<string>>
    decreases |s|
  {
    var i := IndexOf(s, '=');
    match Skip(s[i..], "=?")
    case None => None
    case Some(r) =>
      if r == [] then Some([s[..i]])
      else
        match Skip(r, " AND ")
        case None => None
        case Some(r') =>
          match ParseConditions(r')
          case None => None
          case Some(columns) => Some([s[..i]] + columns)
  }

  /** Reads the table and the columns back out of a WHERE text with the given head; None for any other text. */
  function ParseWhere(head: string, s: string): Option<(string, seq<string>)>
  {
    match Skip(s, head)
    case None => None
    case Some(r) =>
      var i := IndexOf(r, ' ');
      match Skip(r[i..], " WHERE ")
      case None => None
      case Some(r') =>
        if r' == [] || r'[|r'| - 1] != ' ' then None
        else
          match ParseConditions(r'[..|r'| - 1])
          case None => None
          case Some(columns) => Some((r[..i], columns))
  }

  /** The first occurrence of `c` in `a + b` is where `b` starts, when `a` avoids `c` and `b` starts with it. */
  lemma IndexOfAt(a: string, b: string, c: char)
    requires forall i :: 0 <= i < |a| ==> a[i] != c
    requires b != [] && b[0] == c
    ensures IndexOf(a + b, c) == |a|
  {
    assert (a + b)[|a|] == c;
    assert forall j :: 0 <= j < |a| ==> (a + b)[j] == a[j];
  }

  /** Placing the columns of an insert text: they are in order and can be read back, with the table. */
  lemma InsertTextRoundTrip(table: string, columns: seq<string>)
    requires columns != []
    requires PlainName(table) && AllPlain(columns)
    ensures ParseInsert(InsertText(table, columns)) == Some((table, columns))
  {
    var joined := Join(columns, ",");
    var tail := ") values (" + Placeholders(|columns|) + ")";
    var r' := joined + tail;
    var r := table + (" (" + r');
    var s := InsertText(table, columns);
    assert s == INSERT_HEAD + r;
    SkipConcat(INSERT_HEAD, r);
    IndexOfAt(table, " (" + r', ' ');
    assert r[IndexOf(r, ' ')..] == " (" + r';
    assert r[..IndexOf(r, ' ')] == table;
    SkipConcat(" (", r');
    JoinAvoids(columns, ",", ')');
    IndexOfAt(joined, tail, ')');
    assert r'[..|joined|] == joined;
    assert r'[|joined|..] == tail;
    PlainNoneContains(columns, ',');
    SplitJoin(columns, ',');
  }

  /** The last condition: a name without `=`, then `=?`. */
  lemma ParseLastCondition(name: string)
    requires '=' !in name
    ensures ParseConditions(name + "=?") == Some([name])
  {
    var s := name + "=?";
    IndexOfAt(name, "=?", '=');
    assert s[..|name|] == name;
    assert s[|name|..] == "=?";
  }

  /** A condition followed by `" AND "` and more conditions. */
  lemma ParseMoreConditions(name: string, t: string)
    requires '=' !in name
    requires ParseConditions(t).Some?
    ensures ParseConditions(name + ("=?" + (" AND " + t))) == Some([name] + ParseConditions(t).value)
  {
    var rest := " AND " + t;
    var s := name + ("=?" + rest);
    IndexOfAt(name, "=?" + rest, '=');
    assert s[..|name|] == name;
    assert s[|name|..] == "=?" + rest;
    SkipConcat("=?", rest);
    SkipConcat(" AND ", t);
  }

  /** The round trip for a list of several columns, from the round trip for its tail. */
  lemma ConditionsStep(columns: seq<string>)
    requires |columns| > 1
    requires '=' !in columns[0]
    requires ParseConditions(Conditions(columns[1..])) == Some(columns[1..])
    ensures ParseConditions(Conditions(columns)) == Some(columns)
  {
    ParseMoreConditions(columns[0], Conditions(columns[1..]));
    ConditionsCons(columns);
    assert [columns[0]] + columns[1..] == columns;
  }

  /** The conditions of several columns: the first condition, `" AND "`, then the conditions of the rest. */
  lemma ConditionsCons(columns: seq<string>)
    requires |columns| > 1
    ensures Conditions(columns) == columns[0] + ("=?" + (" AND " + Conditions(columns[1..])))
  {
  }

  /** The round trip for a single column. */
  lemma ConditionsSingle(columns: seq<string>)
    requires |columns| == 1
    requires '=' !in columns[0]
    ensures ParseConditions(Conditions(columns)) == Some(columns)
  {
    ParseLastCondition(columns[0]);
    assert Conditions(columns) == columns[0] + "=?";
    assert [columns[0]] == columns;
  }

  /** Reading back `c1=? AND ... AND cn=?` gives the columns in their order, when no column contains `=`. */
  lemma {:induction false} ConditionsRoundTrip(columns: seq<string>)
    requires columns != []
    requires NoneContains(columns, '=')
    ensures ParseConditions(Conditions(columns)) == Some(columns)
  {
    if |columns| == 1 {
      ConditionsSingle(columns);
    } else {
      ConditionsRoundTrip(columns[1..]);
      ConditionsStep(columns);
    }
  }

  /** A plain name contains no character outside letters, digits and `_`. */
  lemma PlainAvoids(name: string, c: char)
    requires PlainName(name) && !IsNameChar(c)
    ensures c !in name
  {
  }

  /** Plain names contain no character outside letters, digits and `_`. */
  lemma {:induction false} PlainNoneContains(names: seq<string>, c: char)
    requires AllPlain(names) && !IsNameChar(c)
    ensures NoneContains(names, c)
  {
    if names != [] {
      assert PlainName(names[0]);
      assert AllPlain(names[1..]) by {
        forall k | 0 <= k < |names[1..]| ensures PlainName(names[1..][k]) {
          assert names[1..][k] == names[k + 1];
        }
      }
      PlainNoneContains(names[1..], c);
    }
  }

  /** Reading a WHERE text up to its conditions: the head, a table name without spaces, `" WHERE "`, then the rest. */
  lemma ParseWhereShape(head: string, table: string, rest: string)
    requires ' ' !in table
    ensures ParseWhere(head, head + (table + (" WHERE " + rest))) ==
      if rest == [] || rest[|rest| - 1] != ' ' then None
      else
        match ParseConditions(rest[..|rest| - 1])
        case None => None
        case Some(columns) => Some((table, columns))
  {
    var r := table + (" WHERE " + rest);
    SkipConcat(head, r);
    IndexOfAt(table, " WHERE " + rest, ' ');
    assert r[..|table|] == table;
    assert r[|table|..] == " WHERE " + rest;
    SkipConcat(" WHERE ", rest);
  }

  /** The table and the columns of a WHERE text can be read back, the columns in their order. */
  lemma WhereTextRoundTrip(head: string, table: string, columns: seq<string>)
    requires columns != []
    requires PlainName(table) && AllPlain(columns)
    ensures ParseWhere(head, WhereText(head, table, columns)) == Some((table, columns))
  {
    var conds := Conditions(columns);
    var rest := conds + " ";
    assert WhereText(head, table, columns) == head + (table + (" WHERE " + rest));
    PlainAvoids(table, ' ');
    ParseWhereShape(head, table, rest);
    assert rest[..|rest| - 1] == conds;
    PlainNoneContains(columns, '=');
    ConditionsRoundTrip(columns);
  }

  /** An insert text has exactly one `?` per column. */
  lemma InsertTextPlaceholders(table: string, columns: seq<string>)
    requires columns != []
    requires PlainName(table) && AllPlain(columns)
    ensures Count(InsertText(table, columns), '?') == |columns|
  {
    var joined := Join(columns, ",");
    JoinAvoids(columns, ",", '?');
    CountAbsent(INSERT_HEAD + table + " (" + joined + ") values (", '?');
    CountConcat(INSERT_HEAD + table + " (" + joined + ") values (", Placeholders(|columns|), '?');
    CountConcat(INSERT_HEAD + table + " (" + joined + ") values (" + Placeholders(|columns|), ")", '?');
    CountConcat("?", Repeat(",?", |columns| - 1), '?');
    CountRepeat(",?", |columns| - 1, '?');
  }

  /** `c1=? AND ... AND cn=?` has exactly one `?` per column. */
  lemma {:induction false} ConditionsPlaceholders(columns: seq<string>)
    requires columns != []
    requires AllPlain(columns)
    ensures Count(Conditions(columns), '?') == |columns|
  {
    var rest := if |columns| == 1 then "" else " AND " + Conditions(columns[1..]);
    CountAbsent(columns[0], '?');
    CountConcat(columns[0], "=?", '?');
    CountConcat(columns[0] + "=?", rest, '?');
    if |columns| > 1 {
      ConditionsPlaceholders(columns[1..]);
      CountConcat(" AND ", Conditions(columns[1..]), '?');
    }
  }

  /** A WHERE text has exactly one `?` per column. */
  lemma WhereTextPlaceholders(head: string, table: string, columns: seq<string>)
    requires columns != []
    requires head == SELECT_HEAD || head == DELETE_HEAD
    requires PlainName(table) && AllPlain(columns)
    ensures Count(WhereText(head, table, columns), '?') == |columns|
  {
    var front := head + table + " WHERE ";
    CountAbsent(front, '?');
    ConditionsPlaceholders(columns);
    CountConcat(front, Conditions(columns), '?');
    CountConcat(front + Conditions(columns), " ", '?');
  }

  /** What the WHERE loops accumulate, `c1=? AND ... cn=? AND `, is the conditions followed by `" AND "`. */
  lemma {:induction false} TerminatedConditions(columns: seq<string>)
    requires columns != []
    ensures Terminated(columns, "=? AND ") == Conditions(columns) + " AND "
  {
    if |columns| > 1 {
      TerminatedConditions(columns[1..]);
    }
  }

  /** Cutting the last comma off the accumulated column list and appending the marks gives the insert text. */
  lemma InsertTextFromLoop(table: string, columns: seq<string>, n: int, query: string)
    requires n == |columns|
    requires query == INSERT_HEAD + table + " (" + Terminated(columns[..|columns|], ",")
    ensures |query| >= 1
    ensures query[..|query| - 1] + ") values (?" + Repeat(",?", n - 1) + ")"
      == if columns == [] then EmptyInsertText(table) else InsertText(table, columns)
  {
    assert columns[..|columns|] == columns;
    if columns == [] {
      EmptyInsertFromLoop(table, query);
    } else {
      TerminatedIsJoin(columns, ",");
      JoinedInsertFromLoop(table, columns, query);
    }
  }

  /** The loop over no columns leaves `insert into T (`; the cut removes the `(`. */
  lemma EmptyInsertFromLoop(table: string, query: string)
    requires query == INSERT_HEAD + table + " (" + ""
    ensures |query| >= 1
    ensures query[..|query| - 1] + ") values (?" + "" + ")" == EmptyInsertText(table)
  {
    var head := INSERT_HEAD + table + " ";
    assert query == head + "(";
    assert query[..|query| - 1] == head;
  }

  /** The loop over some columns leaves them joined by commas with one trailing comma, which the cut removes. */
  lemma JoinedInsertFromLoop(table: string, columns: seq<string>, query: string)
    requires columns != []
    requires query == INSERT_HEAD + table + " (" + (Join(columns, ",") + ",")
    ensures |query| >= 1
    ensures query[..|query| - 1] + ") values (?" + Repeat(",?", |columns| - 1) + ")" == InsertText(table, columns)
  {
    var front := INSERT_HEAD + table + " (" + Join(columns, ",");
    assert query == front + ",";
    CutCommaAppendValues(front, Repeat(",?", |columns| - 1));
  }

  /** Cutting the trailing comma and appending `) values (?`, the further marks and `)`. */
  lemma CutCommaAppendValues(front: string, marks: string)
    ensures |front + ","| >= 1
    ensures (front + ",")[..|front|] + ") values (?" + marks + ")" == front + ") values (" + ("?" + marks) + ")"
  {
    assert (front + ",")[..|front|] == front;
    assert ") values (?" == ") values (" + "?";
  }

  /** Cutting the last four characters off the accumulated conditions gives the WHERE text. */
  lemma WhereTextFromLoop(head: string, table: string, columns: seq<string>, query: string)
    requires query == head + table + " WHERE " + Terminated(columns[..|columns|], "=? AND ")
    ensures |query| >= 4
    ensures query[..|query| - 4] == if columns == [] then EmptyWhereText(head, table) else WhereText(head, table, columns)
  {
    assert columns[..|columns|] == columns;
    if columns == [] {
      assert query == head + table + " WH" + "ERE ";
    } else {
      TerminatedConditions(columns);
      assert query == head + table + " WHERE " + Conditions(columns) + " " + "AND ";
    }
  }
}
