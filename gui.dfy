/**
 * The schema-driven parts of the data-entry window: one tab per table, each
 * with a keyboard mnemonic chosen so that no two tabs share one, and one input
 * field per column, chosen by the column's foreign key and type. The widgets
 * themselves are not modelled; a field is named by its kind.
 */
module Gui {
  import opened Wrappers
  import opened Dicts

  /** The Python type object stored in a column entry's type slot. */
  datatype PyType = Str | Int | Float | OtherType(name: string)

  /** A column entry: its name, its type, and its foreign-key slot (None, or the referenced table). */
  datatype ColumnEntry = ColumnEntry(name: string, pyType: PyType, foreignKey: Option<string>)

  /** The input field built for a column. */
  datatype Field = ReferenceSelector(target: string) | TextField | IntegerField | RealField

  /** A notebook tab: its text, the index of its underlined mnemonic character, and its fields. */
  datatype Tab = Tab(text: string, underline: nat, fields: seq<Field>)

  /** The exceptions that abort building the window. */
  datatype GuiError =
    | TypeNotSupported(table: string, column: string)  // ValueError "... type is not supported"
    | MnemonicIndexOutOfRange(table: string)           // IndexError: every character of the name is taken

  /** The test `if column[ColumnEntry.foreign_key_id]`, with Python's truthiness: None and "" are false. */
  predicate HasForeignKey(c: ColumnEntry)
  {
    c.foreignKey.Some? && c.foreignKey.value != ""
  }

  /** The if/elif chain of `init_tab_body` for one column. */
  function FieldFor(table: string, c: ColumnEntry): Result<Field, GuiError>
  {
    if HasForeignKey(c) then Success(ReferenceSelector(c.foreignKey.value))
    else if c.pyType == Str then Success(TextField)
    else if c.pyType == Int then Success(IntegerField)
    else if c.pyType == Float then Success(RealField)
    else Failure(TypeNotSupported(table, c.name))
  }

  /** The type of value a field takes in; a reference selector takes a row of another table. */
  function FieldType(f: Field): Option<PyType>
  {
    match f
    case ReferenceSelector(_) => None
    case TextField => Some(Str)
    case IntegerField => Some(Int)
    case RealField => Some(Float)
  }

  /**
   * Column dispatch: it fails exactly for a column with neither a foreign key nor one of the three
   * supported types; a foreign key takes precedence over the type; otherwise the field takes in
   * values of the column's own type.
   */
  lemma FieldForCases(table: string, c: ColumnEntry)
    ensures FieldFor(table, c).Success? <==> HasForeignKey(c) || c.pyType in {Str, Int, Float}
    ensures FieldFor(table, c).Failure? ==> FieldFor(table, c).error == TypeNotSupported(table, c.name)
    ensures HasForeignKey(c) ==> FieldFor(table, c) == Success(ReferenceSelector(c.foreignKey.value))
    ensures !HasForeignKey(c) && FieldFor(table, c).Success? ==> FieldType(FieldFor(table, c).value) == Some(c.pyType)
  {
  }

  /** A foreign key wins whatever the type: changing the type of a foreign-key column changes nothing. */
  lemma ForeignKeyWinsOverType(table: string, c: ColumnEntry, t: PyType)
    requires HasForeignKey(c)
    ensures FieldFor(table, c.(pyType := t)) == FieldFor(table, c)
  {
  }

  /**
   * The fields of a table, in column order, or the error of its first unsupported column.
   */
  function TabBody(table: string, columns: seq<ColumnEntry>): (r: Result<seq<Field>, GuiError>)
    ensures r.Success? <==> forall k :: 0 <= k < |columns| ==> FieldFor(table, columns[k]).Success?
    ensures r.Success? ==> |r.value| == |columns|
    ensures r.Success? ==> forall k :: 0 <= k < |columns| ==> r.value[k] == FieldFor(table, columns[k]).value
    ensures r.Failure? ==>
      exists k :: 0 <= k < |columns| && FieldFor(table, columns[k]) == Failure(r.error) &&
        forall j :: 0 <= j < k ==> FieldFor(table, columns[j]).Success?
  {
    if columns == [] then Success([])
    else
      match FieldFor(table, columns[0])
      case Failure(e) => Failure(e)
      case Success(f) =>
        match TabBody(table, columns[1..])
        case Failure(e) => Failure(e)
        case Success(fs) => Success([f] + fs)
  }

  /** The smallest index of `name` whose character is not in `used`, or `|name|` when every character is. */
  function FirstUnused(name: string, used: set<char>): (i: nat)
    ensures i <= |name|
    ensures forall j :: 0 <= j < i ==> name[j] in used
    ensures i < |name| ==> name[i] !in used
  {
    if name == [] then 0
    else if name[0] !in used then 0
    else 1 + FirstUnused(name[1..], used)
  }

  /** The mnemonic characters of a list of tabs. */
  function Chosen(tabs: seq<Tab>): set<char>
  {
    set k | 0 <= k < |tabs| && tabs[k].underline < |tabs[k].text| :: tabs[k].text[tabs[k].underline]
  }

  /**
   * What `init_tabs` builds for the tables of `entries`, given the mnemonic characters already taken:
   * per table, first the mnemonic, then the body; the first failure aborts.
   */
  function BuildTabs(entries: seq<(string, seq<ColumnEntry>)>, used: set<char>): Result<seq<Tab>, GuiError>
    decreases |entries|
  {
    if entries == [] then Success([])
    else
      var name := entries[0].0;
      var i := FirstUnused(name, used);
      if i == |name| then Failure(MnemonicIndexOutOfRange(name))
      else
        match TabBody(name, entries[0].1)
        case Failure(e) => Failure(e)
        case Success(fields) => Prepend([Tab(name, i, fields)], BuildTabs(entries[1..], used + {name[i]}))
  }

  /** `tabs` in front of a successful result; a failure stays a failure. */
  function Prepend(tabs: seq<Tab>, r: Result<seq<Tab>, GuiError>): Result<seq<Tab>, GuiError>
  {
    match r
    case Failure(e) => Failure(e)
    case Success(rest) => Success(tabs + rest)
  }

  /**
   * Mnemonic assignment: every table gets a tab whose text is its name, in order; each tab's mnemonic is the
   * smallest index whose character is not taken by the earlier tabs (or `used`), so the mnemonics are new and
   * pairwise distinct.
   */
  lemma {:induction false} BuildTabsMnemonics(entries: seq<(string, seq<ColumnEntry>)>, used: set<char>)
    requires BuildTabs(entries, used).Success?
    ensures var tabs := BuildTabs(entries, used).value;
      && |tabs| == |entries|
      && (forall k :: 0 <= k < |tabs| ==> tabs[k].text == entries[k].0 && tabs[k].underline < |tabs[k].text|)
      && (forall k :: 0 <= k < |tabs| ==> tabs[k].underline == FirstUnused(entries[k].0, used + Chosen(tabs[..k])))
      && (forall k :: 0 <= k < |tabs| ==> tabs[k].text[tabs[k].underline] !in used)
      && (forall j, k :: 0 <= j < k < |tabs| ==> tabs[j].text[tabs[j].underline] != tabs[k].text[tabs[k].underline])
    decreases |entries|
  {
    if entries != [] {
      var name := entries[0].0;
      var i := FirstUnused(name, used);
      var head := Tab(name, i, TabBody(name, entries[0].1).value);
      var used' := used + {name[i]};
      BuildTabsMnemonics(entries[1..], used');
      var rest := BuildTabs(entries[1..], used').value;
      var tabs := BuildTabs(entries, used).value;
      assert tabs == [head] + rest;
      forall k | 1 <= k < |tabs|
        ensures used + Chosen(tabs[..k]) == used' + Chosen(rest[..k - 1])
      {
        assert tabs[..k] == [head] + rest[..k - 1];
        ChosenCons(head, rest[..k - 1]);
      }
      assert Chosen(tabs[..0]) == {};
    }
  }

  lemma ChosenCons(head: Tab, tabs: seq<Tab>)
    requires head.underline < |head.text|
    ensures Chosen([head] + tabs) == {head.text[head.underline]} + Chosen(tabs)
  {
    var all := [head] + tabs;
    forall ch | ch in Chosen(all) ensures ch in {head.text[head.underline]} + Chosen(tabs) {
      var k :| 0 <= k < |all| && all[k].underline < |all[k].text| && ch == all[k].text[all[k].underline];
      if k > 0 {
        assert all[k] == tabs[k - 1];
      }
    }
    forall ch | ch in Chosen(tabs) ensures ch in Chosen(all) {
      var k :| 0 <= k < |tabs| && tabs[k].underline < |tabs[k].text| && ch == tabs[k].text[tabs[k].underline];
      assert all[k + 1] == tabs[k];
    }
    assert all[0] == head;
  }

  /** The main window's schema-driven state. */
  class Window {
    /** The table entries the window is built from, in iteration order. */
    const schema: seq<(string, seq<ColumnEntry>)>
    /** Tables whose components need refreshing. */
    var dirtyTables: seq<string>
    /** Per table, the components that reference it through a foreign key. */
    var foreignKeyComponents: map<string, seq<Field>>
    /** The notebook's tabs. */
    var tabs: seq<Tab>

    /** `Gui.__init__`: one empty component list per table, nothing dirty, no tabs yet. */
    constructor (schema: seq<(string, seq<ColumnEntry>)>)
      ensures this.schema == schema
      ensures dirtyTables == [] && tabs == []
      ensures foreignKeyComponents.Keys == set k | 0 <= k < |schema| :: schema[k].0
      ensures forall t :: t in foreignKeyComponents ==> foreignKeyComponents[t] == []
    {
      this.schema := schema;
      dirtyTables := [];
      tabs := [];
      var components: map<string, seq<Field>> := map[];
      for k := 0 to |schema|
        invariant components.Keys == set j | 0 <= j < k :: schema[j].0
        invariant forall t :: t in components ==> components[t] == []
      {
        components := components[schema[k].0 := []];
      }
      foreignKeyComponents := components;
    }

    /** `init_tab_body`: the loop over the table's columns, building one field per column. */
    method InitTabBody(table: string) returns (r: Result<seq<Field>, GuiError>)
      requires table in Keys(schema)
      ensures r == TabBody(table, Get(schema, table).value)
    {
      var columns := Get(schema, table).value;
      var fields: seq<Field> := [];
      for i := 0 to |columns|
        invariant |fields| == i
        invariant forall k :: 0 <= k < i ==> FieldFor(table, columns[k]).Success? && fields[k] == FieldFor(table, columns[k]).value
      {
        var column := columns[i];
        if HasForeignKey(column) {
          fields := fields + [ReferenceSelector(column.foreignKey.value)];
        } else if column.pyType == Str {
          fields := fields + [TextField];
        } else if column.pyType == Int {
          fields := fields + [IntegerField];
        } else if column.pyType == Float {
          fields := fields + [RealField];
        } else {
          return Failure(TypeNotSupported(table, column.name));
        }
      }
      assert fields == TabBody(table, columns).value;
      return Success(fields);
    }

    /**
     * `init_tabs`: for each table in order, scan its name for the first character not yet used as a
     * mnemonic, take it, and build the tab's body.
     */
    method InitTabs() returns (outcome: Outcome<GuiError>)
      requires DistinctKeys(schema)
      modifies this
      ensures match BuildTabs(schema, {})
        case Success(built) => outcome == Pass && tabs == built
        case Failure(e) => outcome == Fail(e)
      ensures dirtyTables == old(dirtyTables) && foreignKeyComponents == old(foreignKeyComponents)
    {
      var mnemonicSet: set<char> := {};
      tabs := [];
      assert schema[0..] == schema;
      assert Prepend([], BuildTabs(schema, {})) == BuildTabs(schema, {}) by {
        if BuildTabs(schema, {}).Success? {
          assert [] + BuildTabs(schema, {}).value == BuildTabs(schema, {}).value;
        }
      }
      for k := 0 to |schema|
        invariant BuildTabs(schema, {}) == Prepend(tabs, BuildTabs(schema[k..], mnemonicSet))
        invariant dirtyTables == old(dirtyTables) && foreignKeyComponents == old(foreignKeyComponents)
      {
        var name := schema[k].0;
        var index := 0;
        while index < |name| && name[index] in mnemonicSet
          invariant 0 <= index <= |name|
          invariant forall j :: 0 <= j < index ==> name[j] in mnemonicSet
        {
          index := index + 1;
        }
        assert schema[k..][0] == schema[k] && schema[k..][1..] == schema[k + 1..];
        if index == |name| {
          return Fail(MnemonicIndexOutOfRange(name));
        }
        mnemonicSet := mnemonicSet + {name[index]};
        GetEntry(schema, k);
        var body := InitTabBody(name);
        if body.Failure? {
          return Fail(body.error);
        }
        PrependPrepend(tabs, [Tab(name, index, body.value)], BuildTabs(schema[k + 1..], mnemonicSet));
        tabs := tabs + [Tab(name, index, body.value)];
      }
      assert schema[|schema|..] == [];
      assert tabs + [] == tabs;
      return Pass;
    }
  }

  lemma PrependPrepend(a: seq<Tab>, b: seq<Tab>, r: Result<seq<Tab>, GuiError>)
    ensures Prepend(a, Prepend(b, r)) == Prepend(a + b, r)
  {
    if r.Success? {
      assert a + (b + r.value) == (a + b) + r.value;
    }
  }
}
