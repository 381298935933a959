# Kaguya data-entry tool: schema, SQL wrapper and tab construction

This project models the core of the data-entry tool for the Kaguya database.

- **Schema.** `schema.py` holds the eleven table-name constants and the `SCHEMA` dictionary. The dictionary maps each table to its column names, with the auto-incremented `Id` left out. The model keeps it as an insertion-ordered list of `(table, columns)` pairs.
- **SQL wrapper.** `sqlite_wrapper.py` checks table and column names against `SCHEMA`. It then builds the text of parameterised statements by string concatenation. The model covers `insert_one`, `get_all`, `get_with_cond_equal` and `delete` up to the pair they hand to `cursor.execute`: the statement text and the parameter tuple.
- **Window.** `gui.py` builds a notebook window from a schema. It creates one tab per table and picks, for each tab, the first character of the name not already used as a keyboard mnemonic. It creates one input field per column, chosen by the column's foreign key and Python type.

How the model is built:

- Python dictionaries are modelled as insertion-ordered sequences of key/value pairs (module `Dicts`). Iteration order is therefore explicit.
- The values passed to the wrapper are of an arbitrary type `V`. The model can therefore show that the statement text never depends on them: values travel only as parameters.
- The wrapper's loops are modelled as methods with the source's loops, proved equal to specification functions (`InsertStatement`, `SelectStatement`, `DeleteStatement`).
- The texts those functions build are read back by independent decoders (`ParseInsert`, `ParseWhere`). Round-trip lemmas show that the table and the columns are recovered in order. The `?` marks are counted to show one placeholder per parameter.
- Round trips hold because every name that passes validation is a plain identifier. This is proved over the literal `SCHEMA`.
- The module-level `dbconn`/`dbcur` pair is modelled as a `Connection` object. It records the statements handed to `execute` and the number of commits. Whether SQLite accepts a statement is a parameter, `executeOk`, of each operation. When `execute` raises, the operation fails with `ExecuteRaised` and nothing is committed.
- The source's exceptions become error values:
  - `AssertionError` on an arity mismatch becomes `ArityMismatch`. The model assumes Python runs with assertions enabled (not `-O`).
  - `ValueError` for a table becomes `TableNotInSchema`; for a column, `ColumnNotInTable`.
  - The exception `init_tab_body` raises for an unsupported column type (a `ValueError` as written) becomes `TypeNotSupported`.
  - `IndexError` when a table name has no unused character becomes `MnemonicIndexOutOfRange`.

Empty inputs are modelled as written, because the source does not reject them:

- `insert_one` with no columns builds `insert into T ) values (?)`, which has one mark and no parameter.
- `get_with_cond_equal` with an empty dictionary and `delete` with no columns cut `" WHERE "` to `" WH"`.

The documentation of `get_with_cond_equal` says the dictionary "should not be empty", but nothing checks it. The model follows the code. `EmptyInputsMalformed` proves that none of these texts reads back, through the model's decoders, as a statement of its kind. That is a statement about the decoders, not about SQL. The insert text and the delete text are not valid SQL. `SELECT * FROM T WH` may be accepted by SQLite as a select of every row of `T` under the alias `WH`. In that case `get_with_cond_equal(T)` with its default empty dictionary behaves like `get_all(T)`.

`gui.py` imports a `ColumnEntry` that `schema.py` does not define. The `SCHEMA` of `schema.py` holds plain column names, not entries, and the branches of `init_tab_body` contain only comments. The window is therefore modelled over an abstract column entry: a name, a Python type, and a foreign-key slot. The tab body is the list of the field kinds the branches name.

## Model

| member | source | states |
|---|---|---|
| Schema.SchemaKeys | data_entry/schema.py:8-85 | The keys of `SCHEMA` are exactly the eleven `TABLENAME_*` constants, in declaration order, each once. |
| Schema.SchemaColumnsDistinct | data_entry/schema.py:21-85 | No table lists a column twice. |
| Schema.SchemaTablesWellFormed | data_entry/schema.py:20-85 | Every table has at least one column and none lists the auto-incremented `Id`. |
| Schema.SchemaTableNamesPlain | data_entry/schema.py:21-85 | Every table name is made of letters, digits and `_` only. |
| Schema.SchemaColumnNamesPlain | data_entry/schema.py:21-85 | Every column name is made of letters, digits and `_` only. |
| Schema.IsTableIffTablename | data_entry/schema.py:8-21 | A name is a key of `SCHEMA` if and only if it is one of the table-name constants. |
| Schema.ColumnsArePlain | data_entry/schema.py:21-85 | A name pair that passes the column test is a table of `SCHEMA` with one of its columns, and both are plain identifiers. |
| Schema.TableIsPlain | data_entry/schema.py:21-85 | A name that passes the table test is a plain identifier. |
| Schema.IsColumnIffListed | data_entry/schema.py:21-85 | The dictionary lookup agrees with the entries: `c` is a column of `t` if and only if some entry for `t` lists `c`. |
| Dicts.Get | data_entry/sqlite_wrapper.py:42 | A dictionary lookup finds a value exactly when the key is present, and the value found belongs to an entry with that key. |
| Dicts.GetEntry | data_entry/sqlite_wrapper.py:42 | With distinct keys, looking up the key of any entry yields that entry's value. |
| SqliteWrapper.EnsureTablenameFailsExactly | data_entry/sqlite_wrapper.py:32-35 | `ensure_tablename` fails, with the table error, exactly for names that are none of the eleven table names. |
| SqliteWrapper.EnsureIsColumnFailsExactly | data_entry/sqlite_wrapper.py:37-43 | `ensure_is_column` passes exactly when `SCHEMA` lists the column for that table, so only for a known table, and otherwise fails with the column error. |
| SqliteWrapper.BuildInsert | data_entry/sqlite_wrapper.py:73-93 | The loop that accumulates `key,` per column and then slices and appends the marks yields exactly `InsertStatement`: the checks in source order, then the text and the value tuple. |
| SqliteWrapper.BuildSelect | data_entry/sqlite_wrapper.py:108-123 | The loop that accumulates `var=? AND ` per key and then cuts four characters yields exactly `SelectStatement`, with the dictionary's values as parameters. |
| SqliteWrapper.BuildDelete | data_entry/sqlite_wrapper.py:126-145 | The loop that accumulates `key=? AND ` per column and then cuts four characters yields exactly `DeleteStatement`. |
| SqliteWrapper.InsertStatementFailures | data_entry/sqlite_wrapper.py:84-89 | Insert fails with the arity error if and only if the lengths differ; with the table error if and only if they agree and the table is unknown; with the column error if and only if both pass and some column is not in the table. |
| SqliteWrapper.DeleteStatementFailures | data_entry/sqlite_wrapper.py:137-142 | The same three failure conditions, in the same order, for delete. |
| SqliteWrapper.SelectStatementFailures | data_entry/sqlite_wrapper.py:117-120 | Select fails with the table error if and only if the table is unknown, and with the column error if and only if the table is known and some key is not a column of it. |
| SqliteWrapper.ValidatedNamesPlain | data_entry/sqlite_wrapper.py:32-43 | A table and columns that pass validation are plain identifiers, so they cannot break the statement's syntax. |
| SqliteWrapper.InsertStatementWellFormed | data_entry/sqlite_wrapper.py:87-94 | A successful insert's text reads back as an insert into that table of exactly those columns in order, has one `?` per value, and its parameters are the values in order. |
| SqliteWrapper.SelectStatementWellFormed | data_entry/sqlite_wrapper.py:118-123 | A successful select's text reads back as that table with the dictionary's keys in iteration order, has one `?` per parameter, and the i-th parameter is the value of the i-th key. |
| SqliteWrapper.DeleteStatementWellFormed | data_entry/sqlite_wrapper.py:140-145 | A successful delete's text reads back as that table with exactly those columns in order, has one `?` per value, and its parameters are the values in order. |
| SqliteWrapper.StatementTextIgnoresValues | data_entry/sqlite_wrapper.py:87-94 | For insert and delete, the outcome and the text depend only on the table, the columns and the number of values, never on the values themselves. |
| SqliteWrapper.SelectTextIgnoresValues | data_entry/sqlite_wrapper.py:118-123 | Two filters with the same keys in the same order give the same outcome and the same text. |
| SqliteWrapper.EmptyInputsMalformed | data_entry/sqlite_wrapper.py:87-93 | With no columns, insert still succeeds with a text that has one `?` and no parameter. Select with an empty dictionary and delete with no columns succeed with a text cut inside `WHERE`. None of these texts reads back through the model's decoders as a statement of its kind. |
| SqliteWrapper.Connection.constructor | data_entry/sqlite_wrapper.py:46-64 | A fresh connection has executed nothing and committed nothing. |
| SqliteWrapper.Connection.InsertOne | data_entry/sqlite_wrapper.py:73-95 | On a validation failure nothing is executed or committed. Otherwise the insert statement is handed to `execute` once. It is committed once if `execute` returns. If `execute` raises, the operation fails with `ExecuteRaised` and nothing is committed. |
| SqliteWrapper.Connection.GetAll | data_entry/sqlite_wrapper.py:97-106 | An unknown table executes nothing. For a known one, `SELECT * FROM T` is handed to `execute` with no parameters, and the operation fails with `ExecuteRaised` if `execute` raises. Nothing is ever committed. |
| SqliteWrapper.Connection.GetWithCondEqual | data_entry/sqlite_wrapper.py:108-124 | On a validation failure nothing is executed. Otherwise the select statement is handed to `execute` once, and the operation fails with `ExecuteRaised` if `execute` raises. Nothing is ever committed. |
| SqliteWrapper.Connection.Delete | data_entry/sqlite_wrapper.py:126-146 | On a validation failure nothing is executed or committed. Otherwise the delete statement is handed to `execute` once. It is committed once if `execute` returns. If `execute` raises, the operation fails with `ExecuteRaised` and nothing is committed. |
| QueryText.InsertTextRoundTrip | data_entry/sqlite_wrapper.py:87-93 | The insert text built from a plain table name and non-empty plain column names decodes back to that table and those columns. |
| QueryText.ConditionsRoundTrip | data_entry/sqlite_wrapper.py:119-122 | `c1=? AND ... AND cn=?` decodes back to the columns in order, whenever no column name contains `=`. |
| QueryText.WhereTextRoundTrip | data_entry/sqlite_wrapper.py:118-122 | A `SELECT`/`DELETE ... WHERE` text decodes back to its table and its columns in order. |
| QueryText.InsertTextPlaceholders | data_entry/sqlite_wrapper.py:91-93 | An insert text has exactly one `?` per column. |
| QueryText.ConditionsPlaceholders | data_entry/sqlite_wrapper.py:121 | The conditions have exactly one `?` per column. |
| QueryText.WhereTextPlaceholders | data_entry/sqlite_wrapper.py:140-144 | A WHERE text has exactly one `?` per column. |
| QueryText.TerminatedConditions | data_entry/sqlite_wrapper.py:121-122 | What the WHERE loop accumulates is the conditions followed by `" AND "`, so cutting four characters leaves the conditions and one space. |
| QueryText.InsertTextFromLoop | data_entry/sqlite_wrapper.py:87-93 | Slicing off the last comma of the accumulated column list and appending `) values (?`, `,?` times one less than the arity and `)` gives the insert text. |
| QueryText.WhereTextFromLoop | data_entry/sqlite_wrapper.py:118-122 | Cutting four characters off the accumulated WHERE text gives the WHERE text. |
| Gui.FieldForCases | data_entry/gui.py:69-80 | Column dispatch raises (a `ValueError` as written) exactly for a column with no foreign key and a type other than `str`, `int` or `float`. A foreign key yields a reference selector. Otherwise the field takes values of the column's type. |
| Gui.ForeignKeyWinsOverType | data_entry/gui.py:71-73 | When a column has a foreign key, its type does not affect the field. |
| Gui.TabBody | data_entry/gui.py:62-80 | A tab body succeeds exactly when every column is supported, with one field per column in order; otherwise it fails with the first unsupported column. |
| Gui.FirstUnused | data_entry/gui.py:48-52 | The mnemonic scan stops at the smallest index whose character is unused, or at the end of the name when every character is used. |
| Gui.BuildTabsMnemonics | data_entry/gui.py:45-55 | Every table gets a tab in schema order, labelled with its name. Each underline is a valid index and is the first unused character given the earlier tabs. The mnemonic characters are pairwise distinct. |
| Gui.Window.constructor | data_entry/gui.py:19-30 | The window starts with no dirty tables and no tabs, and with an empty component list for exactly the tables of the schema. |
| Gui.Window.InitTabBody | data_entry/gui.py:62-80 | The loop over the table's columns yields exactly `TabBody` of the table's columns. |
| Gui.Window.InitTabs | data_entry/gui.py:35-60 | The loop builds exactly the tabs of `BuildTabs`, or reports its first failure (a name with no unused character, or an unsupported column), and changes nothing but the tabs. |

## Left out

- `connect` and `close`: the database path, the existence assertion, the timestamped backup copy and the row factory are file-system and clock effects. `Connection.constructor` stands for a freshly opened connection.
- SQLite itself: parsing and executing the statements and the rows that `get_all` and `get_with_cond_equal` return. The model stops at the statement text and parameters handed to `execute`. Whether `execute` accepts them is the parameter `executeOk`, not something the model decides. For example, SQLite rejects the texts built for an empty column list in insert and delete.
- The `__main__` block of `sqlite_wrapper.py`: it is a manual test against a real database.
- The tkinter widgets: `init_root`, `init_menu`, `show_help`, `start`, the frame creation, packing, `enable_traversal` and the main loop. A tab is modelled by its text, underline index and field kinds.
- Gui.Window.InitTabs: the contents of `tabs` after a failure are left unspecified. The source adds a tab to the notebook before building its body, so on a body failure it leaves a half-built tab; the model adds each tab after its body.
- Gui.Window.InitTabs: it requires the schema's keys to be distinct, which a Python dictionary guarantees.
- Gui.Window.InitTabBody: it takes the table's columns by looking the table up in the window's schema, as the source does. It does not model the widgets created in each branch, because the source's branches contain only comments.
- The contents of `ColumnEntry`: `schema.py` defines no `ColumnEntry` and holds only column names, so the entry is abstract and no concrete schema of entries is modelled.
- SqliteWrapper.InsertStatement and SqliteWrapper.DeleteStatement: the arity check is a Python `assert`, which `python -O` removes. The model assumes assertions are enabled. Without them, a mismatched `obj` goes on to be built and handed to `execute`.
