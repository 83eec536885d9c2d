# BulkDeleteBuilder: configuration and DELETE statement text

`BulkDeleteBuilder<T>` deletes rows from a SQL Server table in bulk. The caller
configures it with fluent setters: the rows, the target table, the id columns,
an optional property-to-column mapping, and options. `Execute` then stages the
id values of the rows in a temporary table named `[#<guid>]`, and deletes by
joining the target table against it:

    DELETE a FROM <table> a JOIN [#<guid>] b ON a.[<col1>] = b.[<prop1>] AND a.[<col2>] = b.[<prop2>] ...

Each side of an equality on a string-typed column carries ` COLLATE <collation>`.

This project models the part of the builder that has no database in it:

- the builder's configuration as an immutable record (`Builder.BuilderState`);
- each setter as a function that replaces exactly one field;
- `GetDbColumnName`, the mapping lookup;
- the text of the join condition and of the `DELETE` statement (`DeleteSql`).

Some inputs are not computed by the builder itself, so they are parameters here:

- the GUID text of the temp table;
- whether each column of the staged data table is string-typed, as a
  `map<string, bool>` (the data table comes from `ToDataTable`, which is not part
  of this model);
- the collation constant `Constants.Collation`;
- the value of a fresh `BulkDeleteOptions`.

Files:

- `wrappers.dfy`: `Option`, which stands for C#'s null, and `Result`, which
  stands for an exception.
- `text.dfy`: `string.Join` and its layout theory, plus character search.
- `builder.dfy`: the builder state, the setters and the column-name lookup.
- `delete_sql.dfy`: clauses, the join condition, the temp-table name and the
  statement.

How the C# failure cases are modelled:

- A null `_tableName` interpolates as the empty string, and it does here too.
- A null `_idColumns` makes `Select` throw, so `RenderDelete` returns
  `Failure(IdColumnsNotSet)`.
- An id column the data table lacks makes `Columns[x].DataType` throw, so
  `RenderDelete` returns `Failure(UnknownColumn(x))`. `x` is the first such
  column, because `string.Join` enumerates the clauses in order.

## Model

| member | source | states |
|---|---|---|
| `Builder.Unconfigured` | src/EntityFrameworkCore.SqlServer.SimpleBulks/BulkDelete/BulkDeleteBuilder.cs:20-29 | the state either constructor leaves: all five configurable fields null |
| `Builder.WithData` | src/EntityFrameworkCore.SqlServer.SimpleBulks/BulkDelete/BulkDeleteBuilder.cs:31-35 | the data field becomes the argument (null included) and every other field is unchanged |
| `Builder.ToTable` | src/EntityFrameworkCore.SqlServer.SimpleBulks/BulkDelete/BulkDeleteBuilder.cs:37-41 | the table name becomes the argument and every other field is unchanged |
| `Builder.WithIdColumn` | src/EntityFrameworkCore.SqlServer.SimpleBulks/BulkDelete/BulkDeleteBuilder.cs:43-47 | the id columns become a one-element list holding the argument; nothing else changes |
| `Builder.WithIdColumns` | src/EntityFrameworkCore.SqlServer.SimpleBulks/BulkDelete/BulkDeleteBuilder.cs:49-53 | the id columns become the given list as is (order kept, null included); nothing else changes |
| `Builder.IsNullOrEmpty` | src/EntityFrameworkCore.SqlServer.SimpleBulks/BulkDelete/BulkDeleteBuilder.cs:58 | `string.IsNullOrEmpty`: a null or empty name |
| `Builder.WithIdSelector` | src/EntityFrameworkCore.SqlServer.SimpleBulks/BulkDelete/BulkDeleteBuilder.cs:55-60 | a member name that is neither null nor empty gives a one-element list; otherwise the list of member names is used; nothing else changes |
| `Builder.WithDbColumnMappings` | src/EntityFrameworkCore.SqlServer.SimpleBulks/BulkDelete/BulkDeleteBuilder.cs:62-66 | the mapping becomes the argument (null included) and every other field is unchanged |
| `Builder.ConfigureBulkOptions` | src/EntityFrameworkCore.SqlServer.SimpleBulks/BulkDelete/BulkDeleteBuilder.cs:68-76 | the options become fresh defaults, passed through the callback only when it is non-null; nothing else changes |
| `Builder.DbColumnName` | src/EntityFrameworkCore.SqlServer.SimpleBulks/BulkDelete/BulkDeleteBuilder.cs:78-86 | without a mapping the name comes back unchanged; with one, a present key gives its mapped value and an absent key gives the name itself |
| `Builder.LastSetterWins` | src/EntityFrameworkCore.SqlServer.SimpleBulks/BulkDelete/BulkDeleteBuilder.cs:31-76 | two setter calls that write the same field leave the state the second call alone gives; this covers all seven setters, mixes of the three `WithId` overloads included |
| `Builder.Apply` | src/EntityFrameworkCore.SqlServer.SimpleBulks/BulkDelete/BulkDeleteBuilder.cs:31-76 | each of the seven setters, the three `WithId` overloads included, changes at most the one field it writes |
| `Builder.ApplyAll` | src/EntityFrameworkCore.SqlServer.SimpleBulks/BulkDelete/BulkDeleteBuilder.cs:31-76 | a chain of setter calls leaves every field that no call in it writes as it was |
| `Builder.SettersCommute` | src/EntityFrameworkCore.SqlServer.SimpleBulks/BulkDelete/BulkDeleteBuilder.cs:31-76 | any two setter calls that write different fields give the same state in either order, for all seven setters |
| `Builder.SelectorMatchesOtherOverloads` | src/EntityFrameworkCore.SqlServer.SimpleBulks/BulkDelete/BulkDeleteBuilder.cs:43-60 | the selector overload equals the string overload when reflection finds one member, and the list overload otherwise |
| `Builder.ConfigureDiscardsEarlierOptions` | src/EntityFrameworkCore.SqlServer.SimpleBulks/BulkDelete/BulkDeleteBuilder.cs:68-76 | options configured earlier have no effect on the result |
| `Builder.ConfigureIdempotent` | src/EntityFrameworkCore.SqlServer.SimpleBulks/BulkDelete/BulkDeleteBuilder.cs:68-76 | configuring twice with the same callback equals configuring once |
| `Builder.EmptyMappingIsNoMapping` | src/EntityFrameworkCore.SqlServer.SimpleBulks/BulkDelete/BulkDeleteBuilder.cs:78-86 | an empty mapping resolves every name as a null mapping does |
| `Text.Join` | src/EntityFrameworkCore.SqlServer.SimpleBulks/BulkDelete/BulkDeleteBuilder.cs:94 | for n >= 1 parts the joined text begins with the first part and ends exactly where the last part ends in the layout |
| `Text.JoinLength` | src/EntityFrameworkCore.SqlServer.SimpleBulks/BulkDelete/BulkDeleteBuilder.cs:94 | n >= 1 parts join to a text as long as all parts together plus n - 1 separators |
| `Text.OffsetClosedForm` | src/EntityFrameworkCore.SqlServer.SimpleBulks/BulkDelete/BulkDeleteBuilder.cs:94 | part i starts after exactly the i earlier parts and i separators |
| `Text.JoinPartAt` | src/EntityFrameworkCore.SqlServer.SimpleBulks/BulkDelete/BulkDeleteBuilder.cs:94-99 | part i stands verbatim at the offset after i earlier parts and i separators |
| `Text.JoinSeparatorAt` | src/EntityFrameworkCore.SqlServer.SimpleBulks/BulkDelete/BulkDeleteBuilder.cs:94-99 | exactly one separator stands between part i and part i + 1 |
| `Text.JoinIsLaidOut` | src/EntityFrameworkCore.SqlServer.SimpleBulks/BulkDelete/BulkDeleteBuilder.cs:94-99 | the joined text has the layout: every part at its offset, a separator in every gap, and the right total length |
| `Text.LaidOutIsJoin` | src/EntityFrameworkCore.SqlServer.SimpleBulks/BulkDelete/BulkDeleteBuilder.cs:94-99 | any text with that layout is the joined text, so the layout characterises `string.Join` completely |
| `DeleteSql.CollationSuffix` | src/EntityFrameworkCore.SqlServer.SimpleBulks/BulkDelete/BulkDeleteBuilder.cs:96-97 | the suffix is non-empty exactly for string columns, and then it is `" COLLATE "` followed by the collation |
| `DeleteSql.Clause` | src/EntityFrameworkCore.SqlServer.SimpleBulks/BulkDelete/BulkDeleteBuilder.cs:98 | one equality: `a.[`, the target name, `]`, then the staged side |
| `DeleteSql.StagedSide` | src/EntityFrameworkCore.SqlServer.SimpleBulks/BulkDelete/BulkDeleteBuilder.cs:98 | the rest of the equality: the suffix, ` = b.[`, the staged name, `]`, the suffix again |
| `DeleteSql.ParseStagedSideRoundTrip` | src/EntityFrameworkCore.SqlServer.SimpleBulks/BulkDelete/BulkDeleteBuilder.cs:98 | a staged side `suffix = b.[staged]suffix` whose suffix holds no `]` reads back as the staged name and the suffix, whatever the staged name holds |
| `DeleteSql.ParseClause` | src/EntityFrameworkCore.SqlServer.SimpleBulks/BulkDelete/BulkDeleteBuilder.cs:98 | whatever it reads back reassembles into the text it read: `a.[target]suffix = b.[staged]suffix` |
| `DeleteSql.ParseClauseRoundTrip` | src/EntityFrameworkCore.SqlServer.SimpleBulks/BulkDelete/BulkDeleteBuilder.cs:98 | a clause whose target name and suffix hold no `]` reads back as the target name, the staged name and the suffix it was built from |
| `DeleteSql.ColumnClause` | src/EntityFrameworkCore.SqlServer.SimpleBulks/BulkDelete/BulkDeleteBuilder.cs:95-98 | the lambda's clause for one id column: its mapped name as target, its own name as staged name, and the collation suffix its data-table type calls for |
| `DeleteSql.ColumnClauseParts` | src/EntityFrameworkCore.SqlServer.SimpleBulks/BulkDelete/BulkDeleteBuilder.cs:94-98 | a column's clause has the mapped name on the target side and the property name on the staged side; the same suffix is on both sides, and it is the collation override exactly when the column is string-typed |
| `DeleteSql.FirstUnknown` | src/EntityFrameworkCore.SqlServer.SimpleBulks/BulkDelete/BulkDeleteBuilder.cs:94-96 | finds the first id column the data table lacks; every column before it is known |
| `DeleteSql.ClauseList` | src/EntityFrameworkCore.SqlServer.SimpleBulks/BulkDelete/BulkDeleteBuilder.cs:94-99 | succeeds exactly when every id column is in the data table; then it holds one clause per id column, in order; otherwise it fails on the first unknown column |
| `DeleteSql.JoinCondition` | src/EntityFrameworkCore.SqlServer.SimpleBulks/BulkDelete/BulkDeleteBuilder.cs:94-99 | succeeds exactly when the id columns are set and all known; null id columns give `IdColumnsNotSet`; set id columns with one the data table lacks give `UnknownColumn` naming the first such column |
| `DeleteSql.TempTableName` | src/EntityFrameworkCore.SqlServer.SimpleBulks/BulkDelete/BulkDeleteBuilder.cs:90 | the name is `[#`, then the GUID text, then `]` |
| `DeleteSql.TempTableNameRoundTrip` | src/EntityFrameworkCore.SqlServer.SimpleBulks/BulkDelete/BulkDeleteBuilder.cs:90 | the GUID text can be read back from the temp-table name |
| `DeleteSql.StatementHead` | src/EntityFrameworkCore.SqlServer.SimpleBulks/BulkDelete/BulkDeleteBuilder.cs:101 | the text before the join condition: `DELETE a FROM `, the table, ` a JOIN `, the temp table, ` b ON ` |
| `DeleteSql.TableText` | src/EntityFrameworkCore.SqlServer.SimpleBulks/BulkDelete/BulkDeleteBuilder.cs:101 | the interpolated table name: the name when set, the empty string when `_tableName` is null |
| `DeleteSql.RenderDelete` | src/EntityFrameworkCore.SqlServer.SimpleBulks/BulkDelete/BulkDeleteBuilder.cs:88-101 | succeeds exactly when the id columns are set and all known, and then begins with `DELETE a FROM <table> a JOIN <temp> b ON `; a failure is the join condition's failure |
| `DeleteSql.RenderedIsHeadAndCondition` | src/EntityFrameworkCore.SqlServer.SimpleBulks/BulkDelete/BulkDeleteBuilder.cs:94-101 | the statement is the head followed by the clauses joined with `" AND "` |
| `DeleteSql.StatementLength` | src/EntityFrameworkCore.SqlServer.SimpleBulks/BulkDelete/BulkDeleteBuilder.cs:94-101 | for n >= 1 id columns the statement holds the head, the n clauses and n - 1 separators, and nothing more |
| `DeleteSql.ClauseInStatement` | src/EntityFrameworkCore.SqlServer.SimpleBulks/BulkDelete/BulkDeleteBuilder.cs:94-101 | clause i of the statement, at its place after the head, is id column i's clause; the last clause ends the statement |
| `DeleteSql.SeparatorInStatement` | src/EntityFrameworkCore.SqlServer.SimpleBulks/BulkDelete/BulkDeleteBuilder.cs:94-101 | exactly one `" AND "` follows clause i, and clause i + 1 starts right after it |
| `DeleteSql.StatementClauseParts` | src/EntityFrameworkCore.SqlServer.SimpleBulks/BulkDelete/BulkDeleteBuilder.cs:94-101 | the text at clause i's place reads back as id column i's mapped name, its property name and, for a string column, the collation override on both sides |
| `DeleteSql.NoWithIdCannotRender` | src/EntityFrameworkCore.SqlServer.SimpleBulks/BulkDelete/BulkDeleteBuilder.cs:94 | starting from a new builder, any chain of setter calls without a `WithId` call leaves the id columns null, so building the statement fails with `IdColumnsNotSet` |
| `DeleteSql.NoIdColumnsLeaveConditionEmpty` | src/EntityFrameworkCore.SqlServer.SimpleBulks/BulkDelete/BulkDeleteBuilder.cs:94-101 | an empty id list gives the head alone, ending with `ON ` |
| `DeleteSql.ClauseListDependsOnlyOnListedNames` | src/EntityFrameworkCore.SqlServer.SimpleBulks/BulkDelete/BulkDeleteBuilder.cs:94-99 | two builders whose mapped names agree on the listed columns give the same clauses |
| `DeleteSql.RenderDependsOnlyOnTableIdsAndMappedNames` | src/EntityFrameworkCore.SqlServer.SimpleBulks/BulkDelete/BulkDeleteBuilder.cs:88-101 | for given data-table column types, the statement depends only on the table name, the id columns and their mapped names: not on the options, the data beyond those column types, or mapping entries for other columns |
| `DeleteSql.EmptyMappingRendersAsNoMapping` | src/EntityFrameworkCore.SqlServer.SimpleBulks/BulkDelete/BulkDeleteBuilder.cs:78-101 | an empty mapping and a null mapping render the same statement |

## Left out

- The constructors and the stored `SqlConnection` and `SqlTransaction` (lines
  17-29) are opaque collaborators. `Builder.Unconfigured` stands for the
  all-null state a constructor leaves behind.
- Opening the connection, creating and running commands, and the affected-row
  count (lines 103-125) are database I/O. For the same reason, what the
  statement deletes on the server is not modelled.
- `SqlBulkCopy` staging of the rows (line 114) is a driver facility.
- `ToDataTable` and `GenerateTableDefinition` (lines 91-92) are not part of this
  model. So neither the `CREATE TABLE` text nor what a null `_data` does there is
  modelled; the data table's column types are an input.
- Column lookups into the staged data table use the `map<string, bool>` as given. The
  name-matching rules of `DataColumnCollection` (e.g. its case-insensitive fallback)
  are not modelled.
- `GetMemberName` and `GetMemberNames` (line 57-58) reflect on expressions and
  are not part of this model; their answers are the inputs of
  `Builder.WithIdSelector`.
- GUID generation (line 90) is nondeterministic; the GUID text is a parameter.
- `Log` (line 130) reads the wall clock and calls a caller callback.
- The members of `BulkDeleteOptions` are not part of this model; the options
  type is a type parameter, and the configure callback is modelled as a pure
  function from options to options instead of an action that mutates them.
- A null element inside an id-column list is not modelled: id names are
  non-null strings.
- `Builder.DbColumnName`: the mapping is a `map<string, string>` looked up by exact
  key equality, with non-null values. An `IDictionary` may carry its own key
  comparer, such as a case-insensitive one, and may map a key to null; then
  `ContainsKey` and the indexer (line 85) follow that comparer, and a null mapped
  name prints as `a.[]` (line 98). Neither is modelled.
- `Builder.WithData`, `Builder.WithIdColumns` and `Builder.WithDbColumnMappings`
  store their argument as a value. The C# setters (lines 33, 51 and 64) keep a
  reference to the caller's list or dictionary, so a change the caller makes
  before `Execute` changes the statement. A lazily computed id-column enumerable
  is also enumerated twice, by `ToDataTable` (line 91) and by `Select` (line 94),
  and may yield different names each time. The model reads one fixed list.
- `DeleteSql.ParseClauseRoundTrip` requires the mapped name and the collation to
  be free of `]`. The builder does not escape `]` inside bracketed names, so a
  name holding one makes the clause text ambiguous.
- When `_idColumns` is null the exception may already arise in `ToDataTable`
  (line 91), before `Select` (line 94); both end `Execute` with an exception,
  and the model reports `IdColumnsNotSet` for either.
