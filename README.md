# my_dbms core, modelled in Dafny

`my_dbms` is a small SQL shell. Each statement is parsed by Lark and handed to a
`MyTransformer` handler. The handler works on Berkeley DB files under `DB/`:
- `DB/<table>_schema.db` is the metadata store of a table. It maps each column name to
  its type string ("int", "date", or "char" followed by the length token as written) and also holds the reserved keys
  `column_names`, `not_null`, `primary_key`, `reference_count` and `foreign_key`.
- `DB/<table>.db` is the row file. Each row is stored as a key, so equal rows merge.

This project models the handlers for CREATE TABLE, DROP TABLE, DESC, SELECT * (the
select-all branch), INSERT and DELETE, plus the WHERE-clause evaluator. It also proves
what they keep true. The main invariant is that `reference_count(T)` equals the number
of foreign-key clauses, across all tables, that name T.

Layout:
- `strings.dfy` (module `Strings`): the Python built-ins the handlers use, namely
  `lower`, the substring test, `join`/`split`, `str(int)`, `int(str)`, slicing,
  `index`, `count`, `remove` and code-point string ordering.
- `catalog.dfy` (module `Catalog`) defines:
  - the schema datatypes and the error kinds (one per message printed);
  - `Result`, with `Uncaught` for a Python exception no handler catches;
  - `MetaView`, the key/value view of a metadata store as `exists`/`get` see it;
  - the reference-count invariant and the lemmas that adjust counts.
- `create.dfy`, `drop.dfy`, `describe.dfy`, `select.dfy`, `insert.dfy`, `delete.dfy`
  and `where.dfy` each cover one handler.
  - Each check is written as a specification function, in the order the handler makes
    its checks.
  - The handler's loops are methods proved equal to those functions.
  - A declarative lemma says which statements are accepted and what they store.
- `engine.dfy` (module `Engine`): `class Database`, whose fields `catalog` (one schema
  per table) and `files` (one row set per row file) are what the handlers change. Each
  handler is a method. `Valid()` (the reference-count invariant, plus row width) holds
  before and after every call.

Behaviours of the source that the model reproduces and proves:
- A foreign key can only reference a table whose primary key is a single column. The
  source checks the leftover primary-key list only after the last zipped pair, and each
  pair removes its column from a freshly read copy of that list
  (`Create.AcceptedReferenceIsSingleKey`, `Create.CompositeKeyRejected`).
- A parenthesised sub-expression always fails inside WHERE.
  `evaluate_bool_expr` is called there with one argument, which is a TypeError
  (`Where.EvalFactor`, error `ParenthesizedCallError`).
- DESC shows "FOR" for a column that is both a primary-key column and a foreign-key
  column, because the foreign-key test runs last.
- Stored integers compare as text (`Where.IntegersCompareAsText`).
- A literal on the left of a comparison keeps its upper-case token type
  (`Where.LeftLiteralTypeNotLowered`).
- Column names in INSERT are not lower-cased (`Insert.NamesAreNotLowered`).
- NULL is stored as its token text (`Insert.NullStoredAsText`).
- A char length is stored as its token text, so `char(05)` is stored as "char05" and
  DESC shows it as `char(05)` (`Catalog.TypeString`, `Describe.TypeDisplayed`).
- A column named after a reserved key, such as `not_null`, is accepted by CREATE, but
  the reserved value written after it replaces its type
  (`Describe.ReservedNameShownAsType`, `Insert.ReservedNameTakesNoValue`).
- A duplicated column name in INSERT passes every check and then raises after the row
  file has been created (`Insert.DuplicateNameRaises`).

## Model

| member | source | states |
|---|---|---|
| Strings.Lower | run.py:23 | lower-casing keeps the length and maps each ASCII capital to its small letter, leaving every other character alone |
| Strings.IntToStringZero | run.py:199 | the stored count reads back as "0" exactly when it is zero |
| Strings.ParseIntToString | run.py:178 | `int(str(n)) == n`: a count or char length read back is the value written |
| Strings.SplitJoin | run.py:244 | `split("COLUMN")` of a "COLUMN"-join of lower-case names gives the names back, except that the empty join splits into `[""]` |
| Strings.RemoveFirst | run.py:146 | `list.remove` drops exactly one occurrence of a member and leaves a non-member list unchanged |
| Strings.CountOne | run.py:561-565 | a name occurs once exactly when its first index is its only index |
| Strings.IndexOf | run.py:443 | `list.index` gives the first position holding the element |
| Catalog.TypeString | run.py:39-47 | a char type is stored as "char" followed by its length token exactly as written (`char(05)` as "char05"); other stored types do not contain "char" |
| Catalog.MetaViewKeys | run.py:49-90 | the store's keys are the column names plus the reserved keys written so far |
| Catalog.ViewOfColumn | run.py:49 | `get` on a non-reserved column name returns that column's type string |
| Catalog.StoreIsStoreOf | run.py:49-173 | a committed store holds each column's type string and each reserved key's value, and nothing else |
| Catalog.AdjustCountsStep | run.py:176-179 | one read-increment-write round changes exactly the named table's count |
| Catalog.AdjustCountsAt | run.py:175-180 | after adjusting, each table's count has moved by delta times the number of entries naming it, and nothing else has changed |
| Catalog.AddTablePreserves | run.py:173-180 | storing a new table and raising each referenced count once per clause keeps counts equal to the number of clauses naming each table |
| Catalog.AddTableRefs | run.py:173-180 | after a CREATE, the clauses naming each table are the old ones plus the new table's |
| Catalog.DropTablePreserves | run.py:199-216 | removing an unreferenced table and lowering each count it raised keeps the invariant, and every remaining clause names an existing table |
| Create.CheckColumnsMeaning | run.py:36-60 | the column loop succeeds iff no char length is below 1 and no two names are equal once lowered; it then yields the lowered columns and NOT NULL names in order |
| Create.ValidateColumns | run.py:36-60 | the column loop returns what the column specification function returns, including which error comes first |
| Create.CheckKeyColumnsMeaning | run.py:76-83 | a key column list is accepted iff every lowered name is a key of the store, and then it is the lowered list |
| Create.ValidateKeyColumns | run.py:76-83 | the key-column loop equals its specification |
| Create.ValidatePrimaryKey | run.py:68-87 | the first PRIMARY KEY clause is checked in full, and a second one is rejected as a duplicate |
| Create.CheckPairsMeaning | run.py:129-159 | the zip loop succeeds iff each pair's referenced column exists, is a primary-key column and has the referencing column's type |
| Create.LeftoverEmpty | run.py:143-162 | removing a member leaves nothing exactly when the list was that member alone |
| Create.CheckReferenceMeaning | run.py:128-166 | a reference is accepted iff every zipped pair passes and the referenced primary key is exactly the last pair's column |
| Create.ValidatePair | run.py:129-159 | one zip round gives the existence, primary-key and type errors in the source's order, and the primary-key list left after the removal |
| Create.ValidateReference | run.py:128-166 | the zip loop plus the leftover test equals the reference specification |
| Create.CheckForeignKeyMeaning | run.py:95-170 | a clause is accepted iff its columns exist, it names another existing table and the reference is admissible; it is then stored lowered |
| Create.ValidateForeignKey | run.py:96-170 | one clause's loop body equals its specification, with self-reference checked before table existence |
| Create.CheckForeignKeysMeaning | run.py:93-173 | all clauses are accepted iff each one is, and they are stored in order |
| Create.ValidateForeignKeys | run.py:93-171 | the clause loop stops at the first rejected clause and otherwise returns every stored clause |
| Create.ValidateCreate | run.py:20-170 | the handler's checks in order (table existence, columns, primary key, foreign keys) give the first error or the schema to commit |
| Create.CheckConstraintsMeaning | run.py:67-173 | constraints pass iff there is at most one primary key, its columns are in the store as written so far, and every clause is admissible |
| Create.CreateSpecMeaning | run.py:20-184 | CREATE succeeds exactly on admissible statements and then stores the declared schema, with every name lowered and a count of 0 |
| Create.AcceptedReference | run.py:136-166 | an accepted clause names a table whose primary-key list, as read back, is the single column named by every zipped pair |
| Create.EmptyNameNotStored | run.py:49 | with non-empty column names, the empty name is never a key of the store |
| Create.AcceptedReferenceIsSingleKey | run.py:136-166 | with a consistent catalog, an accepted clause references a table with a one-column primary key |
| Create.CompositeKeyRejected | run.py:136-166 | a clause naming a table whose primary key is not exactly one column is always rejected |
| Create.CreateKeepsInvariant | run.py:107-180 | an accepted CREATE names only existing tables, and committing it keeps the reference-count invariant |
| Create.StoredListsReadBack | run.py:62-87 | after an accepted CREATE, splitting the stored column, NOT NULL and primary-key lists on "COLUMN" gives the lists back (the empty list as `[""]`) |
| Create.CreatedIsPlain | run.py:36-60 | an accepted CREATE whose column names are not reserved keys stores a table on which the DESC, INSERT and DELETE meaning lemmas apply |
| Drop.DropSpecMeaning | run.py:187-216 | DROP fails with NoSuchTable iff the table is absent, and with DropReferencedTableError iff its count is non-zero; otherwise only the table is gone, and each other count drops by the number of its clauses naming that table |
| Drop.DropKeepsInvariant | run.py:199-216 | a successful DROP keeps the reference-count invariant |
| Drop.ReferencedNotDroppable | run.py:199-202 | a table that any stored clause names cannot be dropped |
| Drop.CommitThenRemove | run.py:204-216 | lowering the counts a committed table raised, then removing it, restores the previous catalog |
| Drop.CreateThenDrop | run.py:173-216 | DROP right after a successful CREATE gives back the original catalog |
| Describe.DescribeRows | run.py:243-271 | the loop over stored column names yields the specified lines, or the error from a missing key |
| Describe.LocalColumnsMeaning | run.py:248-250 | a name is in the split foreign-key list iff it is a local column of some clause |
| Describe.TypeDisplayed | run.py:261-262 | the displayed type of a stored type string is the declared type, `char(<token>)` for char with the length token as stored |
| Describe.DescribeMeaning | run.py:230-272 | DESC gives one line per column, in order, with: the declared type; "N" exactly for primary-key or NOT NULL columns; "FOR" for a foreign-key column, else "PRI" for a primary-key column, else "" |
| Describe.ReservedNameShownAsType | run.py:49-65 | in `t(not_null int not null)` the store's `not_null` key holds the NOT NULL list, so DESC shows "not_null" as the column's type |
| Describe.EmptyTableRaises | run.py:244-246 | a table without columns makes DESC raise, because `get("")` finds nothing |
| Select.ListRows | run.py:321-325 | the cursor loop lists every stored row exactly once |
| Select.SelectAll | run.py:302-326 | select-all reports an unknown table, raises when the row file does not exist, and otherwise returns the stored column names and every row once |
| Insert.ReadValues | run.py:353-361 | the value loop strips quotes and lowers each token type, or raises on an empty token |
| Insert.ValidateValues | run.py:391-429 | the checking loop reports the first value that fails |
| Insert.ValidateInsert | run.py:341-429 | all checks before the row file opens, in the source's order, equal their specification |
| Insert.PrepareRow | run.py:432-452 | the truncation loop and the reordering loop build the specified row or raise |
| Insert.InsertRowArity | run.py:435-452 | an inserted row has one value per stored column name |
| Insert.ColumnValue | run.py:399-440 | a value's check is `Accepts`, and it is stored cut to the column's declared length |
| Insert.PositionalChecksMeaning | run.py:414-429 | without names, the checks pass iff each column accepts its value in order |
| Insert.PositionalRow | run.py:447-452 | without names, the row holds the values in column order, char values truncated |
| Insert.PositionalInsertMeaning | run.py:329-458 | without names, INSERT succeeds iff every token is readable, the counts agree and each column accepts its value; the row then holds the values in order, truncated |
| Insert.NamedChecksMeaning | run.py:391-412 | with non-reserved names, the checks pass iff every name is a column that accepts its value |
| Insert.NamedTruncations | run.py:436-440 | each named value is truncated by its named column's type |
| Insert.NamedReorder | run.py:441-445 | reordering succeeds iff every column is named, and then puts each column's own value in its place |
| Insert.NamedRow | run.py:435-445 | with names that are all columns, the row holds each column's named value, truncated, and fails when a column is not named |
| Insert.NamedInsertMeaning | run.py:329-458 | with non-reserved names, INSERT succeeds iff tokens are readable, counts agree, every name is an accepting column and every column is named; column j then holds its named value |
| Insert.NamesAreNotLowered | run.py:348-397 | `(ID)` does not find column `id` |
| Insert.ReservedNameAccepted | run.py:395-444 | a reserved key passes the existence check as a column name, and the statement then raises in the reordering |
| Insert.DuplicateNameChecks | run.py:391-412 | a column named twice passes every check |
| Insert.DuplicateNameRaises | run.py:391-444 | a column named twice raises in the reordering, after the row file was opened |
| Insert.ReservedNameExpects | run.py:49-65 | in `t(not_null int not null)` INSERT expects the token type "not_null" for the column |
| Insert.ReservedNameTakesNoValue | run.py:414-429 | there, INSERT refuses an integer as a type mismatch and NULL as a null in a non-nullable column, so the column takes no value |
| Insert.NullStoredAsText | run.py:403-452 | NULL into a nullable char(2) column stores "nu" |
| Delete.BuildScope | run.py:478-483 | the type-lookup loop builds the scope, or raises on a missing key |
| Delete.DeleteScopeMeaning | run.py:478-483 | the scope holds the columns, their type strings and their names qualified by the table |
| Delete.ClearRows | run.py:495-499 | without WHERE, every row is deleted and counted |
| Delete.VisitOne | run.py:484-491 | one cursor round deletes and counts exactly an accepted row |
| Delete.FailAtStart | run.py:488-493 | an evaluation error can only come at the first row visited, with nothing deleted |
| Delete.AllVisited | run.py:484-491 | after the loop, the remaining rows and the count are what the specification says |
| Delete.DeleteRows | run.py:484-493 | the cursor loop equals the specification and leaves the rows untouched on error |
| Delete.DeleteWhereMeaning | run.py:477-493 | DELETE WHERE fails iff evaluation fails on some row, and then on every row with the same error; otherwise a row remains iff the clause is not true on it, and the count is the number removed |
| Delete.ReservedNameScope | run.py:478-483 | in `t(not_null int not null)` DELETE takes "not_null" as the column's type |
| Delete.EmptyTableNeverFails | run.py:484-485 | an empty row file reports 0 deleted rows even when the clause would fail |
| Where.Resolve | run.py:541-567 | a reference fails iff the name is missing, the qualified pair is missing, or an unqualified name is ambiguous; otherwise it gives the matching index |
| Where.FactorErrorExact | run.py:529-675 | a factor fails exactly with its row-free error |
| Where.FactorsErrorExact | run.py:520-526 | a term fails exactly with its first failing factor's row-free error |
| Where.TermsErrorExact | run.py:511-517 | an expression's terms fail exactly with the first failing term's row-free error |
| Where.ExprErrorExact | run.py:511-675 | evaluation fails on a row iff the row-free check reports an error, and with that error |
| Where.ErrorIsRowIndependent | run.py:511-675 | whether and how evaluation fails is the same for every row |
| Where.FactorsMeaning | run.py:520-526 | a term is true iff every factor is true, and fails iff some factor fails |
| Where.TermsMeaning | run.py:511-517 | an expression is true iff no term fails and some term is true, and fails iff some term fails |
| Where.ExprMeaning | run.py:511-526 | an OR of ANDs is true iff no term fails and some term has all its factors true |
| Where.NullTestMeaning | run.py:638-669 | IS [NOT] NULL compares the lower-cased stored text with "null", and NOT is ignored |
| Where.ComparisonTypeError | run.py:601-615 | a comparison is incomparable iff the operand types are not compatible |
| Where.IntegersCompareAsText | run.py:620-621 | `id > 9` is false for id 10 |
| Where.LeftLiteralTypeNotLowered | run.py:537-615 | `9 < id` is reported as incomparable |
| Engine.AdjustEach | run.py:175-213 | the read-adjust-write loop over referenced tables gives `AdjustCounts` |
| Engine.AdjustKeepsFiles | run.py:178-213 | changing counts leaves every table's columns as they were, so stored rows still fit |
| Engine.CreateKeepsFiles | run.py:173-180 | a new table has no row file yet, so all rows still fit |
| Engine.CommitCreateValid | run.py:173-180 | committing an accepted CREATE names existing tables and keeps the invariant and the row fit |
| Engine.DropKeepsFiles | run.py:216-218 | dropping removes the row file, and the others still fit |
| Engine.InsertKeepsFiles | run.py:432-452 | an inserted row has its table's width |
| Engine.DeleteKeepsFiles | run.py:461-499 | DELETE leaves a subset of the rows |
| Engine.Database.CreateTable | run.py:20-184 | returns the CREATE specification's result; commits exactly on success; keeps `Valid()`; leaves the row files alone |
| Engine.Database.DropTable | run.py:187-219 | reports the DROP specification's error with nothing changed, or installs its catalog and removes the row file; keeps `Valid()` |
| Engine.Database.DescribeTable | run.py:230-272 | returns the DESC specification's lines |
| Engine.Database.SelectAll | run.py:285-326 | on the current catalog and row files: an unknown table is reported, a missing row file raises, and it succeeds exactly when both exist, with the stored header and every row listed once |
| Engine.Database.InsertRow | run.py:329-458 | returns the INSERT specification's result; the row file is created once the checks pass; keeps `Valid()` |
| Engine.Database.DeleteFrom | run.py:461-505 | returns the DELETE specification's count and stores its remaining rows, or changes nothing on error; keeps `Valid()` |
| Engine.InsertThenSelect | run.py:318-452 | SELECT * after one INSERT into an empty table lists exactly that row |

## Left out

- The read-eval loop, the Lark grammar and parse tree, `exit`, and all output formatting
  (`print`, column widths, separator lines) are not modelled. Statements arrive as
  datatypes, and each handler returns its result or the error kind it prints.
- `show_tables_query` is left out. It only lists file names.
- `update_tables_query` is left out. It only prints a message.
- The select branch with a column list is left out, because its body is `pass`. With
  several FROM tables, only the last one, which the select-all branch reads, is
  modelled.
- `explain_query` and `describe_query` only call `desc_query`, which
  `Engine.Database.DescribeTable` models.
- The Berkeley DB handles themselves are left out: opening, closing and the handles
  left open on some early returns.
- The string encodings built with the separators COLUMN, REFERENCE and FOREIGN are
  replaced by structured fields. Names are lower-cased before they are joined, so the
  upper-case separators never occur inside them, and `Strings.SplitJoin` proves that
  splitting such a join gives the names back. A row value containing "COLUMN" would
  be split into extra values when read back; rows are kept as sequences here, so that
  split is not modelled.
- CREATE writes the partial schema file and removes it on every error it reports. The
  model commits the schema once, at the end. Nothing outside the new file changes
  before the last check, so for every reported error the observable outcome is the
  same. The exception below is the one case where it differs.
- Engine.Database.CreateTable: promises an unchanged catalog on every error. That
  includes `Err(Uncaught)`, which stands for a char length token that `int()` rejects
  (run.py:42). In the source that exception skips every `os.remove`. The schema file
  opened with DB_CREATE at run.py:29 stays behind without `reference_count`. The name
  then counts as taken (run.py:24), and DROP of it raises at run.py:197. The exception
  also ends the shell, because the loop at run.py:696-701 catches neither it nor Lark's
  wrapper. The model keeps no half-written tables. The grammar is not part of this
  model, so whether a length token can be anything but digits is left open.
- Lower-casing is ASCII only. Non-ASCII case mapping is not modelled.
- `int()` also accepts surrounding white space. A stored char length never has any.
- Drop.DropSpec: requires `Closed(cat)`, meaning every referenced table exists, which
  `Valid()` guarantees. A dangling reference would make the source's open raise
  part-way through lowering counts.
- Create.CreateSpec: requires `WellFormed`, meaning non-empty identifiers and at least
  one column on each side of a foreign key. The grammar guarantees this.
- Where.EvalExpr: literal token texts are compared as given. Whether the grammar
  keeps their quotes is not part of this model.
- Where.EvalFactor: a bare `raise` outside an except block becomes a RuntimeError. The
  model records only which message was printed, as the error kind.
- Insert.NamedInsertMeaning: stated only for column names that are not reserved keys.
  `Insert.ReservedNameAccepted` shows what happens with a reserved key.
- Describe.DescribeMeaning: stated only for tables with `PlainColumns`: at least one
  column, and no column named after a reserved key. For a reserved-name column the store
  returns the reserved value as its type; `Describe.ReservedNameShownAsType` shows one
  case. A table without columns is covered by `Describe.EmptyTableRaises`.
  `Create.CreatedIsPlain` shows these are the only tables CREATE accepts that
  `PlainColumns` excludes.
- Insert.PositionalChecksMeaning: stated only for tables with `PlainColumns`, for the
  same reason; `Insert.ReservedNameTakesNoValue` shows one case with a reserved-name column.
- Insert.PositionalRow: stated only for tables with `PlainColumns`, for the same reason.
- Insert.PositionalInsertMeaning: stated only for tables with `PlainColumns`, for the
  same reason.
- Insert.NamedChecksMeaning: stated only for tables with `PlainColumns`, for the same
  reason.
- Insert.NamedReorder: stated only for tables with `PlainColumns`, for the same reason.
- Insert.NamedRow: stated only for tables with `PlainColumns`, for the same reason.
- Delete.DeleteScopeMeaning: stated only for tables with `PlainColumns`, for the same
  reason; `Delete.ReservedNameScope` shows one case with a reserved-name column.
- Select.ListRows and Delete.DeleteRows: the cursor's visiting order is left open,
  because a row file is a set.
- Engine.Database.SelectAll: a row shorter than the header would make `format` raise.
  `Valid()` rules this out.
