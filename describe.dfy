/** DESC / DESCRIBE (run.py:230-272): one line per stored column, with its type, whether
    it is nullable and whether it is a key column. */
module Describe {
  import opened Strings
  import opened Catalog

  /** One line of the table: column name, type, null ("Y" or "N") and key ("PRI", "FOR"
      or ""). */
  datatype DescRow = DescRow(name: string, ty: string, nullable: string, key: string)

  /** The local columns of each stored foreign key, in order. */
  function LocalColumns(fks: seq<ForeignKey>): seq<string> {
    if fks == [] then []
    else LocalColumns(fks[..|fks| - 1]) + SplitView(fks[|fks| - 1].local)
  }

  /** The list `foreign` of run.py:246-248: splitting the empty encoding gives [""]. */
  function ForeignColumns(fks: seq<ForeignKey>): seq<string> {
    if fks == [] then [""] else LocalColumns(fks)
  }

  /** A stored type containing "char" is shown as `char(<rest>)`. */
  function DisplayType(stored: string): string {
    if Contains(stored, "char") then "char(" + PySliceFrom(stored, 4) + ")" else stored
  }

  /** The line for column `name`: the foreign-key mark is set last and so replaces "PRI". */
  function DescribeColumn(s: Schema, store: map<string, string>, name: string): Result<DescRow> {
    if name !in store then Err(Uncaught)
    else
      var primary := SplitView(s.primaryKey);
      Ok(DescRow(name, DisplayType(store[name]),
                 if name in primary || name in SplitView(s.notNull) then "N" else "Y",
                 if name in ForeignColumns(s.foreignKeys) then "FOR" else if name in primary then "PRI" else ""))
  }

  function ColumnLines(s: Schema, store: map<string, string>, names: seq<string>): (r: seq<Result<DescRow>>)
    ensures |r| == |names|
    ensures forall i | 0 <= i < |names| :: r[i] == DescribeColumn(s, store, names[i])
  {
    seq(|names|, i requires 0 <= i < |names| => DescribeColumn(s, store, names[i]))
  }

  /** The lines of a table whose metadata store is `store`; a stored column name missing
      from the store makes `get(...).decode()` raise. */
  function DescribeTable(s: Schema, store: map<string, string>): Result<seq<DescRow>> {
    Collect(ColumnLines(s, store, StoredColumnNames(s)))
  }

  function DescribeSpec(cat: map<string, Schema>, table: string): Result<seq<DescRow>> {
    var t := Lower(table);
    if t !in cat then Err(NoSuchTable) else DescribeTable(cat[t], Store(cat[t]))
  }

  /** The loop over the stored column names (run.py:243-245 and 259-271). */
  method DescribeRows(s: Schema, store: map<string, string>) returns (r: Result<seq<DescRow>>)
    ensures r == DescribeTable(s, store)
  {
    var names := StoredColumnNames(s);
    ghost var ls := ColumnLines(s, store, names);
    var lines: seq<DescRow> := [];
    for i := 0 to |names|
      invariant Collect(ls[..i]) == Ok(lines)
    {
      assert ls[..i + 1][..i] == ls[..i];
      var line := DescribeColumn(s, store, names[i]);
      if line.Err? {
        CollectErrSticks(ls, i + 1);
        return Err(line.error);
      }
      lines := lines + [line.value];
    }
    assert ls[..|names|] == ls;
    return Ok(lines);
  }

  // ---------------------------------------------------------------------------
  // The lines in terms of the declared schema

  /** The type as declared: `char(n)` for a char column, the length as written. */
  function DeclaredType(t: ColType): string {
    match t
    case Int => "int"
    case Date => "date"
    case Char(x) => "char(" + x + ")"
  }

  /** The column is a local column of some foreign key. */
  predicate InForeignKey(s: Schema, name: string) {
    exists i | 0 <= i < |s.foreignKeys| :: name in s.foreignKeys[i].local
  }

  lemma {:induction false} LocalColumnsMeaning(fks: seq<ForeignKey>, x: string)
    requires x != ""
    ensures x in LocalColumns(fks) <==> exists i | 0 <= i < |fks| :: x in fks[i].local
  {
    if fks != [] {
      var p := fks[..|fks| - 1];
      LocalColumnsMeaning(p, x);
      assert forall i | 0 <= i < |p| :: p[i] == fks[i];
      if x in LocalColumns(fks) && x !in LocalColumns(p) {
        assert x in fks[|fks| - 1].local;
      }
    }
  }

  lemma TypeDisplayed(t: ColType)
    ensures DisplayType(TypeString(t)) == DeclaredType(t)
  {
  }

  /** For a table with plainly named columns DESC succeeds with one line per column, in
      order: the declared type, "N" exactly for primary-key and NOT NULL columns, and the
      key "FOR" for a foreign-key column, else "PRI" for a primary-key column, else "". */
  lemma DescribeMeaning(s: Schema, store: map<string, string>)
    requires StoreOf(store, s) && PlainColumns(s)
    ensures DescribeTable(s, store).Ok?
    ensures var lines := DescribeTable(s, store).value;
      && |lines| == |s.columns|
      && forall i | 0 <= i < |s.columns| ::
           var c := s.columns[i];
           && lines[i].name == c.name
           && lines[i].ty == DeclaredType(c.ty)
           && (lines[i].nullable == "N" <==> c.name in s.primaryKey || c.name in s.notNull)
           && (lines[i].nullable == "Y" <==> c.name !in s.primaryKey && c.name !in s.notNull)
           && (lines[i].key == "FOR" <==> InForeignKey(s, c.name))
           && (lines[i].key == "PRI" <==> c.name in s.primaryKey && !InForeignKey(s, c.name))
           && (lines[i].key == "" <==> c.name !in s.primaryKey && !InForeignKey(s, c.name))
  {
    var names := Names(s.columns);
    assert StoredColumnNames(s) == names;
    var ls := ColumnLines(s, store, names);
    forall i | 0 <= i < |s.columns|
      ensures ls[i].Ok?
      ensures var c := s.columns[i];
           && ls[i].value.name == c.name
           && ls[i].value.ty == DeclaredType(c.ty)
           && (ls[i].value.nullable == "N" <==> c.name in s.primaryKey || c.name in s.notNull)
           && (ls[i].value.nullable == "Y" <==> c.name !in s.primaryKey && c.name !in s.notNull)
           && (ls[i].value.key == "FOR" <==> InForeignKey(s, c.name))
           && (ls[i].value.key == "PRI" <==> c.name in s.primaryKey && !InForeignKey(s, c.name))
           && (ls[i].value.key == "" <==> c.name !in s.primaryKey && !InForeignKey(s, c.name))
    {
      var c := s.columns[i];
      TypeDisplayed(c.ty);
      if s.foreignKeys != [] {
        LocalColumnsMeaning(s.foreignKeys, c.name);
      }
    }
    CollectMeaning(ls);
  }

  lemma ReservedNameLine()
    ensures DescribeColumn(ReservedNameTable(), Store(ReservedNameTable()), NotNullKey)
         == Ok(DescRow(NotNullKey, NotNullKey, "N", ""))
  {
    var s := ReservedNameTable();
    var store := Store(s);
    MetaViewKeys(s, AllReserved, NotNullKey);
    assert store[NotNullKey] == Join(s.notNull, "COLUMN") == NotNullKey;
    if Contains(NotNullKey, "char") {
      ContainsFirst(NotNullKey, "char");
    }
    assert NotNullKey in SplitView(s.notNull);
  }

  /** A column named after a reserved key shows that key's value as its type: in
      `t(not_null int not null)` the type shown is the NOT NULL list, "not_null". */
  lemma ReservedNameShownAsType()
    ensures DescribeTable(ReservedNameTable(), Store(ReservedNameTable()))
         == Ok([DescRow(NotNullKey, NotNullKey, "N", "")])
  {
    var s := ReservedNameTable();
    var line := DescRow(NotNullKey, NotNullKey, "N", "");
    ReservedNameLine();
    assert StoredColumnNames(s) == [NotNullKey];
    var ls := ColumnLines(s, Store(s), StoredColumnNames(s));
    assert ls == [Ok(line)];
    CollectMeaning(ls);
    assert Collect(ls).value == [line];
  }

  /** A table without columns stores "" as its column list, and `get("")` finds nothing. */
  lemma EmptyTableRaises(s: Schema)
    requires s.columns == []
    ensures DescribeTable(s, Store(s)) == Err(Uncaught)
  {
    MetaViewKeys(s, AllReserved, "");
    assert "" !in AllReserved;
    assert StoredColumnNames(s) == [""];
    CollectFirstErr(ColumnLines(s, Store(s), StoredColumnNames(s)), 0);
  }
}
