/** INSERT INTO (run.py:329-458): the checks made against the metadata store, the
    truncation of char values and the reordering of values given with column names. */
module Insert {
  import opened Strings
  import opened Catalog

  /** One element of the VALUES list: the parser's token type (INT, STR, DATE or NULL)
      and the token text, quotes included. */
  datatype Value = Value(tokenType: string, text: string)

  /** `columns` is the optional list of column names, as written (not lower-cased). */
  datatype InsertStmt = InsertStmt(table: string, columns: Option<seq<string>>, values: seq<Value>)

  const NullType := "null"

  /** The value a token stands for: a leading quote strips the first and the last
      character (`value[1:-1]`); an empty token would make `value[0]` raise. */
  function Unquote(text: string): Result<string> {
    if text == [] then Err(Uncaught)
    else if text[0] == '\'' || text[0] == '"' then Ok(if |text| >= 2 then text[1..|text| - 1] else "")
    else Ok(text)
  }

  function Unquoted(vs: seq<Value>): (r: seq<Result<string>>)
    ensures |r| == |vs|
    ensures forall i | 0 <= i < |vs| :: r[i] == Unquote(vs[i].text)
  {
    seq(|vs|, i requires 0 <= i < |vs| => Unquote(vs[i].text))
  }

  /** `token.type.lower()` for every value. */
  function TokenTypes(vs: seq<Value>): (r: seq<string>)
    ensures |r| == |vs|
    ensures forall i | 0 <= i < |vs| :: r[i] == Lower(vs[i].tokenType)
  {
    seq(|vs|, i requires 0 <= i < |vs| => Lower(vs[i].tokenType))
  }

  /** The token type a stored column type asks for: any type containing "char" takes "str". */
  function ExpectedType(stored: string): string {
    if Contains(stored, "char") then "str" else stored
  }

  /** The checks made for one value bound for column `name` (run.py:396-413 with names,
      run.py:416-429 without). Without names a missing key makes `get(...).decode()` raise. */
  function CheckValue(store: map<string, string>, pk: seq<string>, notNull: seq<string>,
                      name: string, ty: string, named: bool): Result<()>
  {
    if name !in store then Err(if named then InsertColumnExistenceError else Uncaught)
    else if ty == NullType && (name in pk || name in notNull) then Err(InsertColumnNonNullableError)
    else if ty != NullType && ExpectedType(store[name]) != ty then Err(InsertTypeMismatchError)
    else Ok(())
  }

  function ValueChecks(store: map<string, string>, pk: seq<string>, notNull: seq<string>,
                       targets: seq<string>, types: seq<string>, named: bool): (r: seq<Result<()>>)
    requires |types| == |targets|
    ensures |r| == |targets|
    ensures forall i | 0 <= i < |targets| :: r[i] == CheckValue(store, pk, notNull, targets[i], types[i], named)
  {
    seq(|targets|, i requires 0 <= i < |targets| => CheckValue(store, pk, notNull, targets[i], types[i], named))
  }

  /** The value count disagrees with the column count or with the count of names
      (run.py:380-391). */
  predicate CountMismatch(columnCount: nat, valueCount: nat, columns: Option<seq<string>>) {
    || columnCount != valueCount
    || (columns.Some? && (|columns.value| != columnCount || |columns.value| != valueCount))
  }

  /** The column each value is bound for: the names when given, else the table's columns. */
  function Targets(s: Schema, columns: Option<seq<string>>): seq<string> {
    if columns.Some? then columns.value else StoredColumnNames(s)
  }

  /** The first failing check among the values, if any. */
  function CheckValues(s: Schema, store: map<string, string>, targets: seq<string>, types: seq<string>, named: bool): (r: Result<()>)
    requires |types| == |targets|
  {
    var c := Collect(ValueChecks(store, s.primaryKey, s.notNull, targets, types, named));
    if c.Err? then Err(c.error) else Ok(())
  }

  /** Everything INSERT checks before it opens the row file: the values are read, the
      counts compared and each value checked against its column. The result pairs the
      column each value is bound for with the value itself. */
  function CheckInsert(s: Schema, store: map<string, string>, stmt: InsertStmt): (r: Result<(seq<string>, seq<string>)>)
    ensures r.Ok? ==> |r.value.0| == |r.value.1| == |stmt.values|
  {
    match Collect(Unquoted(stmt.values))
    case Err(e) => Err(e)
    case Ok(values) =>
      if CountMismatch(|StoredColumnNames(s)|, |values|, stmt.columns) then Err(InsertTypeMismatchError)
      else
        var targets := Targets(s, stmt.columns);
        match CheckValues(s, store, targets, TokenTypes(stmt.values), stmt.columns.Some?)
        case Err(e) => Err(e)
        case Ok(_) => Ok((targets, values))
  }

  /** A char value is cut to the length `int(type[4:])` read back from the store. */
  function Truncate(store: map<string, string>, name: string, value: string): Result<string> {
    if name !in store then Err(Uncaught)
    else if Contains(store[name], "char") then
      match ParsePyInt(PySliceFrom(store[name], 4))
      case None => Err(Uncaught)
      case Some(n) => Ok(PySliceTo(value, n))
    else Ok(value)
  }

  function Truncations(store: map<string, string>, targets: seq<string>, values: seq<string>): (r: seq<Result<string>>)
    requires |values| == |targets|
    ensures |r| == |targets|
    ensures forall i | 0 <= i < |targets| :: r[i] == Truncate(store, targets[i], values[i])
  {
    seq(|targets|, i requires 0 <= i < |targets| => Truncate(store, targets[i], values[i]))
  }

  /** The value of each table column, looked up by `names.index`, which raises for a
      column the names do not list. */
  function Reordered(columnNames: seq<string>, names: seq<string>, values: seq<string>): (r: seq<Result<string>>)
    requires |values| == |names|
    ensures |r| == |columnNames|
    ensures forall j | 0 <= j < |columnNames| ::
              r[j] == if columnNames[j] in names then Ok(values[IndexOf(names, columnNames[j])]) else Err(Uncaught)
  {
    seq(|columnNames|, j requires 0 <= j < |columnNames| =>
      if columnNames[j] in names then Ok(values[IndexOf(names, columnNames[j])]) else Err(Uncaught))
  }

  /** What follows the opening of the row file (run.py:436-455): truncation, then the
      reordering when the statement names its columns. */
  function BuildRow(s: Schema, store: map<string, string>, named: bool, targets: seq<string>, values: seq<string>): Result<Row>
    requires |values| == |targets|
  {
    match Collect(Truncations(store, targets, values))
    case Err(e) => Err(e)
    case Ok(truncated) =>
      if named then Collect(Reordered(StoredColumnNames(s), targets, truncated)) else Ok(truncated)
  }

  /** The row INSERT puts into the table `s` whose metadata store is `store`, or its error. */
  function InsertInto(s: Schema, store: map<string, string>, stmt: InsertStmt): Result<Row> {
    match CheckInsert(s, store, stmt)
    case Err(e) => Err(e)
    case Ok(checked) => BuildRow(s, store, stmt.columns.Some?, checked.0, checked.1)
  }

  function InsertSpec(cat: map<string, Schema>, stmt: InsertStmt): Result<Row> {
    var t := Lower(stmt.table);
    if t !in cat then Err(NoSuchTable) else InsertInto(cat[t], Store(cat[t]), stmt)
  }

  /** An inserted row has one value per stored column name, so it reads back with the
      table's width. */
  lemma InsertRowArity(s: Schema, store: map<string, string>, stmt: InsertStmt)
    requires InsertInto(s, store, stmt).Ok?
    ensures |InsertInto(s, store, stmt).value| == |StoredColumnNames(s)|
  {
    var checked := CheckInsert(s, store, stmt).value;
    assert !CountMismatch(|StoredColumnNames(s)|, |checked.1|, stmt.columns);
  }

  // ---------------------------------------------------------------------------
  // The loops

  /** The value-reading loop (run.py:359-366). */
  method ReadValues(vs: seq<Value>) returns (r: Result<seq<string>>, types: seq<string>)
    ensures r == Collect(Unquoted(vs))
    ensures r.Ok? ==> types == TokenTypes(vs)
  {
    ghost var us := Unquoted(vs);
    var values: seq<string> := [];
    types := [];
    for i := 0 to |vs|
      invariant Collect(us[..i]) == Ok(values)
      invariant types == TokenTypes(vs[..i])
    {
      assert us[..i + 1][..i] == us[..i];
      var v := Unquote(vs[i].text);
      if v.Err? {
        CollectErrSticks(us, i + 1);
        return Err(v.error), types;
      }
      values := values + [v.value];
      types := types + [Lower(vs[i].tokenType)];
    }
    assert us[..|vs|] == us;
    assert vs[..|vs|] == vs;
    return Ok(values), types;
  }

  /** The checking loop, with names (run.py:394-414) or without (run.py:415-430). */
  method ValidateValues(s: Schema, store: map<string, string>, targets: seq<string>, types: seq<string>, named: bool)
    returns (r: Result<()>)
    requires |types| == |targets|
    ensures r == CheckValues(s, store, targets, types, named)
  {
    ghost var cs := ValueChecks(store, s.primaryKey, s.notNull, targets, types, named);
    ghost var done: seq<()> := [];
    for i := 0 to |targets|
      invariant Collect(cs[..i]) == Ok(done)
    {
      assert cs[..i + 1][..i] == cs[..i];
      var c := CheckValue(store, s.primaryKey, s.notNull, targets[i], types[i], named);
      if c.Err? {
        CollectErrSticks(cs, i + 1);
        return Err(c.error);
      }
      done := done + [()];
    }
    assert cs[..|targets|] == cs;
    return Ok(());
  }

  method ValidateInsert(s: Schema, store: map<string, string>, stmt: InsertStmt)
    returns (r: Result<(seq<string>, seq<string>)>)
    ensures r == CheckInsert(s, store, stmt)
  {
    var values, types := ReadValues(stmt.values);
    if values.Err? {
      return Err(values.error);
    }
    var columnNames := StoredColumnNames(s);
    if CountMismatch(|columnNames|, |values.value|, stmt.columns) {
      return Err(InsertTypeMismatchError);
    }
    var targets := Targets(s, stmt.columns);
    var c := ValidateValues(s, store, targets, types, stmt.columns.Some?);
    if c.Err? {
      return Err(c.error);
    }
    return Ok((targets, values.value));
  }

  /** The truncation loop and the reordering loop (run.py:436-455). */
  method PrepareRow(s: Schema, store: map<string, string>, named: bool, targets: seq<string>, values: seq<string>)
    returns (r: Result<Row>)
    requires |values| == |targets|
    ensures r == BuildRow(s, store, named, targets, values)
  {
    ghost var ts := Truncations(store, targets, values);
    var truncated: seq<string> := [];
    for i := 0 to |targets|
      invariant Collect(ts[..i]) == Ok(truncated)
    {
      assert ts[..i + 1][..i] == ts[..i];
      var t := Truncate(store, targets[i], values[i]);
      if t.Err? {
        CollectErrSticks(ts, i + 1);
        return Err(t.error);
      }
      truncated := truncated + [t.value];
    }
    assert ts[..|targets|] == ts;
    if !named {
      return Ok(truncated);
    }
    var columnNames := StoredColumnNames(s);
    ghost var rs := Reordered(columnNames, targets, truncated);
    var row: Row := [];
    for j := 0 to |columnNames|
      invariant Collect(rs[..j]) == Ok(row)
    {
      assert rs[..j + 1][..j] == rs[..j];
      if columnNames[j] !in targets {
        CollectErrSticks(rs, j + 1);
        return Err(Uncaught);
      }
      row := row + [truncated[IndexOf(targets, columnNames[j])]];
    }
    assert rs[..|columnNames|] == rs;
    return Ok(row);
  }

  // ---------------------------------------------------------------------------
  // What INSERT accepts, in terms of the declared schema

  /** The token type a declared column accepts. */
  function InsertType(t: ColType): string {
    match t
    case Int => "int"
    case Date => "date"
    case Char(_) => "str"
  }

  /** The text stored for a value bound for a column of type `t`: a char value is cut to
      the length its token reads as (a committed table's length always reads). */
  function StoredValue(t: ColType, v: string): string {
    match t
    case Char(x) => (match ParsePyInt(x) case Some(n) => PySliceTo(v, n) case None => v)
    case _ => v
  }

  /** A value of token type `ty` is accepted for column `c`: a NULL needs a nullable
      column (neither primary key nor NOT NULL), anything else the column's type. */
  predicate Accepts(s: Schema, c: Column, ty: string) {
    if ty == NullType then c.name !in s.primaryKey && c.name !in s.notNull else ty == InsertType(c.ty)
  }

  function ColumnNamed(s: Schema, name: string): Column
    requires name in Names(s.columns)
  {
    s.columns[IndexOf(Names(s.columns), name)]
  }

  lemma ColumnNamedAt(s: Schema, j: nat)
    requires PlainColumns(s) && j < |s.columns|
    ensures s.columns[j].name in Names(s.columns) && ColumnNamed(s, s.columns[j].name) == s.columns[j]
  {
    assert Names(s.columns)[j] == s.columns[j].name;
  }

  /** One value bound for a declared column: its check is `Accepts`, and its truncation
      gives `StoredValue` of the declared type. */
  lemma ColumnValue(s: Schema, store: map<string, string>, c: Column, ty: string, v: string, named: bool)
    requires c.name in store && store[c.name] == TypeString(c.ty)
    requires c.ty.Char? ==> ParsePyInt(c.ty.text).Some?
    ensures CheckValue(store, s.primaryKey, s.notNull, c.name, ty, named).Ok? <==> Accepts(s, c, ty)
    ensures Truncate(store, c.name, v) == Ok(StoredValue(c.ty, v))
  {
    if c.ty.Char? {
      assert PySliceFrom(store[c.name], 4) == c.ty.text;
    }
  }

  /** Without names, each value is checked by `Accepts` against its column in order. */
  lemma PositionalChecksMeaning(s: Schema, store: map<string, string>, types: seq<string>)
    requires StoreOf(store, s) && PlainColumns(s)
    requires |types| == |s.columns|
    ensures StoredColumnNames(s) == Names(s.columns)
    ensures CheckValues(s, store, Names(s.columns), types, false).Ok? <==>
              forall i | 0 <= i < |s.columns| :: Accepts(s, s.columns[i], types[i])
  {
    var cs := ValueChecks(store, s.primaryKey, s.notNull, Names(s.columns), types, false);
    forall i | 0 <= i < |s.columns|
      ensures cs[i].Ok? <==> Accepts(s, s.columns[i], types[i])
    {
      ColumnValue(s, store, s.columns[i], types[i], "", false);
    }
    CollectMeaning(cs);
  }

  /** Without names, each value is truncated by its column's declared type. */
  lemma PositionalRow(s: Schema, store: map<string, string>, values: seq<string>)
    requires StoreOf(store, s) && PlainColumns(s)
    requires |values| == |s.columns|
    ensures BuildRow(s, store, false, Names(s.columns), values).Ok?
    ensures var row := BuildRow(s, store, false, Names(s.columns), values).value;
      && |row| == |s.columns|
      && forall i | 0 <= i < |s.columns| :: row[i] == StoredValue(s.columns[i].ty, values[i])
  {
    var ts := Truncations(store, Names(s.columns), values);
    forall i | 0 <= i < |s.columns|
      ensures ts[i] == Ok(StoredValue(s.columns[i].ty, values[i]))
    {
      ColumnValue(s, store, s.columns[i], "", values[i], false);
    }
    CollectMeaning(ts);
  }

  /** Without column names, INSERT succeeds exactly when every token is readable, there is
      one value per column and each value is accepted by its column; the row then holds
      the values in order, char values cut to the declared length. */
  lemma PositionalInsertMeaning(s: Schema, store: map<string, string>, stmt: InsertStmt)
    requires StoreOf(store, s) && PlainColumns(s)
    requires stmt.columns.None?
    ensures InsertInto(s, store, stmt).Ok? <==>
      && (forall i | 0 <= i < |stmt.values| :: stmt.values[i].text != "")
      && |stmt.values| == |s.columns|
      && (forall i | 0 <= i < |s.columns| :: Accepts(s, s.columns[i], Lower(stmt.values[i].tokenType)))
    ensures InsertInto(s, store, stmt).Ok? ==>
      var row := InsertInto(s, store, stmt).value;
      && |row| == |s.columns|
      && forall i | 0 <= i < |s.columns| :: row[i] == StoredValue(s.columns[i].ty, Unquote(stmt.values[i].text).value)
  {
    PositionalChecks(s, store, stmt);
    if CheckInsert(s, store, stmt).Ok? {
      var us := Unquoted(stmt.values);
      CollectMeaning(us);
      PositionalRow(s, store, Collect(us).value);
    }
  }

  /** The checks before the row file opens, without column names. */
  lemma PositionalChecks(s: Schema, store: map<string, string>, stmt: InsertStmt)
    requires StoreOf(store, s) && PlainColumns(s)
    requires stmt.columns.None?
    ensures CheckInsert(s, store, stmt).Ok? <==>
      && (forall i | 0 <= i < |stmt.values| :: stmt.values[i].text != "")
      && |stmt.values| == |s.columns|
      && (forall i | 0 <= i < |s.columns| :: Accepts(s, s.columns[i], Lower(stmt.values[i].tokenType)))
    ensures CheckInsert(s, store, stmt).Ok? ==>
      CheckInsert(s, store, stmt).value == (Names(s.columns), Collect(Unquoted(stmt.values)).value)
  {
    var us := Unquoted(stmt.values);
    CollectMeaning(us);
    assert StoredColumnNames(s) == Names(s.columns);
    if Collect(us).Ok? && |stmt.values| == |s.columns| {
      PositionalChecksMeaning(s, store, TokenTypes(stmt.values));
    }
  }

  /** Each name is a column, and the value given for it is accepted by that column. */
  predicate NamesAccepted(s: Schema, names: seq<string>, types: seq<string>)
    requires |types| == |names|
  {
    forall i | 0 <= i < |names| :: names[i] in Names(s.columns) && Accepts(s, ColumnNamed(s, names[i]), types[i])
  }

  predicate AllColumnsNamed(s: Schema, names: seq<string>) {
    forall j | 0 <= j < |s.columns| :: s.columns[j].name in names
  }

  /** Column j of `row` holds the value given for its name, cut to the declared length. */
  predicate NamedRowHolds(s: Schema, names: seq<string>, values: seq<string>, row: Row)
    requires |values| == |names|
  {
    && |row| == |s.columns|
    && forall j | 0 <= j < |s.columns| ::
         s.columns[j].name in names && row[j] == StoredValue(s.columns[j].ty, values[IndexOf(names, s.columns[j].name)])
  }

  /** With names that are not reserved keys, each value is checked by `Accepts` against
      the column of its name, and a name that is no column fails. */
  lemma NamedChecksMeaning(s: Schema, store: map<string, string>, names: seq<string>, types: seq<string>)
    requires StoreOf(store, s) && PlainColumns(s)
    requires |types| == |names|
    requires forall i | 0 <= i < |names| :: names[i] !in AllReserved
    ensures CheckValues(s, store, names, types, true).Ok? <==> NamesAccepted(s, names, types)
  {
    var cs := ValueChecks(store, s.primaryKey, s.notNull, names, types, true);
    forall i | 0 <= i < |names|
      ensures cs[i].Ok? <==> names[i] in Names(s.columns) && Accepts(s, ColumnNamed(s, names[i]), types[i])
    {
      if names[i] in Names(s.columns) {
        ColumnValue(s, store, ColumnNamed(s, names[i]), types[i], "", true);
      }
    }
    CollectMeaning(cs);
  }

  /** With column names, none of them a reserved key: INSERT succeeds exactly when every
      token is readable, the counts agree, every name is a column whose check accepts its
      value, and every column is named; column j of the row then holds the value given
      for its name. */
  lemma NamedInsertMeaning(s: Schema, store: map<string, string>, stmt: InsertStmt)
    requires StoreOf(store, s) && PlainColumns(s)
    requires stmt.columns.Some?
    requires forall i | 0 <= i < |stmt.columns.value| :: stmt.columns.value[i] !in AllReserved
    ensures var names := stmt.columns.value;
      InsertInto(s, store, stmt).Ok? <==>
      && (forall i | 0 <= i < |stmt.values| :: stmt.values[i].text != "")
      && |stmt.values| == |s.columns| && |names| == |s.columns|
      && NamesAccepted(s, names, TokenTypes(stmt.values))
      && AllColumnsNamed(s, names)
    ensures InsertInto(s, store, stmt).Ok? ==>
      && |stmt.columns.value| == |stmt.values|
      && NamedRowHolds(s, stmt.columns.value, Collect(Unquoted(stmt.values)).value, InsertInto(s, store, stmt).value)
  {
    var names := stmt.columns.value;
    var us := Unquoted(stmt.values);
    CollectMeaning(us);
    assert StoredColumnNames(s) == Names(s.columns);
    if Collect(us).Ok? && |stmt.values| == |s.columns| && |names| == |s.columns| {
      NamedChecksMeaning(s, store, names, TokenTypes(stmt.values));
      if CheckValues(s, store, names, TokenTypes(stmt.values), true).Ok? {
        NamedRow(s, store, names, Collect(us).value);
      }
    }
  }

  /** The values given for names that are all columns are cut by those columns' types. */
  lemma NamedTruncations(s: Schema, store: map<string, string>, names: seq<string>, values: seq<string>)
    requires StoreOf(store, s) && ReadableLengths(s)
    requires |names| == |values|
    requires forall i | 0 <= i < |names| :: names[i] in Names(s.columns)
    ensures Collect(Truncations(store, names, values)).Ok?
    ensures forall i | 0 <= i < |names| ::
              Collect(Truncations(store, names, values)).value[i] == StoredValue(ColumnNamed(s, names[i]).ty, values[i])
  {
    var ts := Truncations(store, names, values);
    forall i | 0 <= i < |names|
      ensures ts[i] == Ok(StoredValue(ColumnNamed(s, names[i]).ty, values[i]))
    {
      ColumnValue(s, store, ColumnNamed(s, names[i]), "", values[i], true);
    }
    CollectMeaning(ts);
  }

  /** Reordering by name puts each column's own value in its place, and fails when a
      column is not named. */
  lemma NamedReorder(s: Schema, names: seq<string>, values: seq<string>, truncated: seq<string>)
    requires PlainColumns(s)
    requires |names| == |values| == |truncated|
    requires forall i | 0 <= i < |names| :: names[i] in Names(s.columns)
    requires forall i | 0 <= i < |names| :: truncated[i] == StoredValue(ColumnNamed(s, names[i]).ty, values[i])
    ensures Collect(Reordered(Names(s.columns), names, truncated)).Ok? <==> AllColumnsNamed(s, names)
    ensures Collect(Reordered(Names(s.columns), names, truncated)).Ok? ==>
              NamedRowHolds(s, names, values, Collect(Reordered(Names(s.columns), names, truncated)).value)
  {
    var rs := Reordered(Names(s.columns), names, truncated);
    CollectMeaning(rs);
    forall j | 0 <= j < |s.columns| && s.columns[j].name in names
      ensures rs[j] == Ok(StoredValue(s.columns[j].ty, values[IndexOf(names, s.columns[j].name)]))
    {
      ColumnNamedAt(s, j);
    }
  }

  /** With names that are all columns, the row holds, for each column, the value given for
      its name cut to the declared length, and it fails when a column is not named. */
  lemma NamedRow(s: Schema, store: map<string, string>, names: seq<string>, values: seq<string>)
    requires StoreOf(store, s) && PlainColumns(s)
    requires |names| == |values|
    requires forall i | 0 <= i < |names| :: names[i] in Names(s.columns)
    ensures BuildRow(s, store, true, names, values).Ok? <==> AllColumnsNamed(s, names)
    ensures BuildRow(s, store, true, names, values).Ok? ==> NamedRowHolds(s, names, values, BuildRow(s, store, true, names, values).value)
  {
    NamedTruncations(s, store, names, values);
    assert StoredColumnNames(s) == Names(s.columns);
    NamedReorder(s, names, values, Collect(Truncations(store, names, values)).value);
  }

  // ---------------------------------------------------------------------------
  // Consequences of reading the store directly

  /** A table `t(id int)` for the examples below. */
  function IdTable(): Schema {
    Schema([Column("id", Int)], [], [], [], 0)
  }

  /** Column names in INSERT are not lower-cased, so `(ID)` does not find column `id`. */
  lemma NamesAreNotLowered(store: map<string, string>)
    requires StoreOf(store, IdTable())
    ensures InsertInto(IdTable(), store, InsertStmt("t", Some(["ID"]), [Value("INT", "1")])) == Err(InsertColumnExistenceError)
  {
    var s := IdTable();
    var stmt := InsertStmt("t", Some(["ID"]), [Value("INT", "1")]);
    assert Names(s.columns) == ["id"];
    assert "ID" !in store;
    CollectMeaning(Unquoted(stmt.values));
    var cs := ValueChecks(store, s.primaryKey, s.notNull, ["ID"], TokenTypes(stmt.values), true);
    CollectFirstErr(cs, 0);
  }

  /** A reserved key passes the existence test as a column name; the statement then fails
      only in the reordering, after the row file has been opened. */
  lemma ReservedNameAccepted(store: map<string, string>)
    requires StoreOf(store, IdTable())
    ensures var stmt := InsertStmt("t", Some([NotNullKey]), [Value("NULL", "null")]);
      && CheckInsert(IdTable(), store, stmt).Ok?
      && InsertInto(IdTable(), store, stmt) == Err(Uncaught)
  {
    var s := IdTable();
    var stmt := InsertStmt("t", Some([NotNullKey]), [Value("NULL", "null")]);
    assert Names(s.columns) == ["id"];
    assert NotNullKey in AllReserved;
    assert Lower("NULL") == NullType;
    assert store[NotNullKey] == "";
    CollectMeaning(Unquoted(stmt.values));
    assert Collect(Unquoted(stmt.values)).value == ["null"];
    CollectMeaning(ValueChecks(store, s.primaryKey, s.notNull, [NotNullKey], TokenTypes(stmt.values), true));
    var ts := Truncations(store, [NotNullKey], ["null"]);
    CollectMeaning(ts);
    CollectFirstErr(Reordered(Names(s.columns), [NotNullKey], Collect(ts).value), 0);
  }

  /** A table `t(a int, b int)`. */
  function PairTable(): Schema {
    Schema([Column("a", Int), Column("b", Int)], [], [], [], 0)
  }

  /** A column named twice passes every check, and `index` then raises for the column
      left out, after the row file has been opened. */
  lemma DuplicateNameRaises(store: map<string, string>)
    requires StoreOf(store, PairTable())
    ensures var stmt := InsertStmt("t", Some(["a", "a"]), [Value("INT", "1"), Value("INT", "2")]);
      && CheckInsert(PairTable(), store, stmt).Ok?
      && InsertInto(PairTable(), store, stmt) == Err(Uncaught)
  {
    var s := PairTable();
    DuplicateNameChecks(store);
    assert Names(s.columns) == ["a", "b"];
    assert store["a"] == "int";
    var ts := Truncations(store, ["a", "a"], ["1", "2"]);
    CollectMeaning(ts);
    var rs := Reordered(Names(s.columns), ["a", "a"], Collect(ts).value);
    assert rs[0].Ok?;
    CollectFirstErr(rs, 1);
  }

  lemma DuplicateNameChecks(store: map<string, string>)
    requires StoreOf(store, PairTable())
    ensures CheckInsert(PairTable(), store, InsertStmt("t", Some(["a", "a"]), [Value("INT", "1"), Value("INT", "2")]))
            == Ok((["a", "a"], ["1", "2"]))
  {
    var s := PairTable();
    var stmt := InsertStmt("t", Some(["a", "a"]), [Value("INT", "1"), Value("INT", "2")]);
    assert Names(s.columns) == ["a", "b"];
    assert Lower("INT") == "int";
    assert store["a"] == "int";
    CollectMeaning(Unquoted(stmt.values));
    assert Collect(Unquoted(stmt.values)).value == ["1", "2"];
    CollectMeaning(ValueChecks(store, s.primaryKey, s.notNull, ["a", "a"], TokenTypes(stmt.values), true));
  }

  /** A table `t(name char(2))` without constraints. */
  function NameTable(): Schema {
    Schema([Column("name", Char("2"))], [], [], [], 0)
  }

  /** NULL is stored as the token text, cut to the column length like any other value. */
  lemma NullStoredAsText(store: map<string, string>)
    requires StoreOf(store, NameTable())
    ensures InsertInto(NameTable(), store, InsertStmt("t", None, [Value("NULL", "null")])) == Ok(["nu"])
  {
    var stmt := InsertStmt("t", None, [Value("NULL", "null")]);
    assert Lower("NULL") == NullType;
    assert Unquote("null") == Ok("null");
    assert Accepts(NameTable(), NameTable().columns[0], NullType);
    PositionalInsertMeaning(NameTable(), store, stmt);
    var row := InsertInto(NameTable(), store, stmt).value;
    assert row[0] == "null"[..2] == "nu";
    assert row == ["nu"];
  }

  /** In `t(not_null int not null)` the column's stored type is the NOT NULL list,
      "not_null", and INSERT takes it for the token type a value must have. */
  lemma ReservedNameExpects()
    ensures NotNullKey in Store(ReservedNameTable())
    ensures ExpectedType(Store(ReservedNameTable())[NotNullKey]) == NotNullKey
  {
    var s := ReservedNameTable();
    MetaViewKeys(s, AllReserved, NotNullKey);
    assert Store(s)[NotNullKey] == Join(s.notNull, "COLUMN") == NotNullKey;
    if Contains(NotNullKey, "char") {
      ContainsFirst(NotNullKey, "char");
    }
  }

  /** So an integer is refused as the wrong type and NULL as a null in a non-nullable
      column: the column takes no value at all. */
  lemma ReservedNameTakesNoValue()
    ensures InsertInto(ReservedNameTable(), Store(ReservedNameTable()), InsertStmt("t", None, [Value("INT", "1")]))
         == Err(InsertTypeMismatchError)
    ensures InsertInto(ReservedNameTable(), Store(ReservedNameTable()), InsertStmt("t", None, [Value("NULL", "null")]))
         == Err(InsertColumnNonNullableError)
  {
    ReservedNameExpects();
    ReservedNameChecks(Store(ReservedNameTable()));
  }

  lemma ReservedNameChecks(store: map<string, string>)
    requires NotNullKey in store && ExpectedType(store[NotNullKey]) == NotNullKey
    ensures InsertInto(ReservedNameTable(), store, InsertStmt("t", None, [Value("INT", "1")]))
         == Err(InsertTypeMismatchError)
    ensures InsertInto(ReservedNameTable(), store, InsertStmt("t", None, [Value("NULL", "null")]))
         == Err(InsertColumnNonNullableError)
  {
    ReservedNameCheck(store, Value("INT", "1"), InsertTypeMismatchError);
    ReservedNameCheck(store, Value("NULL", "null"), InsertColumnNonNullableError);
  }

  lemma ReservedNameCheck(store: map<string, string>, v: Value, e: Error)
    requires NotNullKey in store && ExpectedType(store[NotNullKey]) == NotNullKey
    requires v == Value("INT", "1") || v == Value("NULL", "null")
    requires e == (if v.tokenType == "INT" then InsertTypeMismatchError else InsertColumnNonNullableError)
    ensures CheckInsert(ReservedNameTable(), store, InsertStmt("t", None, [v])) == Err(e)
  {
    var s := ReservedNameTable();
    ReservedNameValue(store, v, e);
    assert StoredColumnNames(s) == [NotNullKey];
    assert !CountMismatch(1, 1, None);
  }

  lemma ReservedNameValue(store: map<string, string>, v: Value, e: Error)
    requires NotNullKey in store && ExpectedType(store[NotNullKey]) == NotNullKey
    requires v == Value("INT", "1") || v == Value("NULL", "null")
    requires e == (if v.tokenType == "INT" then InsertTypeMismatchError else InsertColumnNonNullableError)
    ensures Collect(Unquoted([v])) == Ok([v.text])
    ensures CheckValues(ReservedNameTable(), store, [NotNullKey], TokenTypes([v]), false) == Err(e)
  {
    OneTokenRead(v);
    TypeTokensLowered();
    var s := ReservedNameTable();
    assert CheckValue(store, s.primaryKey, s.notNull, NotNullKey, Lower(v.tokenType), false) == Err(e);
    OneValueChecked(store, s, v, e);
  }

  /** The lowered token types of an integer and of NULL. */
  lemma TypeTokensLowered()
    ensures Lower("INT") == "int" && Lower("NULL") == NullType
  {
    assert Lower("INT") == "int";
    assert Lower("NULL") == NullType;
  }

  /** The checks of a single value bound for the table's one column. */
  lemma OneValueChecked(store: map<string, string>, s: Schema, v: Value, e: Error)
    requires CheckValue(store, s.primaryKey, s.notNull, NotNullKey, Lower(v.tokenType), false) == Err(e)
    ensures CheckValues(s, store, [NotNullKey], TokenTypes([v]), false) == Err(e)
  {
    var cs := ValueChecks(store, s.primaryKey, s.notNull, [NotNullKey], TokenTypes([v]), false);
    assert cs[0] == Err(e);
    CollectFirstErr(cs, 0);
  }

  /** A single unquoted, non-empty token reads as its text. */
  lemma OneTokenRead(v: Value)
    requires v.text != [] && v.text[0] != '\'' && v.text[0] != '"'
    ensures Collect(Unquoted([v])) == Ok([v.text])
  {
    var us := Unquoted([v]);
    assert us == [Ok(v.text)] && us[..0] == [] && us[..1] == us;
    CollectStep(us, 0, []);
    assert [] + [v.text] == [v.text];
  }
}
