/** The handlers of `MyTransformer` (run.py:20-505) over the state they change: the
    catalog of table schemas, one per `DB/<table>_schema.db`, and the row files, one per
    `DB/<table>.db`. A row is its own key in the row file, so a row file is a set and
    two equal rows merge. */
module Engine {
  import opened Strings
  import opened Catalog
  import Create
  import Drop
  import Describe
  import Select
  import Insert
  import Delete
  import Where

  /** The rows of a table, empty when its row file does not exist. */
  function RowFile(files: map<string, set<Row>>, t: string): set<Row> {
    if t in files then files[t] else {}
  }

  /** Every row file belongs to a table, and every stored row has one value per stored
      column name of that table. */
  ghost predicate FilesFit(cat: map<string, Schema>, files: map<string, set<Row>>) {
    forall t, r | t in files && r in files[t] :: t in cat && |r| == |StoredColumnNames(cat[t])|
  }

  /** The row files after INSERT: once every check has passed the row file is opened with
      DB_CREATE, and the new row is put if it could be built. */
  function InsertedFiles(cat: map<string, Schema>, files: map<string, set<Row>>, stmt: Insert.InsertStmt): map<string, set<Row>> {
    var t := Lower(stmt.table);
    if t !in cat || Insert.CheckInsert(cat[t], Store(cat[t]), stmt).Err? then files
    else
      match Insert.InsertInto(cat[t], Store(cat[t]), stmt)
      case Ok(row) => files[t := RowFile(files, t) + {row}]
      case Err(_) => files[t := RowFile(files, t)]
  }

  /** DELETE on the named table: unknown tables are reported, a missing row file makes
      the open raise, and otherwise the rows are deleted as `Delete.DeleteFrom` says. */
  function DeleteSpec(cat: map<string, Schema>, files: map<string, set<Row>>, table: string,
                      where: Option<Where.BoolExpr>): Result<Delete.Deleted>
    requires FilesFit(cat, files)
  {
    var t := Lower(table);
    if t !in cat then Err(NoSuchTable)
    else Delete.DeleteFrom(t, cat[t], Store(cat[t]), if t in files then Some(files[t]) else None, where)
  }

  /** Raising or lowering reference counts leaves every schema's columns, and so the
      stored rows' fit, as they were. */
  lemma AdjustKeepsFiles(cat: map<string, Schema>, files: map<string, set<Row>>, ts: seq<string>, delta: int)
    requires FilesFit(cat, files)
    requires forall i | 0 <= i < |ts| :: ts[i] in cat
    ensures FilesFit(AdjustCounts(cat, ts, delta), files)
  {
    forall t | t in cat
      ensures AdjustCounts(cat, ts, delta)[t].columns == cat[t].columns
    {
      AdjustCountsAt(cat, ts, delta, t);
    }
  }

  /** A created table has no row file yet, so the files still fit. */
  lemma CreateKeepsFiles(cat: map<string, Schema>, files: map<string, set<Row>>, name: string, s: Schema)
    requires FilesFit(cat, files) && name !in cat
    requires forall i | 0 <= i < |s.foreignKeys| :: s.foreignKeys[i].refTable in cat
    ensures FilesFit(Create.CommitCreate(cat, name, s), files)
  {
    AdjustKeepsFiles(cat[name := s], files, Targets(s.foreignKeys), 1);
  }

  /** What committing an accepted CREATE needs and keeps: the referenced tables exist,
      and both the catalog invariant and the fit of the row files still hold after. */
  lemma CommitCreateValid(cat: map<string, Schema>, files: map<string, set<Row>>, stmt: Create.CreateStmt)
    requires CatalogInvariant(cat) && FilesFit(cat, files) && Create.WellFormed(stmt)
    requires Create.CreateSpec(cat, stmt).Ok?
    ensures var s := Create.CreateSpec(cat, stmt).value;
            && (forall i | 0 <= i < |s.foreignKeys| :: Targets(s.foreignKeys)[i] in cat[Lower(stmt.table) := s])
            && CatalogInvariant(Create.CommitCreate(cat, Lower(stmt.table), s))
            && FilesFit(Create.CommitCreate(cat, Lower(stmt.table), s), files)
  {
    Create.CreatedIsFresh(cat, stmt);
    Create.CreateKeepsInvariant(cat, stmt);
    CreateKeepsFiles(cat, files, Lower(stmt.table), Create.CreateSpec(cat, stmt).value);
  }

  /** A dropped table takes its row file with it. */
  lemma DropKeepsFiles(cat: map<string, Schema>, files: map<string, set<Row>>, table: string)
    requires Closed(cat) && FilesFit(cat, files)
    requires Drop.DropSpec(cat, table).Ok?
    ensures FilesFit(Drop.DropSpec(cat, table).value, files - {Lower(table)})
  {
    var t := Lower(table);
    AdjustKeepsFiles(cat, files, Targets(cat[t].foreignKeys), -1);
  }

  /** An inserted row has the width of its table. */
  lemma InsertKeepsFiles(cat: map<string, Schema>, files: map<string, set<Row>>, stmt: Insert.InsertStmt)
    requires FilesFit(cat, files)
    ensures FilesFit(cat, InsertedFiles(cat, files, stmt))
  {
    var t := Lower(stmt.table);
    if t in cat && Insert.InsertInto(cat[t], Store(cat[t]), stmt).Ok? {
      Insert.InsertRowArity(cat[t], Store(cat[t]), stmt);
    }
  }

  /** DELETE only removes rows. */
  lemma DeleteKeepsFiles(cat: map<string, Schema>, files: map<string, set<Row>>, table: string, where: Option<Where.BoolExpr>)
    requires FilesFit(cat, files)
    requires DeleteSpec(cat, files, table, where).Ok?
    ensures Lower(table) in files
    ensures DeleteSpec(cat, files, table, where).value.remaining <= files[Lower(table)]
    ensures FilesFit(cat, files[Lower(table) := DeleteSpec(cat, files, table, where).value.remaining])
  {
    var t := Lower(table);
    if where.Some? {
      var scope := Delete.DeleteScope(t, cat[t], Store(cat[t])).value;
      Delete.DeleteWhereMeaning(where.value, scope, files[t]);
    }
  }

  /** The loops that read, adjust and write back the count of each referenced table,
      once per clause: by +1 after CREATE (run.py:175-180) and by -1 in DROP
      (run.py:207-213). */
  method AdjustEach(cat: map<string, Schema>, ts: seq<string>, delta: int) returns (next: map<string, Schema>)
    requires forall i | 0 <= i < |ts| :: ts[i] in cat
    ensures next == AdjustCounts(cat, ts, delta)
  {
    next := cat;
    for i := 0 to |ts|
      invariant next == AdjustCounts(cat, ts[..i], delta)
    {
      AdjustCountsStep(cat, ts, delta, i);
      next := next[ts[i] := next[ts[i]].(referenceCount := next[ts[i]].referenceCount + delta)];
    }
    assert ts[..|ts|] == ts;
  }

  class Database {
    var catalog: map<string, Schema>
    var files: map<string, set<Row>>

    /** reference_count(T) is the number of foreign-key clauses naming T, every clause
        names an existing table, and the row files fit their tables. */
    ghost predicate Valid()
      reads this
    {
      CatalogInvariant(catalog) && FilesFit(catalog, files)
    }

    /** An empty `DB` directory. */
    constructor ()
      ensures Valid() && catalog == map[] && files == map[]
    {
      catalog := map[];
      files := map[];
    }

    /** create_table_query (run.py:20-184): every check runs before anything outside the
        new schema changes; on success the schema is stored and the count of each
        referenced table is raised once per clause, read, incremented and written back. */
    method CreateTable(stmt: Create.CreateStmt) returns (r: Result<Schema>)
      requires Valid() && Create.WellFormed(stmt)
      modifies this
      ensures Valid()
      ensures r == Create.CreateSpec(old(catalog), stmt)
      ensures r.Err? ==> catalog == old(catalog)
      ensures r.Ok? ==> catalog == Create.CommitCreate(old(catalog), Lower(stmt.table), r.value)
      ensures files == old(files)
    {
      var name := Lower(stmt.table);
      var cat := catalog;
      r := Create.ValidateCreate(cat, stmt);
      if r.Err? {
        return;
      }
      var s := r.value;
      CommitCreateValid(cat, files, stmt);
      var next := AdjustEach(cat[name := s], Targets(s.foreignKeys), 1);
      catalog := next;
    }

    /** drop_table_query (run.py:187-219): the count of each referenced table is lowered
        once per clause, then the schema and the row file are removed. */
    method DropTable(table: string) returns (r: Result<()>)
      requires Valid()
      modifies this
      ensures Valid()
      ensures Drop.DropSpec(old(catalog), table).Err? ==>
                r == Err(Drop.DropSpec(old(catalog), table).error) && catalog == old(catalog) && files == old(files)
      ensures Drop.DropSpec(old(catalog), table).Ok? ==>
                r == Ok(()) && catalog == Drop.DropSpec(old(catalog), table).value && files == old(files) - {Lower(table)}
    {
      var t := Lower(table);
      var cat := catalog;
      if t !in cat {
        return Err(NoSuchTable);
      }
      if IntToString(cat[t].referenceCount) != "0" {
        return Err(DropReferencedTableError);
      }
      Drop.DropKeepsInvariant(cat, table);
      DropKeepsFiles(cat, files, table);
      var next := AdjustEach(cat, Targets(cat[t].foreignKeys), -1);
      catalog := next - {t};
      files := files - {t};
      return Ok(());
    }

    /** desc_query (run.py:230-272): reads only. */
    method DescribeTable(table: string) returns (r: Result<seq<Describe.DescRow>>)
      requires Valid()
      ensures r == Describe.DescribeSpec(catalog, table)
    {
      var t := Lower(table);
      if t !in catalog {
        return Err(NoSuchTable);
      }
      r := Describe.DescribeRows(catalog[t], Store(catalog[t]));
    }

    /** select_query, select-all branch (run.py:285-326): reads only. */
    method SelectAll(tables: seq<string>) returns (r: Result<Select.Selection>)
      requires Valid() && |tables| > 0
      ensures var t := Select.SelectedTable(tables);
        && (r == Err(SelectTableExistenceError) <==> t !in catalog)
        && (r == Err(Uncaught) <==> t in catalog && t !in files)
        && (r.Ok? <==> t in catalog && t in files)
        && (r.Ok? ==>
                      r.value.header == StoredColumnNames(catalog[t]) && Select.Lists(files[t], r.value.rows))
    {
      r := Select.SelectAll(catalog, files, tables);
    }

    /** insert_query (run.py:329-458): the checks read only the metadata store; the row
        file is created once they pass, and the row is put if it can be built. */
    method InsertRow(stmt: Insert.InsertStmt) returns (r: Result<Row>)
      requires Valid()
      modifies this
      ensures Valid()
      ensures r == Insert.InsertSpec(old(catalog), stmt)
      ensures catalog == old(catalog)
      ensures files == InsertedFiles(old(catalog), old(files), stmt)
    {
      var t := Lower(stmt.table);
      if t !in catalog {
        return Err(NoSuchTable);
      }
      InsertKeepsFiles(catalog, files, stmt);
      var s := catalog[t];
      var store := Store(s);
      var checked := Insert.ValidateInsert(s, store, stmt);
      if checked.Err? {
        return Err(checked.error);
      }
      var file := if t in files then files[t] else {};
      var row := Insert.PrepareRow(s, store, stmt.columns.Some?, checked.value.0, checked.value.1);
      if row.Err? {
        files := files[t := file];
        return Err(row.error);
      }
      files := files[t := file + {row.value}];
      return row;
    }

    /** delete_query (run.py:461-505): with no WHERE clause every row is deleted; with
        one, each row the clause accepts is deleted as the cursor reaches it, and an
        evaluation error ends the statement. */
    method DeleteFrom(table: string, where: Option<Where.BoolExpr>) returns (r: Result<nat>)
      requires Valid()
      modifies this
      ensures Valid()
      ensures catalog == old(catalog)
      ensures DeleteSpec(old(catalog), old(files), table, where).Err? ==>
                r == Err(DeleteSpec(old(catalog), old(files), table, where).error) && files == old(files)
      ensures DeleteSpec(old(catalog), old(files), table, where).Ok? ==>
                var d := DeleteSpec(old(catalog), old(files), table, where).value;
                r == Ok(d.count) && files == old(files)[Lower(table) := d.remaining]
    {
      var t := Lower(table);
      if t !in catalog {
        return Err(NoSuchTable);
      }
      if t !in files {
        return Err(Uncaught);
      }
      ghost var spec := DeleteSpec(catalog, files, table, where);
      if spec.Ok? {
        DeleteKeepsFiles(catalog, files, table, where);
      }
      var s := catalog[t];
      if where.None? {
        var count, remaining := Delete.ClearRows(files[t]);
        files := files[t := remaining];
        return Ok(count);
      }
      var scope := Delete.BuildScope(t, s, Store(s));
      if scope.Err? {
        return Err(scope.error);
      }
      var d, remaining := Delete.DeleteRows(where.value, scope.value, files[t]);
      if d.Err? {
        return Err(d.error);
      }
      files := files[t := remaining];
      return Ok(d.value.count);
    }
  }

  /** INSERT into an empty table followed by SELECT * lists exactly the inserted row. */
  lemma InsertThenSelect(cat: map<string, Schema>, files: map<string, set<Row>>, stmt: Insert.InsertStmt, out: seq<Row>)
    requires RowFile(files, Lower(stmt.table)) == {}
    requires Insert.InsertSpec(cat, stmt).Ok?
    requires Select.Lists(RowFile(InsertedFiles(cat, files, stmt), Lower(stmt.table)), out)
    ensures out == [Insert.InsertSpec(cat, stmt).value]
  {
    var t := Lower(stmt.table);
    assert InsertedFiles(cat, files, stmt)[t] == {Insert.InsertSpec(cat, stmt).value};
    Select.ListsSingleton(Insert.InsertSpec(cat, stmt).value, out);
  }
}
