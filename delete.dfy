/** DELETE FROM (run.py:461-504): the scope the WHERE clause is evaluated in, and the
    cursor loop that deletes each row the clause accepts. */
module Delete {
  import opened Strings
  import opened Catalog
  import opened Where

  /** A DELETE that runs to its end: the rows left and the count it prints. */
  datatype Deleted = Deleted(remaining: set<Row>, count: nat)

  /** `metaDB.get(name).decode()`, which raises when the key is missing. */
  function TypeOf(store: map<string, string>, name: string): Result<string> {
    if name in store then Ok(store[name]) else Err(Uncaught)
  }

  function TypeLookups(store: map<string, string>, names: seq<string>): (r: seq<Result<string>>)
    ensures |r| == |names|
    ensures forall i | 0 <= i < |names| :: r[i] == TypeOf(store, names[i])
  {
    seq(|names|, i requires 0 <= i < |names| => TypeOf(store, names[i]))
  }

  /** Every column paired with the table name. */
  function Qualified(table: string, names: seq<string>): (r: seq<(string, string)>)
    ensures |r| == |names|
    ensures forall i | 0 <= i < |names| :: r[i] == (table, names[i])
  {
    seq(|names|, i requires 0 <= i < |names| => (table, names[i]))
  }

  /** The evaluator's arguments built from the metadata store (run.py:478-483). */
  function DeleteScope(table: string, s: Schema, store: map<string, string>): (r: Result<Scope>)
    ensures r.Ok? ==> r.value.names == StoredColumnNames(s)
    ensures r.Ok? ==> |r.value.types| == |r.value.names| && |r.value.qualified| == |r.value.names|
  {
    var names := StoredColumnNames(s);
    match Collect(TypeLookups(store, names))
    case Err(e) => Err(e)
    case Ok(types) => Ok(Scope(names, types, Qualified(table, names)))
  }

  predicate RowsFit(scope: Scope, rows: set<Row>) {
    forall r | r in rows :: Fits(scope, r)
  }

  /** The WHERE clause accepts the row. */
  predicate Selected(e: BoolExpr, scope: Scope, row: Row)
    requires Fits(scope, row)
  {
    EvalExpr(e, scope, row) == Ok(true)
  }

  /** The rows the clause does not accept. */
  function Unselected(e: BoolExpr, scope: Scope, rows: set<Row>): set<Row>
    requires RowsFit(scope, rows)
  {
    set r | r in rows && !Selected(e, scope, r)
  }

  /** The cursor loop as a whole: an evaluation error, which depends on the clause and the
      scope only, ends the statement at the first row it evaluates, before anything is
      deleted and without the count being printed; otherwise every accepted row is gone. */
  function DeleteWhere(e: BoolExpr, scope: Scope, rows: set<Row>): Result<Deleted>
    requires RowsFit(scope, rows)
  {
    if rows != {} && ExprError(e, scope).Some? then Err(ExprError(e, scope).value)
    else Ok(Deleted(Unselected(e, scope, rows), |rows - Unselected(e, scope, rows)|))
  }

  /** DELETE on a table `table` with schema `s`, metadata store `store` and row file
      `rows` (None when the row file was never created, which makes the open raise). */
  function DeleteFrom(table: string, s: Schema, store: map<string, string>, rows: Option<set<Row>>, where: Option<BoolExpr>): Result<Deleted>
    requires rows.Some? ==> forall r | r in rows.value :: |r| == |StoredColumnNames(s)|
  {
    if rows.None? then Err(Uncaught)
    else if where.None? then Ok(Deleted({}, |rows.value|))
    else
      match DeleteScope(table, s, store)
      case Err(e) => Err(e)
      case Ok(scope) => DeleteWhere(where.value, scope, rows.value)
  }

  // ---------------------------------------------------------------------------
  // The loops

  /** The type-lookup loop (run.py:480-483). */
  method BuildScope(table: string, s: Schema, store: map<string, string>) returns (r: Result<Scope>)
    ensures r == DeleteScope(table, s, store)
  {
    var names := StoredColumnNames(s);
    ghost var ls := TypeLookups(store, names);
    var types: seq<string> := [];
    var qualified: seq<(string, string)> := [];
    for i := 0 to |names|
      invariant Collect(ls[..i]) == Ok(types)
      invariant qualified == Qualified(table, names[..i])
    {
      assert ls[..i + 1][..i] == ls[..i];
      if names[i] !in store {
        CollectErrSticks(ls, i + 1);
        return Err(Uncaught);
      }
      types := types + [store[names[i]]];
      qualified := qualified + [(table, names[i])];
    }
    assert ls[..|names|] == ls;
    assert names[..|names|] == names;
    return Ok(Scope(names, types, qualified));
  }

  /** The cursor loop without a WHERE clause (run.py:495-499): every row is deleted and
      counted. */
  method ClearRows(rows: set<Row>) returns (count: nat, remaining: set<Row>)
    ensures remaining == {} && count == |rows|
  {
    remaining := rows;
    count := 0;
    while remaining != {}
      invariant remaining <= rows
      invariant count == |rows - remaining|
      decreases |remaining|
    {
      var row :| row in remaining;
      assert rows - (remaining - {row}) == (rows - remaining) + {row};
      remaining := remaining - {row};
      count := count + 1;
    }
  }

  /** The state of the cursor loop: `todo` rows are still to visit, and of the visited
      rows those the clause accepts are gone from `remaining`. */
  predicate Visited(e: BoolExpr, scope: Scope, rows: set<Row>, todo: set<Row>, remaining: set<Row>)
    requires RowsFit(scope, rows)
  {
    todo <= rows && remaining == todo + (Unselected(e, scope, rows) - todo)
  }

  /** One round of the cursor loop keeps `Visited`, and a deletion raises the count by one. */
  lemma VisitOne(e: BoolExpr, scope: Scope, rows: set<Row>, todo: set<Row>, remaining: set<Row>, row: Row)
    requires RowsFit(scope, rows)
    requires Visited(e, scope, rows, todo, remaining) && row in todo
    requires EvalExpr(e, scope, row).Ok?
    ensures ExprError(e, scope).None?
    ensures Selected(e, scope, row) ==>
              && Visited(e, scope, rows, todo - {row}, remaining - {row})
              && |rows - (remaining - {row})| == |rows - remaining| + 1
    ensures !Selected(e, scope, row) ==> Visited(e, scope, rows, todo - {row}, remaining)
  {
    ExprErrorExact(e, scope, row);
    if Selected(e, scope, row) {
      assert rows - (remaining - {row}) == (rows - remaining) + {row};
    }
  }

  /** The cursor loop (run.py:484-492): rows are visited in an order the model leaves
      open, each accepted row is deleted at once, and an evaluation error returns. The
      second result is the row file after the loop, whichever way it ends. */
  method DeleteRows(e: BoolExpr, scope: Scope, rows: set<Row>) returns (r: Result<Deleted>, remaining: set<Row>)
    requires RowsFit(scope, rows)
    ensures r == DeleteWhere(e, scope, rows)
    ensures remaining == if r.Ok? then r.value.remaining else rows
  {
    remaining := rows;
    var todo := rows;
    var count := 0;
    while todo != {}
      invariant Visited(e, scope, rows, todo, remaining)
      invariant count == |rows - remaining|
      invariant todo != rows ==> ExprError(e, scope).None?
      decreases |todo|
    {
      var row :| row in todo;
      var v := EvalExpr(e, scope, row);
      if v.Err? {
        FailAtStart(e, scope, rows, todo, remaining, row);
        return Err(v.error), remaining;
      }
      VisitOne(e, scope, rows, todo, remaining, row);
      if v.value {
        remaining := remaining - {row};
        count := count + 1;
      }
      todo := todo - {row};
    }
    AllVisited(e, scope, rows, remaining);
    return Ok(Deleted(remaining, count)), remaining;
  }

  /** A failure can only come at the first row visited, when nothing has been deleted. */
  lemma FailAtStart(e: BoolExpr, scope: Scope, rows: set<Row>, todo: set<Row>, remaining: set<Row>, row: Row)
    requires RowsFit(scope, rows)
    requires Visited(e, scope, rows, todo, remaining) && row in todo
    requires todo != rows ==> ExprError(e, scope).None?
    requires EvalExpr(e, scope, row).Err?
    ensures remaining == rows
    ensures DeleteWhere(e, scope, rows) == Err(EvalExpr(e, scope, row).error)
  {
    ExprErrorExact(e, scope, row);
  }

  /** Once every row is visited, the rows left are those the clause does not accept. */
  lemma AllVisited(e: BoolExpr, scope: Scope, rows: set<Row>, remaining: set<Row>)
    requires RowsFit(scope, rows)
    requires Visited(e, scope, rows, {}, remaining)
    requires rows != {} ==> ExprError(e, scope).None?
    ensures DeleteWhere(e, scope, rows) == Ok(Deleted(remaining, |rows - remaining|))
  {
  }

  // ---------------------------------------------------------------------------
  // Properties

  /** The statement fails exactly when the clause fails on some row; it then deletes
      nothing. Otherwise a row remains exactly when the clause does not accept it, and
      the count is the number of rows removed. */
  lemma DeleteWhereMeaning(e: BoolExpr, scope: Scope, rows: set<Row>)
    requires RowsFit(scope, rows)
    ensures DeleteWhere(e, scope, rows).Err? <==> exists r | r in rows :: EvalExpr(e, scope, r).Err?
    ensures DeleteWhere(e, scope, rows).Err? ==> forall r | r in rows :: EvalExpr(e, scope, r) == Err(DeleteWhere(e, scope, rows).error)
    ensures DeleteWhere(e, scope, rows).Ok? ==>
      var d := DeleteWhere(e, scope, rows).value;
      && d.remaining <= rows
      && (forall r | r in rows :: r in d.remaining <==> EvalExpr(e, scope, r) != Ok(true))
      && d.count == |rows| - |d.remaining|
  {
    forall r | r in rows
      ensures EvalExpr(e, scope, r).Err? <==> ExprError(e, scope).Some?
      ensures EvalExpr(e, scope, r).Err? ==> EvalExpr(e, scope, r).error == ExprError(e, scope).value
    {
      ExprErrorExact(e, scope, r);
    }
    var kept := Unselected(e, scope, rows);
    assert rows == kept + (rows - kept);
  }

  /** With plainly named columns the scope holds the columns, their declared type
      strings and their names qualified by the table. */
  lemma DeleteScopeMeaning(table: string, s: Schema, store: map<string, string>)
    requires StoreOf(store, s) && PlainColumns(s)
    ensures DeleteScope(table, s, store).Ok?
    ensures var scope := DeleteScope(table, s, store).value;
      && scope.names == Names(s.columns)
      && |scope.types| == |s.columns|
      && (forall i | 0 <= i < |s.columns| :: scope.types[i] == TypeString(s.columns[i].ty))
      && (forall i | 0 <= i < |s.columns| :: scope.qualified[i] == (table, s.columns[i].name))
  {
    assert StoredColumnNames(s) == Names(s.columns);
    CollectMeaning(TypeLookups(store, Names(s.columns)));
  }

  /** An empty row file is never evaluated against, so even a failing clause reports 0
      deleted rows. */
  lemma EmptyTableNeverFails(e: BoolExpr, scope: Scope)
    requires |scope.qualified| == |scope.names| && |scope.types| == |scope.names|
    requires ExprError(e, scope).Some?
    ensures DeleteWhere(e, scope, {}) == Ok(Deleted({}, 0))
  {
    assert Unselected(e, scope, {}) == {};
  }

  /** In `t(not_null int not null)` DELETE reads the NOT NULL list, "not_null", as the
      column's type, whatever type the column was declared with. */
  lemma ReservedNameScope(table: string)
    ensures DeleteScope(table, ReservedNameTable(), Store(ReservedNameTable()))
         == Ok(Scope([NotNullKey], [NotNullKey], [(table, NotNullKey)]))
  {
    var s := ReservedNameTable();
    MetaViewKeys(s, AllReserved, NotNullKey);
    assert Store(s)[NotNullKey] == Join(s.notNull, "COLUMN") == NotNullKey;
    ReservedNameLookup(table, Store(s));
  }

  lemma ReservedNameLookup(table: string, store: map<string, string>)
    requires NotNullKey in store && store[NotNullKey] == NotNullKey
    ensures DeleteScope(table, ReservedNameTable(), store)
         == Ok(Scope([NotNullKey], [NotNullKey], [(table, NotNullKey)]))
  {
    var s := ReservedNameTable();
    assert StoredColumnNames(s) == [NotNullKey];
    var ls := TypeLookups(store, [NotNullKey]);
    assert ls == [Ok(NotNullKey)] && ls[..0] == [] && ls[..1] == ls;
    CollectStep(ls, 0, []);
    assert [] + [NotNullKey] == [NotNullKey];
    assert Collect(ls) == Ok([NotNullKey]);
    assert Qualified(table, [NotNullKey]) == [(table, NotNullKey)];
  }
}
