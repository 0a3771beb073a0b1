/** CREATE TABLE (run.py:20-184): the checks in the order the handler makes them, as
    specification functions; the loops that carry them out, proved equal to those
    functions; and a declarative account of which statements are accepted. */
module Create {
  import opened Strings
  import opened Catalog

  /** One `column_definition`: the name as typed, the declared type, NOT NULL. */
  datatype ColumnDef = ColumnDef(name: string, ty: ColType, notNull: bool)

  /** One `referential_constraint`, names as typed. */
  datatype FkClause = FkClause(local: seq<string>, refTable: string, refColumns: seq<string>)

  /** The parsed statement: table name, column definitions, every PRIMARY KEY clause and
      every FOREIGN KEY clause, each in the order written. */
  datatype CreateStmt = CreateStmt(
    table: string,
    columns: seq<ColumnDef>,
    primaryKeys: seq<seq<string>>,
    foreignKeys: seq<FkClause>)

  /** What the grammar guarantees: identifiers are non-empty and a foreign-key clause
      names at least one column on each side. */
  predicate WellFormed(stmt: CreateStmt) {
    && (forall i | 0 <= i < |stmt.columns| :: stmt.columns[i].name != "")
    && (forall i | 0 <= i < |stmt.foreignKeys| :: ClauseShaped(stmt.foreignKeys[i]))
  }

  predicate ClauseShaped(c: FkClause) {
    |c.local| > 0 && |c.refColumns| > 0
  }

  function LowerAll(xs: seq<string>): (r: seq<string>)
    ensures |r| == |xs|
    ensures forall i | 0 <= i < |xs| :: r[i] == Lower(xs[i])
  {
    seq(|xs|, i requires 0 <= i < |xs| => Lower(xs[i]))
  }

  function Min(a: int, b: int): int {
    if a <= b then a else b
  }

  // ---------------------------------------------------------------------------
  // Column definitions (run.py:36-60)

  /** The column list and the NOT NULL list built so far. */
  datatype Columns = Columns(defined: seq<Column>, notNull: seq<string>)

  /** One round of the column loop: the char length is checked before the name is put
      into the store, whose no-overwrite put rejects a repeated name. */
  function AddColumn(acc: Columns, d: ColumnDef): Result<Columns> {
    var name := Lower(d.name);
    if d.ty.Char? && ParsePyInt(d.ty.text).None? then Err(Uncaught)
    else if d.ty.Char? && ParsePyInt(d.ty.text).value < 1 then Err(CharLengthError)
    else if name in Names(acc.defined) then Err(DuplicateColumnDefError)
    else Ok(Columns(acc.defined + [Column(name, d.ty)], if d.notNull then acc.notNull + [name] else acc.notNull))
  }

  function CheckColumns(defs: seq<ColumnDef>): Result<Columns> {
    if defs == [] then Ok(Columns([], []))
    else
      match CheckColumns(defs[..|defs| - 1])
      case Err(e) => Err(e)
      case Ok(acc) => AddColumn(acc, defs[|defs| - 1])
  }

  /** A char length token that `int()` reads as 1 or more. */
  predicate LengthAccepted(t: ColType) {
    t.Char? ==> ParsePyInt(t.text).Some? && ParsePyInt(t.text).value >= 1
  }

  /** Accepted column lists: every char length reads as 1 or more, no two names equal
      once lowered. */
  predicate ColumnsAdmissible(defs: seq<ColumnDef>) {
    && (forall i | 0 <= i < |defs| :: LengthAccepted(defs[i].ty))
    && (forall i, j | 0 <= i < j < |defs| :: Lower(defs[i].name) != Lower(defs[j].name))
  }

  function DeclaredColumns(defs: seq<ColumnDef>): (r: seq<Column>)
    ensures |r| == |defs|
  {
    seq(|defs|, i requires 0 <= i < |defs| => Column(Lower(defs[i].name), defs[i].ty))
  }

  /** The lowered names of the NOT NULL columns, in declaration order. */
  function DeclaredNotNull(defs: seq<ColumnDef>): seq<string> {
    if defs == [] then []
    else DeclaredNotNull(defs[..|defs| - 1]) + (if defs[|defs| - 1].notNull then [Lower(defs[|defs| - 1].name)] else [])
  }

  lemma {:induction false} CheckColumnsMeaning(defs: seq<ColumnDef>)
    ensures CheckColumns(defs).Ok? <==> ColumnsAdmissible(defs)
    ensures CheckColumns(defs).Ok? ==>
              CheckColumns(defs).value == Columns(DeclaredColumns(defs), DeclaredNotNull(defs))
  {
    if defs != [] {
      var p := defs[..|defs| - 1];
      CheckColumnsMeaning(p);
      AdmissibleStep(defs);
      if CheckColumns(p).Ok? {
        AddColumnStep(defs);
      }
    }
  }

  /** An admissible list extended by one definition stays admissible iff the new length
      is accepted and the new name is new. */
  lemma AdmissibleStep(defs: seq<ColumnDef>)
    requires defs != []
    ensures var p, d := defs[..|defs| - 1], defs[|defs| - 1];
      ColumnsAdmissible(defs) <==>
        && ColumnsAdmissible(p)
        && LengthAccepted(d.ty)
        && (forall i | 0 <= i < |p| :: Lower(p[i].name) != Lower(d.name))
  {
    var p := defs[..|defs| - 1];
    assert forall i | 0 <= i < |p| :: p[i] == defs[i];
  }

  /** The last round of the column loop, after the earlier rounds built the declared
      columns. */
  lemma AddColumnStep(defs: seq<ColumnDef>)
    requires defs != []
    requires CheckColumns(defs[..|defs| - 1]) ==
               Ok(Columns(DeclaredColumns(defs[..|defs| - 1]), DeclaredNotNull(defs[..|defs| - 1])))
    ensures var p, d := defs[..|defs| - 1], defs[|defs| - 1];
      && (CheckColumns(defs).Ok? <==>
            LengthAccepted(d.ty) && forall i | 0 <= i < |p| :: Lower(p[i].name) != Lower(d.name))
      && (CheckColumns(defs).Ok? ==>
            CheckColumns(defs).value == Columns(DeclaredColumns(defs), DeclaredNotNull(defs)))
  {
    var p := defs[..|defs| - 1];
    var d := defs[|defs| - 1];
    var acc := CheckColumns(p).value;
    assert DeclaredColumns(defs) == DeclaredColumns(p) + [Column(Lower(d.name), d.ty)];
    if Lower(d.name) in Names(acc.defined) {
      var k :| 0 <= k < |acc.defined| && Names(acc.defined)[k] == Lower(d.name);
      assert Lower(p[k].name) == Lower(d.name);
    } else {
      forall i | 0 <= i < |p|
        ensures Lower(p[i].name) != Lower(d.name)
      {
        assert Names(acc.defined)[i] == Lower(p[i].name);
      }
    }
  }

  lemma {:induction false} ColumnsErrSticks(defs: seq<ColumnDef>, i: nat)
    requires i <= |defs| && CheckColumns(defs[..i]).Err?
    ensures CheckColumns(defs) == CheckColumns(defs[..i])
  {
    if i < |defs| {
      var p := defs[..|defs| - 1];
      assert p[..i] == defs[..i];
      ColumnsErrSticks(p, i);
    } else {
      assert defs[..i] == defs;
    }
  }

  /** The column loop of run.py:36-60. */
  method ValidateColumns(defs: seq<ColumnDef>) returns (r: Result<Columns>)
    ensures r == CheckColumns(defs)
  {
    var columnNames: seq<Column> := [];
    var notNull: seq<string> := [];
    for i := 0 to |defs|
      invariant CheckColumns(defs[..i]) == Ok(Columns(columnNames, notNull))
    {
      assert defs[..i + 1][..i] == defs[..i];
      var d := defs[i];
      var name := Lower(d.name);
      if d.ty.Char? && ParsePyInt(d.ty.text).None? {
        ColumnsErrSticks(defs, i + 1);
        return Err(Uncaught);
      }
      if d.ty.Char? && ParsePyInt(d.ty.text).value < 1 {
        ColumnsErrSticks(defs, i + 1);
        return Err(CharLengthError);
      }
      if name in Names(columnNames) {
        ColumnsErrSticks(defs, i + 1);
        return Err(DuplicateColumnDefError);
      }
      columnNames := columnNames + [Column(name, d.ty)];
      if d.notNull {
        notNull := notNull + [name];
      }
    }
    assert defs[..|defs|] == defs;
    return Ok(Columns(columnNames, notNull));
  }

  // ---------------------------------------------------------------------------
  // Key column lists (run.py:78-85 and run.py:100-107)

  /** Lower each name and require it to be a key of the store as it stands. */
  function CheckKeyColumns(view: map<string, string>, names: seq<string>): (r: Result<seq<string>>)
    ensures r.Ok? ==> |r.value| == |names| && forall i | 0 <= i < |names| :: r.value[i] in view
  {
    if names == [] then Ok([])
    else
      match CheckKeyColumns(view, names[..|names| - 1])
      case Err(e) => Err(e)
      case Ok(ks) =>
        var n := Lower(names[|names| - 1]);
        if n in view then Ok(ks + [n]) else Err(NonExistingColumnDefError)
  }

  lemma {:induction false} CheckKeyColumnsMeaning(view: map<string, string>, names: seq<string>)
    ensures CheckKeyColumns(view, names) ==
              if forall i | 0 <= i < |names| :: Lower(names[i]) in view then Ok(LowerAll(names))
              else Err(NonExistingColumnDefError)
  {
    if names != [] {
      var p := names[..|names| - 1];
      CheckKeyColumnsMeaning(view, p);
      assert forall i | 0 <= i < |p| :: p[i] == names[i];
      assert LowerAll(names) == LowerAll(p) + [Lower(names[|names| - 1])];
    }
  }

  lemma {:induction false} KeyColumnsErrSticks(view: map<string, string>, names: seq<string>, i: nat)
    requires i <= |names| && CheckKeyColumns(view, names[..i]).Err?
    ensures CheckKeyColumns(view, names) == CheckKeyColumns(view, names[..i])
  {
    if i < |names| {
      var p := names[..|names| - 1];
      assert p[..i] == names[..i];
      KeyColumnsErrSticks(view, p, i);
    } else {
      assert names[..i] == names;
    }
  }

  method ValidateKeyColumns(view: map<string, string>, names: seq<string>) returns (r: Result<seq<string>>)
    ensures r == CheckKeyColumns(view, names)
  {
    var keys: seq<string> := [];
    for i := 0 to |names|
      invariant CheckKeyColumns(view, names[..i]) == Ok(keys)
    {
      assert names[..i + 1][..i] == names[..i];
      var n := Lower(names[i]);
      if n !in view {
        KeyColumnsErrSticks(view, names, i + 1);
        return Err(NonExistingColumnDefError);
      }
      keys := keys + [n];
    }
    assert names[..|names|] == names;
    return Ok(keys);
  }

  // ---------------------------------------------------------------------------
  // Primary key (run.py:67-88)

  /** The first clause is checked in full; a second clause is rejected as soon as the
      loop reaches it. */
  function CheckPrimaryKey(view: map<string, string>, clauses: seq<seq<string>>): Result<seq<string>> {
    if clauses == [] then Ok([])
    else
      match CheckKeyColumns(view, clauses[0])
      case Err(e) => Err(e)
      case Ok(pk) => if |clauses| > 1 then Err(DuplicatePrimaryKeyDefError) else Ok(pk)
  }

  method ValidatePrimaryKey(view: map<string, string>, clauses: seq<seq<string>>) returns (r: Result<seq<string>>)
    ensures r == CheckPrimaryKey(view, clauses)
  {
    var primaryKey: seq<string> := [];
    var duplicate := false;
    for i := 0 to |clauses|
      invariant i <= 1
      invariant duplicate <==> i > 0
      invariant i > 0 ==> CheckKeyColumns(view, clauses[0]) == Ok(primaryKey)
      invariant i == 0 ==> primaryKey == []
    {
      if duplicate {
        return Err(DuplicatePrimaryKeyDefError);
      }
      var k := ValidateKeyColumns(view, clauses[i]);
      if k.Err? {
        return Err(k.error);
      }
      primaryKey := k.value;
      duplicate := true;
    }
    return Ok(primaryKey);
  }

  // ---------------------------------------------------------------------------
  // Foreign keys (run.py:92-170)

  /** One pair of the zip: the referenced column must be a key of the referenced store,
      one of its primary-key columns, and carry the same stored type string. */
  function CheckPair(localView: map<string, string>, refView: map<string, string>, refPk: seq<string>,
                     l: string, r: string): Result<()>
    requires l in localView
  {
    if r !in refView then Err(ReferenceColumnExistenceError)
    else if r !in SplitView(refPk) then Err(ReferenceNonPrimaryKeyError)
    else if localView[l] != refView[r] then Err(ReferenceTypeError)
    else Ok(())
  }

  /** The first `k` pairs, in order. */
  function CheckPairs(localView: map<string, string>, refView: map<string, string>, refPk: seq<string>,
                      fl: seq<string>, rl: seq<string>, k: nat): Result<()>
    requires k <= |fl| && k <= |rl|
    requires forall i | 0 <= i < |fl| :: fl[i] in localView
  {
    if k == 0 then Ok(())
    else
      match CheckPairs(localView, refView, refPk, fl, rl, k - 1)
      case Err(e) => Err(e)
      case Ok(_) => CheckPair(localView, refView, refPk, fl[k - 1], rl[k - 1])
  }

  lemma {:induction false} CheckPairsMeaning(localView: map<string, string>, refView: map<string, string>,
                                             refPk: seq<string>, fl: seq<string>, rl: seq<string>, k: nat)
    requires k <= |fl| && k <= |rl|
    requires forall i | 0 <= i < |fl| :: fl[i] in localView
    ensures CheckPairs(localView, refView, refPk, fl, rl, k).Ok? <==>
              forall j | 0 <= j < k :: PairAdmissible(localView, refView, refPk, fl[j], rl[j])
  {
    if k > 0 {
      CheckPairsMeaning(localView, refView, refPk, fl, rl, k - 1);
    }
  }

  lemma {:induction false} PairsErrSticks(localView: map<string, string>, refView: map<string, string>,
                                          refPk: seq<string>, fl: seq<string>, rl: seq<string>, j: nat, k: nat)
    requires j <= k <= |fl| && k <= |rl|
    requires forall i | 0 <= i < |fl| :: fl[i] in localView
    requires CheckPairs(localView, refView, refPk, fl, rl, j).Err?
    ensures CheckPairs(localView, refView, refPk, fl, rl, k) == CheckPairs(localView, refView, refPk, fl, rl, j)
    decreases k - j
  {
    if j < k {
      PairsErrSticks(localView, refView, refPk, fl, rl, j, k - 1);
    }
  }

  /** The zip of referencing and referenced columns against the referenced table `rs`
      (surplus columns on either side are ignored), then the primary-key list of `rs`
      as the last pair left it: each pair removes its column from a freshly read copy,
      and anything left over is rejected. */
  function CheckReference(localView: map<string, string>, refView: map<string, string>, refPk: seq<string>,
                          fl: seq<string>, rl: seq<string>): Result<()>
    requires |fl| > 0 && |rl| > 0
    requires forall i | 0 <= i < |fl| :: fl[i] in localView
  {
    var k := Min(|fl|, |rl|);
    match CheckPairs(localView, refView, refPk, fl, rl, k)
    case Err(e) => Err(e)
    case Ok(_) =>
      if RemoveFirst(SplitView(refPk), rl[k - 1]) != [] then Err(ReferenceNonPrimaryKeyError)
      else Ok(())
  }

  /** Accepted references, stated without the loop: each zipped pair passes the
      existence, primary-key and type tests, and the primary key of `rs` is exactly the
      last referenced column of the zip. */
  predicate ReferenceAdmissible(localView: map<string, string>, refView: map<string, string>, refPk: seq<string>,
                                fl: seq<string>, rl: seq<string>)
    requires |fl| > 0 && |rl| > 0
    requires forall i | 0 <= i < |fl| :: fl[i] in localView
  {
    var k := Min(|fl|, |rl|);
    && (forall j | 0 <= j < k :: PairAdmissible(localView, refView, refPk, fl[j], rl[j]))
    && SplitView(refPk) == [rl[k - 1]]
  }

  predicate PairAdmissible(localView: map<string, string>, refView: map<string, string>, refPk: seq<string>,
                           l: string, r: string)
    requires l in localView
  {
    r in refView && r in SplitView(refPk) && localView[l] == refView[r]
  }

  /** Removing a member from a list leaves nothing exactly when the list is that member alone. */
  lemma LeftoverEmpty(xs: seq<string>, x: string)
    requires x in xs
    ensures RemoveFirst(xs, x) == [] <==> xs == [x]
  {
    if |xs| == 1 {
      assert xs[0] == x;
    }
  }

  lemma CheckReferenceMeaning(localView: map<string, string>, refView: map<string, string>, refPk: seq<string>,
                              fl: seq<string>, rl: seq<string>)
    requires |fl| > 0 && |rl| > 0
    requires forall i | 0 <= i < |fl| :: fl[i] in localView
    ensures CheckReference(localView, refView, refPk, fl, rl).Ok? <==> ReferenceAdmissible(localView, refView, refPk, fl, rl)
  {
    var k := Min(|fl|, |rl|);
    CheckPairsMeaning(localView, refView, refPk, fl, rl, k);
    if CheckPairs(localView, refView, refPk, fl, rl, k).Ok? {
      assert PairAdmissible(localView, refView, refPk, fl[k - 1], rl[k - 1]);
      LeftoverEmpty(SplitView(refPk), rl[k - 1]);
    }
  }

  /** One clause: referencing columns, self reference, referenced table, then the
      reference itself. */
  function CheckForeignKey(table: string, views: map<string, TableView>, localView: map<string, string>,
                           c: FkClause): Result<ForeignKey>
    requires ClauseShaped(c)
  {
    match CheckKeyColumns(localView, c.local)
    case Err(e) => Err(e)
    case Ok(fl) =>
      var rt := Lower(c.refTable);
      var rl := LowerAll(c.refColumns);
      if rt == table then Err(SelfReferenceError)
      else if rt !in views then Err(ReferenceTableExistenceError)
      else
        match CheckReference(localView, views[rt].store, views[rt].primaryKey, fl, rl)
        case Err(e) => Err(e)
        case Ok(_) => Ok(ForeignKey(fl, rt, rl))
  }

  /** The clause as it is stored once accepted: every name lowered. */
  function StoredClause(c: FkClause): ForeignKey {
    ForeignKey(LowerAll(c.local), Lower(c.refTable), LowerAll(c.refColumns))
  }

  /** Accepted clauses, stated without the loops: every referencing column is a key of
      the store, the referenced table is another existing table, and the reference is
      admissible. */
  predicate FkAdmissible(table: string, views: map<string, TableView>, localView: map<string, string>, c: FkClause) {
    && ClauseShaped(c)
    && (forall i | 0 <= i < |c.local| :: Lower(c.local[i]) in localView)
    && Lower(c.refTable) != table && Lower(c.refTable) in views
    && ReferenceAdmissible(localView, views[Lower(c.refTable)].store, views[Lower(c.refTable)].primaryKey,
                           LowerAll(c.local), LowerAll(c.refColumns))
  }

  lemma CheckForeignKeyMeaning(table: string, views: map<string, TableView>, localView: map<string, string>, c: FkClause)
    requires ClauseShaped(c)
    ensures CheckForeignKey(table, views, localView, c).Ok? <==> FkAdmissible(table, views, localView, c)
    ensures CheckForeignKey(table, views, localView, c).Ok? ==> CheckForeignKey(table, views, localView, c).value == StoredClause(c)
  {
    CheckKeyColumnsMeaning(localView, c.local);
    var rt := Lower(c.refTable);
    if (forall i | 0 <= i < |c.local| :: Lower(c.local[i]) in localView) && rt != table && rt in views {
      CheckReferenceMeaning(localView, views[rt].store, views[rt].primaryKey, LowerAll(c.local), LowerAll(c.refColumns));
    }
  }

  /** Every clause in order; the first rejected clause ends the statement. */
  function CheckForeignKeys(table: string, views: map<string, TableView>, localView: map<string, string>,
                            clauses: seq<FkClause>): (r: Result<seq<ForeignKey>>)
    requires forall i | 0 <= i < |clauses| :: ClauseShaped(clauses[i])
  {
    Collect(ClauseResults(table, views, localView, clauses))
  }

  function ClauseResults(table: string, views: map<string, TableView>, localView: map<string, string>,
                         clauses: seq<FkClause>): (rs: seq<Result<ForeignKey>>)
    requires forall i | 0 <= i < |clauses| :: ClauseShaped(clauses[i])
    ensures |rs| == |clauses|
    ensures forall i | 0 <= i < |clauses| :: rs[i] == CheckForeignKey(table, views, localView, clauses[i])
  {
    seq(|clauses|, i requires 0 <= i < |clauses| => CheckForeignKey(table, views, localView, clauses[i]))
  }

  lemma CheckForeignKeysMeaning(table: string, views: map<string, TableView>,
                                localView: map<string, string>, clauses: seq<FkClause>)
    requires forall i | 0 <= i < |clauses| :: ClauseShaped(clauses[i])
    ensures CheckForeignKeys(table, views, localView, clauses).Ok? <==>
              forall i | 0 <= i < |clauses| :: FkAdmissible(table, views, localView, clauses[i])
    ensures CheckForeignKeys(table, views, localView, clauses).Ok? ==>
              |CheckForeignKeys(table, views, localView, clauses).value| == |clauses| &&
              forall i | 0 <= i < |clauses| :: CheckForeignKeys(table, views, localView, clauses).value[i] == StoredClause(clauses[i])
  {
    var rs := ClauseResults(table, views, localView, clauses);
    CollectMeaning(rs);
    forall i | 0 <= i < |clauses|
      ensures rs[i].Ok? <==> FkAdmissible(table, views, localView, clauses[i])
      ensures rs[i].Ok? ==> rs[i].value == StoredClause(clauses[i])
    {
      CheckForeignKeyMeaning(table, views, localView, clauses[i]);
    }
  }

  /** The body of the clause loop (run.py:96-170). */
  method ValidateForeignKey(table: string, views: map<string, TableView>, localView: map<string, string>,
                            c: FkClause) returns (r: Result<ForeignKey>)
    requires ClauseShaped(c)
    ensures r == CheckForeignKey(table, views, localView, c)
  {
    var fk := ValidateKeyColumns(localView, c.local);
    if fk.Err? {
      return Err(fk.error);
    }
    var foreignKey := fk.value;
    var refTable := Lower(c.refTable);
    if refTable == table {
      return Err(SelfReferenceError);
    }
    var referencedKey: seq<string> := [];
    for i := 0 to |c.refColumns|
      invariant referencedKey == LowerAll(c.refColumns[..i])
    {
      referencedKey := referencedKey + [Lower(c.refColumns[i])];
    }
    assert c.refColumns[..|c.refColumns|] == c.refColumns;
    if refTable !in views {
      return Err(ReferenceTableExistenceError);
    }
    var ok := ValidateReference(localView, views[refTable].store, views[refTable].primaryKey, foreignKey, referencedKey);
    if ok.Err? {
      return Err(ok.error);
    }
    return Ok(ForeignKey(foreignKey, refTable, referencedKey));
  }

  /** The zip loop and the leftover test of run.py:124-164. */
  method ValidateReference(localView: map<string, string>, refView: map<string, string>, refPk: seq<string>,
                           fl: seq<string>, rl: seq<string>) returns (r: Result<()>)
    requires |fl| > 0 && |rl| > 0
    requires forall i | 0 <= i < |fl| :: fl[i] in localView
    ensures r == CheckReference(localView, refView, refPk, fl, rl)
  {
    var k := Min(|fl|, |rl|);
    var pkList: seq<string> := [];
    for j := 0 to k
      invariant CheckPairs(localView, refView, refPk, fl, rl, j).Ok?
      invariant j > 0 ==> pkList == RemoveFirst(SplitView(refPk), rl[j - 1])
    {
      var step, rest := ValidatePair(localView, refView, refPk, fl[j], rl[j]);
      if step.Err? {
        assert CheckPairs(localView, refView, refPk, fl, rl, j + 1) == step;
        PairsErrSticks(localView, refView, refPk, fl, rl, j + 1, k);
        return step;
      }
      pkList := rest;
    }
    if pkList != [] {
      return Err(ReferenceNonPrimaryKeyError);
    }
    return Ok(());
  }

  /** One round of the zip loop; the primary-key list is read afresh each round. */
  method ValidatePair(localView: map<string, string>, refView: map<string, string>, refPk: seq<string>,
                      referencing: string, referenced: string) returns (r: Result<()>, pkList: seq<string>)
    requires referencing in localView
    ensures r == CheckPair(localView, refView, refPk, referencing, referenced)
    ensures r.Ok? ==> pkList == RemoveFirst(SplitView(refPk), referenced)
  {
    pkList := [];
    if referenced !in refView {
      return Err(ReferenceColumnExistenceError), pkList;
    }
    pkList := SplitView(refPk);
    if referenced !in pkList {
      return Err(ReferenceNonPrimaryKeyError), pkList;
    }
    pkList := RemoveFirst(pkList, referenced);
    if localView[referencing] != refView[referenced] {
      return Err(ReferenceTypeError), pkList;
    }
    return Ok(()), pkList;
  }

  method ValidateForeignKeys(table: string, views: map<string, TableView>, localView: map<string, string>,
                             clauses: seq<FkClause>) returns (r: Result<seq<ForeignKey>>)
    requires forall i | 0 <= i < |clauses| :: ClauseShaped(clauses[i])
    ensures r == CheckForeignKeys(table, views, localView, clauses)
  {
    ghost var rs := ClauseResults(table, views, localView, clauses);
    var foreignKeys: seq<ForeignKey> := [];
    for i := 0 to |clauses|
      invariant Collect(rs[..i]) == Ok(foreignKeys)
    {
      var fk := ValidateForeignKey(table, views, localView, clauses[i]);
      CollectStep(rs, i, foreignKeys);
      if fk.Err? {
        return Err(fk.error);
      }
      foreignKeys := foreignKeys + [fk.value];
    }
    assert rs[..|clauses|] == rs;
    return Ok(foreignKeys);
  }

  // ---------------------------------------------------------------------------
  // The whole statement

  /** The schema CREATE TABLE builds, or the first error it reports. */
  function CreateSpec(cat: map<string, Schema>, stmt: CreateStmt): Result<Schema>
    requires WellFormed(stmt)
  {
    var name := Lower(stmt.table);
    if name in cat then Err(TableExistenceError)
    else
      match CheckColumns(stmt.columns)
      case Err(e) => Err(e)
      case Ok(cs) =>
        CheckConstraints(Views(cat), name, Schema(cs.defined, cs.notNull, [], [], 0), stmt.primaryKeys, stmt.foreignKeys)
  }

  /** The handler's checks in the order it makes them (run.py:26-170); nothing is
      committed here. */
  method ValidateCreate(cat: map<string, Schema>, stmt: CreateStmt) returns (r: Result<Schema>)
    requires WellFormed(stmt)
    ensures r == CreateSpec(cat, stmt)
  {
    var name := Lower(stmt.table);
    if name in cat {
      return Err(TableExistenceError);
    }
    var columns := ValidateColumns(stmt.columns);
    if columns.Err? {
      return Err(columns.error);
    }
    var s := Schema(columns.value.defined, columns.value.notNull, [], [], 0);
    var pk := ValidatePrimaryKey(MetaView(s, PkStage), stmt.primaryKeys);
    if pk.Err? {
      return Err(pk.error);
    }
    s := s.(primaryKey := pk.value);
    var fks := ValidateForeignKeys(name, Views(cat), MetaView(s, FkStage), stmt.foreignKeys);
    if fks.Err? {
      return Err(fks.error);
    }
    return Ok(s.(foreignKeys := fks.value));
  }

  /** The constraint part: the primary-key clause is checked against the store holding
      the columns, `column_names` and `not_null`; the foreign-key clauses against the
      store that also holds `primary_key` and `reference_count`. */
  function CheckConstraints(views: map<string, TableView>, name: string, s1: Schema,
                            pks: seq<seq<string>>, fks: seq<FkClause>): Result<Schema>
    requires forall i | 0 <= i < |fks| :: ClauseShaped(fks[i])
  {
    match CheckPrimaryKey(MetaView(s1, PkStage), pks)
    case Err(e) => Err(e)
    case Ok(pk) =>
      var s2 := s1.(primaryKey := pk);
      match CheckForeignKeys(name, views, MetaView(s2, FkStage), fks)
      case Err(e) => Err(e)
      case Ok(stored) => Ok(s2.(foreignKeys := stored))
  }

  function DeclaredPrimaryKey(pks: seq<seq<string>>): seq<string> {
    if pks == [] then [] else LowerAll(pks[0])
  }

  function StoredClauses(fks: seq<FkClause>): (r: seq<ForeignKey>)
    ensures |r| == |fks|
  {
    seq(|fks|, i requires 0 <= i < |fks| => StoredClause(fks[i]))
  }

  /** The schema a statement declares, every name lowered. */
  function DeclaredSchema(stmt: CreateStmt): Schema {
    Schema(DeclaredColumns(stmt.columns), DeclaredNotNull(stmt.columns),
           DeclaredPrimaryKey(stmt.primaryKeys), StoredClauses(stmt.foreignKeys), 0)
  }

  /** Constraints that are accepted for a schema `s`, stated without the loops. */
  predicate ConstraintsAdmissible(views: map<string, TableView>, name: string, s: Schema,
                                  pks: seq<seq<string>>, fks: seq<FkClause>) {
    && |pks| <= 1
    && (forall i | 0 <= i < |s.primaryKey| :: s.primaryKey[i] in MetaView(s, PkStage))
    && (forall i | 0 <= i < |fks| :: FkAdmissible(name, views, MetaView(s, FkStage), fks[i]))
  }

  /** The statements CREATE TABLE accepts, stated without the loops. */
  predicate CreateAdmissible(cat: map<string, Schema>, stmt: CreateStmt) {
    && Lower(stmt.table) !in cat
    && ColumnsAdmissible(stmt.columns)
    && ConstraintsAdmissible(Views(cat), Lower(stmt.table), DeclaredSchema(stmt), stmt.primaryKeys, stmt.foreignKeys)
  }

  /** The view of the store depends only on the columns and on the reserved values written. */
  lemma MetaViewAgrees(s: Schema, t: Schema, written: set<string>)
    requires s.columns == t.columns
    requires forall k | k in written :: ReservedValue(s, k) == ReservedValue(t, k)
    ensures MetaView(s, written) == MetaView(t, written)
  {
  }

  lemma CheckConstraintsMeaning(views: map<string, TableView>, name: string, s1: Schema,
                                pks: seq<seq<string>>, fks: seq<FkClause>)
    requires forall i | 0 <= i < |fks| :: ClauseShaped(fks[i])
    requires s1.primaryKey == [] && s1.foreignKeys == [] && s1.referenceCount == 0
    ensures var s := s1.(primaryKey := DeclaredPrimaryKey(pks), foreignKeys := StoredClauses(fks));
            && (CheckConstraints(views, name, s1, pks, fks).Ok? <==> ConstraintsAdmissible(views, name, s, pks, fks))
            && (CheckConstraints(views, name, s1, pks, fks).Ok? ==> CheckConstraints(views, name, s1, pks, fks).value == s)
  {
    var s := s1.(primaryKey := DeclaredPrimaryKey(pks), foreignKeys := StoredClauses(fks));
    MetaViewAgrees(s1, s, PkStage);
    if pks != [] {
      CheckKeyColumnsMeaning(MetaView(s1, PkStage), pks[0]);
    }
    if CheckPrimaryKey(MetaView(s1, PkStage), pks).Ok? {
      var s2 := s1.(primaryKey := DeclaredPrimaryKey(pks));
      MetaViewAgrees(s2, s, FkStage);
      CheckForeignKeysMeaning(name, views, MetaView(s2, FkStage), fks);
      if CheckForeignKeys(name, views, MetaView(s2, FkStage), fks).Ok? {
        assert CheckForeignKeys(name, views, MetaView(s2, FkStage), fks).value == StoredClauses(fks);
      }
    }
  }

  /** CREATE TABLE succeeds exactly on the admissible statements, and then builds the
      declared schema. */
  lemma CreateSpecMeaning(cat: map<string, Schema>, stmt: CreateStmt)
    requires WellFormed(stmt)
    ensures CreateSpec(cat, stmt).Ok? <==> CreateAdmissible(cat, stmt)
    ensures CreateSpec(cat, stmt).Ok? ==> CreateSpec(cat, stmt).value == DeclaredSchema(stmt)
  {
    CheckColumnsMeaning(stmt.columns);
    if Lower(stmt.table) !in cat && ColumnsAdmissible(stmt.columns) {
      var s1 := Schema(DeclaredColumns(stmt.columns), DeclaredNotNull(stmt.columns), [], [], 0);
      CheckConstraintsMeaning(Views(cat), Lower(stmt.table), s1, stmt.primaryKeys, stmt.foreignKeys);
    }
  }

  /** An accepted clause names a table whose primary-key list, as read back, is the
      single column named by every zipped pair, and that column is a key of its store. */
  lemma AcceptedReference(table: string, views: map<string, TableView>, localView: map<string, string>, c: FkClause)
    requires ClauseShaped(c)
    requires CheckForeignKey(table, views, localView, c).Ok?
    ensures Lower(c.refTable) in views
    ensures var rl := LowerAll(c.refColumns);
            var k := Min(|c.local|, |c.refColumns|);
            && SplitView(views[Lower(c.refTable)].primaryKey) == [rl[k - 1]]
            && rl[k - 1] in views[Lower(c.refTable)].store
            && forall j | 0 <= j < k :: rl[j] == rl[k - 1]
  {
    CheckForeignKeyMeaning(table, views, localView, c);
    var v := views[Lower(c.refTable)];
    var fl := LowerAll(c.local);
    var rl := LowerAll(c.refColumns);
    var k := Min(|c.local|, |c.refColumns|);
    assert PairAdmissible(localView, v.store, v.primaryKey, fl[k - 1], rl[k - 1]);
    forall j | 0 <= j < k
      ensures rl[j] == rl[k - 1]
    {
      assert PairAdmissible(localView, v.store, v.primaryKey, fl[j], rl[j]);
    }
  }

  /** The empty name is never a key of a store whose column names are non-empty. */
  lemma EmptyNameNotStored(s: Schema)
    requires forall i | 0 <= i < |s.columns| :: s.columns[i].name != ""
    ensures "" !in Store(s)
  {
    MetaViewKeys(s, AllReserved, "");
    assert forall i | 0 <= i < |s.columns| :: Names(s.columns)[i] != "";
  }

  /** With a consistent catalog, an accepted clause references a table whose primary key
      is the single column every zipped pair names: a composite primary key can never
      be referenced, because the leftover test sees only the last pair's removal. */
  lemma AcceptedReferenceIsSingleKey(table: string, cat: map<string, Schema>, localView: map<string, string>, c: FkClause)
    requires CatalogInvariant(cat)
    requires ClauseShaped(c)
    requires CheckForeignKey(table, Views(cat), localView, c).Ok?
    ensures Lower(c.refTable) in cat
    ensures var rl := LowerAll(c.refColumns);
            var k := Min(|c.local|, |c.refColumns|);
            && cat[Lower(c.refTable)].primaryKey == [rl[k - 1]]
            && forall j | 0 <= j < k :: rl[j] == rl[k - 1]
  {
    AcceptedReference(table, Views(cat), localView, c);
    var s := cat[Lower(c.refTable)];
    EmptyNameNotStored(s);
  }

  /** Hence a clause naming a table whose primary key is not a single column is rejected. */
  lemma CompositeKeyRejected(table: string, cat: map<string, Schema>, localView: map<string, string>, c: FkClause)
    requires CatalogInvariant(cat)
    requires ClauseShaped(c)
    requires Lower(c.refTable) in cat && |cat[Lower(c.refTable)].primaryKey| != 1
    ensures CheckForeignKey(table, Views(cat), localView, c).Err?
  {
    if CheckForeignKey(table, Views(cat), localView, c).Ok? {
      AcceptedReferenceIsSingleKey(table, cat, localView, c);
    }
  }

  /** The catalog after a successful CREATE: the new schema is stored, then the
      reference count of each referenced table is raised once per clause. */
  function CommitCreate(cat: map<string, Schema>, name: string, s: Schema): (r: map<string, Schema>)
  {
    AdjustCounts(cat[name := s], Targets(s.foreignKeys), 1)
  }

  /** An accepted statement names only existing tables other than itself, has non-empty
      column names and starts with a zero count, so committing it keeps the invariant. */
  lemma CreateKeepsInvariant(cat: map<string, Schema>, stmt: CreateStmt)
    requires CatalogInvariant(cat) && WellFormed(stmt)
    requires CreateSpec(cat, stmt).Ok?
    ensures forall i | 0 <= i < |CreateSpec(cat, stmt).value.foreignKeys| ::
              CreateSpec(cat, stmt).value.foreignKeys[i].refTable in cat
    ensures CatalogInvariant(CommitCreate(cat, Lower(stmt.table), CreateSpec(cat, stmt).value))
  {
    CreateSpecMeaning(cat, stmt);
    var s := CreateSpec(cat, stmt).value;
    forall i | 0 <= i < |s.foreignKeys|
      ensures s.foreignKeys[i].refTable in cat
    {
      assert FkAdmissible(Lower(stmt.table), Views(cat), MetaView(s, FkStage), stmt.foreignKeys[i]);
    }
    forall i | 0 <= i < |s.columns|
      ensures s.columns[i].name != ""
    {
      assert |Lower(stmt.columns[i].name)| == |stmt.columns[i].name|;
    }
    AddTablePreserves(cat, Lower(stmt.table), s);
  }

  /** A created table is new and starts unreferenced. */
  lemma CreatedIsFresh(cat: map<string, Schema>, stmt: CreateStmt)
    requires WellFormed(stmt)
    requires CreateSpec(cat, stmt).Ok?
    ensures Lower(stmt.table) !in cat
    ensures CreateSpec(cat, stmt).value.referenceCount == 0
  {
  }
  lemma DeclaredNotNullLower(defs: seq<ColumnDef>)
    ensures forall i | 0 <= i < |DeclaredNotNull(defs)| :: IsLower(DeclaredNotNull(defs)[i])
  {
    if defs != [] {
      DeclaredNotNullLower(defs[..|defs| - 1]);
      LowerIsLower(defs[|defs| - 1].name);
    }
  }

  /** Every name CREATE stores is lower-cased, so the lists it joins with "COLUMN" split
      back into the lists themselves (the empty list into [""]), as DESC, INSERT and
      DELETE read them. */
  lemma StoredListsReadBack(cat: map<string, Schema>, stmt: CreateStmt)
    requires WellFormed(stmt)
    requires CreateSpec(cat, stmt).Ok?
    ensures var s := CreateSpec(cat, stmt).value;
            && Split(ReservedValue(s, ColumnNamesKey), "COLUMN") == StoredColumnNames(s)
            && Split(ReservedValue(s, NotNullKey), "COLUMN") == SplitView(s.notNull)
            && Split(ReservedValue(s, PrimaryKeyKey), "COLUMN") == SplitView(s.primaryKey)
  {
    CreateSpecMeaning(cat, stmt);
    var s := CreateSpec(cat, stmt).value;
    forall i | 0 <= i < |s.columns|
      ensures IsLower(Names(s.columns)[i])
    {
      LowerIsLower(stmt.columns[i].name);
    }
    SplitJoin(Names(s.columns), "COLUMN");
    DeclaredNotNullLower(stmt.columns);
    SplitJoin(s.notNull, "COLUMN");
    forall i | 0 <= i < |s.primaryKey|
      ensures IsLower(s.primaryKey[i])
    {
      LowerIsLower(stmt.primaryKeys[0][i]);
    }
    SplitJoin(s.primaryKey, "COLUMN");
  }

  /** A created table with at least one column, none named after a reserved key, is
      plainly named: the premise of the declarative DESC, INSERT and DELETE lemmas. */
  lemma CreatedIsPlain(cat: map<string, Schema>, stmt: CreateStmt)
    requires WellFormed(stmt)
    requires CreateSpec(cat, stmt).Ok?
    requires |stmt.columns| > 0
    requires forall i | 0 <= i < |stmt.columns| :: Lower(stmt.columns[i].name) !in AllReserved
    ensures PlainColumns(CreateSpec(cat, stmt).value)
  {
    CreateSpecMeaning(cat, stmt);
    var s := CreateSpec(cat, stmt).value;
    forall i | 0 <= i < |s.columns|
      ensures s.columns[i].name != ""
    {
      assert |Lower(stmt.columns[i].name)| == |stmt.columns[i].name|;
    }
    forall i | 0 <= i < |s.columns| && s.columns[i].ty.Char?
      ensures ParsePyInt(s.columns[i].ty.text).Some?
    {
      assert LengthAccepted(stmt.columns[i].ty);
    }
  }
}
