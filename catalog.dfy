/** The catalog: one schema per table name, and the key/value view of each schema
    that the Berkeley DB metadata store `DB/<table>_schema.db` gives the handlers. */
module Catalog {
  import opened Strings

  /** Declared column type; `Char` keeps the length token of `char(N)` as written, which
      is what the store records and what `int()` reads. */
  datatype ColType = Int | Date | Char(text: string)

  datatype Column = Column(name: string, ty: ColType)

  /** A foreign-key clause as stored: local columns, referenced table, referenced columns. */
  datatype ForeignKey = ForeignKey(local: seq<string>, refTable: string, refColumns: seq<string>)

  datatype Schema = Schema(
    columns: seq<Column>,
    notNull: seq<string>,
    primaryKey: seq<string>,
    foreignKeys: seq<ForeignKey>,
    referenceCount: int)

  type Row = seq<string>

  /** One constructor per message the handlers print; `Uncaught` is a Python exception
      no handler catches, which ends the session at that point. */
  datatype Error =
    | TableExistenceError | CharLengthError | DuplicateColumnDefError
    | DuplicatePrimaryKeyDefError | NonExistingColumnDefError | SelfReferenceError
    | ReferenceTableExistenceError | ReferenceColumnExistenceError
    | ReferenceNonPrimaryKeyError | ReferenceTypeError
    | NoSuchTable | DropReferencedTableError | SelectTableExistenceError
    | InsertTypeMismatchError | InsertColumnExistenceError | InsertColumnNonNullableError
    | WhereColumnNotExist | WhereTableNotSpecified | WhereAmbiguousReference
    | WhereIncomparableError | ParenthesizedCallError
    | Uncaught

  datatype Result<+T> = Ok(value: T) | Err(error: Error)

  /** The values of a list of results in order, or the first error among them: a loop
      that stops at the first failing element. */
  function Collect<T>(rs: seq<Result<T>>): (r: Result<seq<T>>)
    ensures r.Ok? ==> |r.value| == |rs|
  {
    if rs == [] then Ok([])
    else
      match Collect(rs[..|rs| - 1])
      case Err(e) => Err(e)
      case Ok(vs) =>
        match rs[|rs| - 1]
        case Err(e) => Err(e)
        case Ok(v) => Ok(vs + [v])
  }

  lemma {:induction false} CollectMeaning<T>(rs: seq<Result<T>>)
    ensures Collect(rs).Ok? <==> forall i | 0 <= i < |rs| :: rs[i].Ok?
    ensures Collect(rs).Ok? ==> forall i | 0 <= i < |rs| :: Collect(rs).value[i] == rs[i].value
    ensures Collect(rs).Err? ==>
              exists i | 0 <= i < |rs| :: rs[i].Err? && rs[i].error == Collect(rs).error && forall j | 0 <= j < i :: rs[j].Ok?
  {
    if rs != [] {
      var p := rs[..|rs| - 1];
      CollectMeaning(p);
      assert forall i | 0 <= i < |p| :: p[i] == rs[i];
      if Collect(p).Err? {
        var i :| 0 <= i < |p| && p[i].Err? && p[i].error == Collect(p).error && forall j | 0 <= j < i :: p[j].Ok?;
        assert rs[i].error == Collect(rs).error;
      } else if rs[|rs| - 1].Err? {
        assert rs[|rs| - 1].error == Collect(rs).error;
      }
    }
  }

  lemma {:induction false} CollectErrSticks<T>(rs: seq<Result<T>>, i: nat)
    requires i <= |rs| && Collect(rs[..i]).Err?
    ensures Collect(rs) == Collect(rs[..i])
  {
    if i < |rs| {
      var p := rs[..|rs| - 1];
      assert p[..i] == rs[..i];
      CollectErrSticks(p, i);
    } else {
      assert rs[..i] == rs;
    }
  }

  /** One more element: its value is appended, or its error is the result of the whole. */
  lemma CollectStep<T>(rs: seq<Result<T>>, i: nat, acc: seq<T>)
    requires i < |rs| && Collect(rs[..i]) == Ok(acc)
    ensures rs[i].Ok? ==> Collect(rs[..i + 1]) == Ok(acc + [rs[i].value])
    ensures rs[i].Err? ==> Collect(rs) == Err(rs[i].error)
  {
    assert rs[..i + 1][..i] == rs[..i];
    if rs[i].Err? {
      CollectErrSticks(rs, i + 1);
    }
  }

  /** The first error is the one reported. */
  lemma CollectFirstErr<T>(rs: seq<Result<T>>, i: nat)
    requires i < |rs| && rs[i].Err?
    requires forall j | 0 <= j < i :: rs[j].Ok?
    ensures Collect(rs) == Err(rs[i].error)
  {
    var p := rs[..i + 1];
    assert p[..i] == rs[..i];
    CollectMeaning(rs[..i]);
    CollectErrSticks(rs, i + 1);
  }

  /** The type string stored for a column: "int", "date" or "char" followed by the length
      token as written, so `char(05)` is stored as "char05". */
  function TypeString(t: ColType): (r: string)
    ensures t.Char? ==> Contains(r, "char") && |r| >= 4 && r[4..] == t.text
    ensures !t.Char? ==> !Contains(r, "char")
  {
    match t
    case Int => "int"
    case Date =>
      assert "date"[..4][0] != "char"[0];
      assert |"date"[1..]| < |"char"|;
      "date"
    case Char(x) =>
      ContainsPrefix("char", x);
      "char" + x
  }

  function Names(cols: seq<Column>): (r: seq<string>)
    ensures |r| == |cols|
    ensures forall i | 0 <= i < |cols| :: r[i] == cols[i].name
  {
    seq(|cols|, i requires 0 <= i < |cols| => cols[i].name)
  }

  /** Column name to stored type string; a later column overrides an earlier one. */
  function TypeMap(cols: seq<Column>): map<string, string> {
    if cols == [] then map[]
    else TypeMap(cols[..|cols| - 1])[cols[|cols| - 1].name := TypeString(cols[|cols| - 1].ty)]
  }

  const ColumnNamesKey := "column_names"
  const NotNullKey := "not_null"
  const PrimaryKeyKey := "primary_key"
  const ReferenceCountKey := "reference_count"
  const ForeignKeyKey := "foreign_key"

  /** Reserved keys present while the primary-key clause is checked (run.py:62-65). */
  const PkStage: set<string> := {ColumnNamesKey, NotNullKey}
  /** Reserved keys present while the foreign-key clauses are checked (run.py:87-90). */
  const FkStage: set<string> := PkStage + {PrimaryKeyKey, ReferenceCountKey}
  /** All reserved keys of a committed schema (run.py:173). */
  const AllReserved: set<string> := FkStage + {ForeignKeyKey}

  function FkEncoding(fk: ForeignKey): string {
    Join(fk.local, "COLUMN") + "REFERENCE" + fk.refTable + "REFERENCE" + Join(fk.refColumns, "COLUMN")
  }

  function FkEncodings(fks: seq<ForeignKey>): (r: seq<string>)
    ensures |r| == |fks|
  {
    seq(|fks|, i requires 0 <= i < |fks| => FkEncoding(fks[i]))
  }

  /** The value the store holds for a reserved key. */
  function ReservedValue(s: Schema, key: string): string {
    if key == ColumnNamesKey then Join(Names(s.columns), "COLUMN")
    else if key == NotNullKey then Join(s.notNull, "COLUMN")
    else if key == PrimaryKeyKey then Join(s.primaryKey, "COLUMN")
    else if key == ReferenceCountKey then IntToString(s.referenceCount)
    else Join(FkEncodings(s.foreignKeys), "FOREIGN")
  }

  /** The metadata store of a table as `exists`/`get` see it once the reserved keys in
      `written` have been put: each column name maps to its type string, and a reserved
      key, written after the columns, overwrites a column of the same name. */
  function MetaView(s: Schema, written: set<string>): map<string, string> {
    TypeMap(s.columns) + map k | k in written :: ReservedValue(s, k)
  }

  /** The view of a committed table. */
  function Store(s: Schema): map<string, string> {
    MetaView(s, AllReserved)
  }

  /** What another handler reads from a table's store: its key/value view and its
      primary-key list. */
  datatype TableView = TableView(store: map<string, string>, primaryKey: seq<string>)

  function Views(cat: map<string, Schema>): (v: map<string, TableView>)
    ensures v.Keys == cat.Keys
    ensures forall t | t in cat :: v[t] == TableView(Store(cat[t]), cat[t].primaryKey)
  {
    map t | t in cat :: TableView(Store(cat[t]), cat[t].primaryKey)
  }

  /** The column list as handlers read it back: `split('COLUMN')` of the stored join. */
  function StoredColumnNames(s: Schema): seq<string> {
    SplitView(Names(s.columns))
  }

  lemma {:induction false} TypeMapKeys(cols: seq<Column>, k: string)
    ensures k in TypeMap(cols) <==> k in Names(cols)
  {
    if cols != [] {
      var p := cols[..|cols| - 1];
      TypeMapKeys(p, k);
      assert Names(cols) == Names(p) + [cols[|cols| - 1].name];
    }
  }

  /** The keys of the view: the column names and the reserved keys written. */
  lemma MetaViewKeys(s: Schema, written: set<string>, k: string)
    ensures k in MetaView(s, written) <==> k in Names(s.columns) || k in written
  {
    TypeMapKeys(s.columns, k);
  }

  lemma {:induction false} TypeMapAt(cols: seq<Column>, i: nat)
    requires i < |cols|
    requires forall j | 0 <= j < |cols| && j != i :: cols[j].name != cols[i].name
    ensures cols[i].name in TypeMap(cols) && TypeMap(cols)[cols[i].name] == TypeString(cols[i].ty)
  {
    if i < |cols| - 1 {
      var p := cols[..|cols| - 1];
      TypeMapAt(p, i);
    }
  }

  /** For a column whose name is not reserved, `get` returns its declared type string. */
  lemma ViewOfColumn(s: Schema, written: set<string>, i: nat)
    requires i < |s.columns|
    requires forall j | 0 <= j < |s.columns| && j != i :: s.columns[j].name != s.columns[i].name
    requires s.columns[i].name !in written
    ensures s.columns[i].name in MetaView(s, written)
    ensures MetaView(s, written)[s.columns[i].name] == TypeString(s.columns[i].ty)
  {
    TypeMapAt(s.columns, i);
  }

  /** Every char length token of the table reads back as an integer. */
  predicate ReadableLengths(s: Schema) {
    forall i | 0 <= i < |s.columns| :: s.columns[i].ty.Char? ==> ParsePyInt(s.columns[i].ty.text).Some?
  }

  /** A table whose columns are named plainly: at least one column, each name non-empty,
      distinct, and different from every reserved key; and whose char lengths read back. */
  predicate PlainColumns(s: Schema) {
    && |s.columns| > 0
    && ReadableLengths(s)
    && (forall i | 0 <= i < |s.columns| :: s.columns[i].name != "" && s.columns[i].name !in AllReserved)
    && (forall i, j | 0 <= i < j < |s.columns| :: s.columns[i].name != s.columns[j].name)
  }

  /** `t(not_null int not null)`: a table whose one column is named after a reserved key.
      CREATE accepts it, and the reserved value written later replaces the column's type. */
  function ReservedNameTable(): Schema {
    Schema([Column(NotNullKey, Int)], [NotNullKey], [], [], 0)
  }

  /** What `exists` and `get` find in `store` for the schema `s`: the column names and the
      reserved keys, each column mapped to its type string and each reserved key to its
      value. */
  ghost predicate StoreOf(store: map<string, string>, s: Schema) {
    && (forall k :: k in store <==> k in Names(s.columns) || k in AllReserved)
    && (forall k | k in AllReserved :: k in store && store[k] == ReservedValue(s, k))
    && (forall i | 0 <= i < |s.columns| :: s.columns[i].name in store && store[s.columns[i].name] == TypeString(s.columns[i].ty))
  }

  /** The store of a committed table with plainly named columns is described by `StoreOf`. */
  lemma StoreIsStoreOf(s: Schema)
    requires PlainColumns(s)
    ensures StoreOf(Store(s), s)
  {
    forall k
      ensures k in Store(s) <==> k in Names(s.columns) || k in AllReserved
    {
      MetaViewKeys(s, AllReserved, k);
    }
    forall i | 0 <= i < |s.columns|
      ensures s.columns[i].name in Store(s) && Store(s)[s.columns[i].name] == TypeString(s.columns[i].ty)
    {
      ViewOfColumn(s, AllReserved, i);
    }
  }

  // ---------------------------------------------------------------------------
  // Reference counts

  /** The referenced table of every clause, one entry per clause (run.py:113). */
  function Targets(fks: seq<ForeignKey>): (r: seq<string>)
    ensures |r| == |fks|
    ensures forall i | 0 <= i < |fks| :: r[i] == fks[i].refTable
  {
    seq(|fks|, i requires 0 <= i < |fks| => fks[i].refTable)
  }

  /** All foreign-key clauses of the tables in `keys`, as a multiset of referenced names. */
  ghost function RefsIn(cat: map<string, Schema>, keys: set<string>): multiset<string>
    requires keys <= cat.Keys
    decreases keys
  {
    if keys == {} then multiset{}
    else
      var k :| k in keys;
      multiset(Targets(cat[k].foreignKeys)) + RefsIn(cat, keys - {k})
  }

  /** Number of foreign-key clauses, across the whole catalog, naming each table. */
  ghost function Refs(cat: map<string, Schema>): multiset<string> {
    RefsIn(cat, cat.Keys)
  }

  lemma {:induction false} RefsInSplit(cat: map<string, Schema>, keys: set<string>, k: string)
    requires keys <= cat.Keys && k in keys
    ensures RefsIn(cat, keys) == multiset(Targets(cat[k].foreignKeys)) + RefsIn(cat, keys - {k})
    decreases keys
  {
    var j :| j in keys && RefsIn(cat, keys) == multiset(Targets(cat[j].foreignKeys)) + RefsIn(cat, keys - {j});
    if j != k {
      RefsInSplit(cat, keys - {j}, k);
      RefsInSplit(cat, keys - {k}, j);
      assert keys - {j} - {k} == keys - {k} - {j};
    }
  }

  lemma {:induction false} RefsInCongruent(c1: map<string, Schema>, c2: map<string, Schema>, keys: set<string>)
    requires keys <= c1.Keys && keys <= c2.Keys
    requires forall k | k in keys :: c1[k].foreignKeys == c2[k].foreignKeys
    ensures RefsIn(c1, keys) == RefsIn(c2, keys)
    decreases keys
  {
    if keys != {} {
      var k :| k in keys;
      RefsInSplit(c1, keys, k);
      RefsInSplit(c2, keys, k);
      RefsInCongruent(c1, c2, keys - {k});
    }
  }

  lemma {:induction false} RefsInMember(cat: map<string, Schema>, keys: set<string>, k: string, i: nat)
    requires keys <= cat.Keys && k in keys && i < |cat[k].foreignKeys|
    ensures RefsIn(cat, keys)[cat[k].foreignKeys[i].refTable] > 0
  {
    RefsInSplit(cat, keys, k);
    assert Targets(cat[k].foreignKeys)[i] == cat[k].foreignKeys[i].refTable;
  }

  /** Every referenced table exists: the source opens each one without DB_CREATE. */
  ghost predicate Closed(cat: map<string, Schema>) {
    forall t, i | t in cat && 0 <= i < |cat[t].foreignKeys| :: cat[t].foreignKeys[i].refTable in cat
  }

  /** reference_count(T) equals the number of foreign-key clauses naming T. */
  ghost predicate CountsConsistent(cat: map<string, Schema>) {
    forall t | t in cat :: cat[t].referenceCount == Refs(cat)[t]
  }

  /** Column names are non-empty identifiers, as the grammar supplies them. */
  ghost predicate NamedColumns(cat: map<string, Schema>) {
    forall t, i | t in cat && 0 <= i < |cat[t].columns| :: cat[t].columns[i].name != ""
  }

  ghost predicate CatalogInvariant(cat: map<string, Schema>) {
    Closed(cat) && CountsConsistent(cat) && NamedColumns(cat)
  }

  /** Add `delta` to the reference count of each table in `ts`, once per entry, in order
      (an entry naming no table, which a consistent catalog never has, is skipped). */
  function AdjustCounts(cat: map<string, Schema>, ts: seq<string>, delta: int): (r: map<string, Schema>)
    ensures r.Keys == cat.Keys
  {
    if ts == [] then cat
    else
      var m := AdjustCounts(cat, ts[..|ts| - 1], delta);
      var last := ts[|ts| - 1];
      if last in m then m[last := m[last].(referenceCount := m[last].referenceCount + delta)] else m
  }

  /** One more entry adjusts one more count: the step of a loop that reads, adjusts and
      writes back one count per entry. */
  lemma AdjustCountsStep(cat: map<string, Schema>, ts: seq<string>, delta: int, i: nat)
    requires i < |ts| && ts[i] in cat
    ensures var m := AdjustCounts(cat, ts[..i], delta);
            && ts[i] in m
            && AdjustCounts(cat, ts[..i + 1], delta) == m[ts[i] := m[ts[i]].(referenceCount := m[ts[i]].referenceCount + delta)]
  {
    assert ts[..i + 1][..i] == ts[..i];
  }

  /** Only the counts change, each by `delta` times the number of entries naming the table. */
  lemma {:induction false} AdjustCountsAt(cat: map<string, Schema>, ts: seq<string>, delta: int, t: string)
    requires forall i | 0 <= i < |ts| :: ts[i] in cat
    requires t in cat
    ensures AdjustCounts(cat, ts, delta)[t] == cat[t].(referenceCount := cat[t].referenceCount + delta * multiset(ts)[t])
  {
    if ts != [] {
      var p := ts[..|ts| - 1];
      assert forall i | 0 <= i < |p| :: p[i] == ts[i];
      AdjustCountsAt(cat, p, delta, t);
      LastCounted(ts, t);
      var k := multiset(p)[t];
      if ts[|ts| - 1] == t {
        assert delta * (k + 1) == delta * k + delta;
      }
    }
  }

  /** The last entry of `ts` counts once for its own table. */
  lemma LastCounted(ts: seq<string>, t: string)
    requires ts != []
    ensures multiset(ts)[t] == multiset(ts[..|ts| - 1])[t] + (if ts[|ts| - 1] == t then 1 else 0)
  {
    assert ts == ts[..|ts| - 1] + [ts[|ts| - 1]];
  }

  lemma {:induction false} RefsInAbsent(cat: map<string, Schema>, keys: set<string>, x: string)
    requires keys <= cat.Keys
    requires forall k, i | k in keys && 0 <= i < |cat[k].foreignKeys| :: cat[k].foreignKeys[i].refTable != x
    ensures RefsIn(cat, keys)[x] == 0
    decreases keys
  {
    if keys != {} {
      var k :| k in keys;
      RefsInSplit(cat, keys, k);
      RefsInAbsent(cat, keys - {k}, x);
      assert x !in multiset(Targets(cat[k].foreignKeys));
    }
  }

  /** Committing a new table whose clauses all name existing tables, and then raising the
      count of each referenced table once per clause (run.py:173-180), keeps the invariant. */
  lemma AddTablePreserves(cat: map<string, Schema>, name: string, s: Schema)
    requires CatalogInvariant(cat)
    requires name !in cat
    requires forall i | 0 <= i < |s.foreignKeys| :: s.foreignKeys[i].refTable in cat
    requires s.referenceCount == 0
    requires forall i | 0 <= i < |s.columns| :: s.columns[i].name != ""
    ensures CatalogInvariant(AdjustCounts(cat[name := s], Targets(s.foreignKeys), 1))
  {
    var ts := Targets(s.foreignKeys);
    var c := cat[name := s];
    var n := AdjustCounts(c, ts, 1);
    AddTableRefs(cat, name, s);
    AddTableCounts(cat, name, s);
    RefsInAbsent(cat, cat.Keys, name);
    assert CountsConsistent(n) by {
      assert name !in multiset(ts);
    }
  }

  /** Only the counts change when the new table's references are counted. */
  lemma AddTableCounts(cat: map<string, Schema>, name: string, s: Schema)
    requires forall i | 0 <= i < |s.foreignKeys| :: s.foreignKeys[i].refTable in cat
    ensures var ts, c := Targets(s.foreignKeys), cat[name := s];
      forall t | t in AdjustCounts(c, ts, 1) ::
        AdjustCounts(c, ts, 1)[t] == c[t].(referenceCount := c[t].referenceCount + multiset(ts)[t])
  {
    var ts := Targets(s.foreignKeys);
    var c := cat[name := s];
    forall t | t in AdjustCounts(c, ts, 1)
      ensures AdjustCounts(c, ts, 1)[t] == c[t].(referenceCount := c[t].referenceCount + multiset(ts)[t])
    {
      AdjustCountsAt(c, ts, 1, t);
    }
  }

  lemma AddTableRefs(cat: map<string, Schema>, name: string, s: Schema)
    requires name !in cat
    requires forall i | 0 <= i < |s.foreignKeys| :: s.foreignKeys[i].refTable in cat
    ensures Refs(AdjustCounts(cat[name := s], Targets(s.foreignKeys), 1))
            == multiset(Targets(s.foreignKeys)) + Refs(cat)
  {
    var ts := Targets(s.foreignKeys);
    var c := cat[name := s];
    var n := AdjustCounts(c, ts, 1);
    forall t | t in c
      ensures n[t].foreignKeys == c[t].foreignKeys
    {
      AdjustCountsAt(c, ts, 1, t);
    }
    assert n.Keys - {name} == cat.Keys;
    RefsInSplit(n, n.Keys, name);
    RefsInCongruent(n, cat, cat.Keys);
  }

  /** Removing an unreferenced table, with the counts of the tables it references lowered
      once per clause, keeps the catalog invariant. */
  lemma DropTablePreserves(cat: map<string, Schema>, name: string)
    requires CatalogInvariant(cat)
    requires name in cat && cat[name].referenceCount == 0
    ensures forall i | 0 <= i < |cat[name].foreignKeys| :: cat[name].foreignKeys[i].refTable in cat
    ensures CatalogInvariant(AdjustCounts(cat, Targets(cat[name].foreignKeys), -1) - {name})
  {
    var ts := Targets(cat[name].foreignKeys);
    var a := AdjustCounts(cat, ts, -1);
    var n := a - {name};
    forall t | t in cat
      ensures a[t] == cat[t].(referenceCount := cat[t].referenceCount - multiset(ts)[t])
    {
      AdjustCountsAt(cat, ts, -1, t);
    }
    RefsInSplit(cat, cat.Keys, name);
    RefsInCongruent(n, cat, n.Keys);
    assert n.Keys == cat.Keys - {name};
    assert Refs(cat) == multiset(ts) + Refs(n);
    forall t, i | t in n && 0 <= i < |n[t].foreignKeys|
      ensures n[t].foreignKeys[i].refTable in n
    {
      RefsInMember(cat, cat.Keys, t, i);
    }
  }
}
