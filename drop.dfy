/** DROP TABLE (run.py:187-219): refused while the table is referenced; otherwise the
    count of every table it references is lowered once per foreign-key clause and its
    schema and rows are removed. */
module Drop {
  import opened Strings
  import opened Catalog
  import Create

  /** The catalog after DROP TABLE, or its error. The stored count is compared as text
      with "0"; the referenced tables are opened without DB_CREATE, which the catalog
      invariant `Closed` makes safe. */
  function DropSpec(cat: map<string, Schema>, table: string): Result<map<string, Schema>>
    requires Closed(cat)
  {
    var t := Lower(table);
    if t !in cat then Err(NoSuchTable)
    else if IntToString(cat[t].referenceCount) != "0" then Err(DropReferencedTableError)
    else Ok(AdjustCounts(cat, Targets(cat[t].foreignKeys), -1) - {t})
  }

  /** DROP fails with NoSuchTable exactly when the table is absent, and with
      DropReferencedTableError exactly when its count is not zero; otherwise the table is
      gone and every other table keeps its schema, its count lowered by the number of the
      dropped table's clauses that name it. */
  lemma DropSpecMeaning(cat: map<string, Schema>, table: string)
    requires Closed(cat)
    ensures DropSpec(cat, table) == Err(NoSuchTable) <==> Lower(table) !in cat
    ensures DropSpec(cat, table) == Err(DropReferencedTableError) <==>
              Lower(table) in cat && cat[Lower(table)].referenceCount != 0
    ensures DropSpec(cat, table).Ok? ==>
              var t := Lower(table);
              var n := DropSpec(cat, table).value;
              && n.Keys == cat.Keys - {t}
              && forall u | u in n ::
                   n[u] == cat[u].(referenceCount := cat[u].referenceCount - multiset(Targets(cat[t].foreignKeys))[u])
  {
    var t := Lower(table);
    if t in cat {
      IntToStringZero(cat[t].referenceCount);
      if cat[t].referenceCount == 0 {
        var ts := Targets(cat[t].foreignKeys);
        forall u | u in cat
          ensures AdjustCounts(cat, ts, -1)[u] == cat[u].(referenceCount := cat[u].referenceCount - multiset(ts)[u])
        {
          AdjustCountsAt(cat, ts, -1, u);
        }
      }
    }
  }

  /** A successful DROP keeps reference_count(T) equal to the number of clauses naming T. */
  lemma DropKeepsInvariant(cat: map<string, Schema>, table: string)
    requires CatalogInvariant(cat)
    requires DropSpec(cat, table).Ok?
    ensures CatalogInvariant(DropSpec(cat, table).value)
  {
    IntToStringZero(cat[Lower(table)].referenceCount);
    DropTablePreserves(cat, Lower(table));
  }

  /** A table that some foreign key of the catalog names can never be dropped, so no
      clause is ever left naming a missing table. */
  lemma ReferencedNotDroppable(cat: map<string, Schema>, table: string, u: string, i: nat)
    requires CatalogInvariant(cat)
    requires u in cat && i < |cat[u].foreignKeys| && cat[u].foreignKeys[i].refTable == Lower(table)
    ensures DropSpec(cat, table) == Err(DropReferencedTableError)
  {
    RefsInMember(cat, cat.Keys, u, i);
    IntToStringZero(cat[Lower(table)].referenceCount);
  }

  /** Lowering the counts raised by a committed table, and removing it, restores the
      catalog it was committed to. */
  lemma {:induction false} CommitThenRemove(cat: map<string, Schema>, name: string, s: Schema)
    requires name !in cat && s.referenceCount == 0
    requires forall i | 0 <= i < |s.foreignKeys| :: s.foreignKeys[i].refTable in cat
    ensures var up := Create.CommitCreate(cat, name, s);
            && name in up && up[name] == s
            && AdjustCounts(up, Targets(s.foreignKeys), -1) - {name} == cat
  {
    var c := cat[name := s];
    var ts := Targets(s.foreignKeys);
    var up := Create.CommitCreate(cat, name, s);
    assert name !in multiset(ts);
    AdjustCountsAt(c, ts, 1, name);
    var down := AdjustCounts(up, ts, -1) - {name};
    forall u | u in cat
      ensures down[u] == cat[u]
    {
      AdjustCountsAt(c, ts, 1, u);
      AdjustCountsAt(up, ts, -1, u);
    }
  }

  /** Dropping a table right after creating it gives back the catalog as it was: the
      counts raised by its clauses are lowered again. */
  lemma CreateThenDrop(cat: map<string, Schema>, stmt: Create.CreateStmt)
    requires CatalogInvariant(cat) && Create.WellFormed(stmt)
    requires Create.CreateSpec(cat, stmt).Ok?
    ensures var s := Create.CreateSpec(cat, stmt).value;
            && Closed(Create.CommitCreate(cat, Lower(stmt.table), s))
            && DropSpec(Create.CommitCreate(cat, Lower(stmt.table), s), stmt.table) == Ok(cat)
  {
    var s := Create.CreateSpec(cat, stmt).value;
    Create.CreateKeepsInvariant(cat, stmt);
    Create.CreatedIsFresh(cat, stmt);
    CommitThenRemove(cat, Lower(stmt.table), s);
    assert IntToString(s.referenceCount) == "0";
  }
}
