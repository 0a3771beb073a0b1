/** SELECT * FROM (run.py:285-326, the branch without a column list): the stored column
    names as the header, then every row of the row file. */
module Select {
  import opened Strings
  import opened Catalog

  /** What select-all prints: the header line and one line per stored row. */
  datatype Selection = Selection(header: seq<string>, rows: seq<Row>)

  /** `out` lists every row of `rows` exactly once. */
  predicate Lists(rows: set<Row>, out: seq<Row>) {
    && |out| == |rows|
    && (forall i | 0 <= i < |out| :: out[i] in rows)
    && (forall r | r in rows :: r in out)
    && (forall i, j | 0 <= i < j < |out| :: out[i] != out[j])
  }

  /** The cursor loop (run.py:321-325): every stored row is visited once, in an order the
      model leaves open. */
  method ListRows(rows: set<Row>) returns (out: seq<Row>)
    ensures Lists(rows, out)
  {
    out := [];
    var todo := rows;
    while todo != {}
      invariant todo <= rows
      invariant Lists(rows - todo, out)
      decreases |todo|
    {
      var r :| r in todo;
      assert rows - (todo - {r}) == (rows - todo) + {r};
      out := out + [r];
      todo := todo - {r};
    }
  }

  /** The table the statement reads: the last table of the FROM list, lower-cased. */
  function SelectedTable(tables: seq<string>): string
    requires |tables| > 0
  {
    Lower(tables[|tables| - 1])
  }

  /** Select-all over the catalog `cat` and the row files `files`: an unknown table is
      reported, a table whose row file was never created makes the open raise, and
      otherwise the header is the stored column list and every row is listed once. */
  method SelectAll(cat: map<string, Schema>, files: map<string, set<Row>>, tables: seq<string>)
    returns (r: Result<Selection>)
    requires |tables| > 0
    ensures var t := SelectedTable(tables);
      && (r == Err(SelectTableExistenceError) <==> t !in cat)
      && (r == Err(Uncaught) <==> t in cat && t !in files)
      && (r.Ok? <==> t in cat && t in files)
      && (r.Ok? ==> r.value.header == StoredColumnNames(cat[t]) && Lists(files[t], r.value.rows))
  {
    var t := SelectedTable(tables);
    if t !in cat {
      return Err(SelectTableExistenceError);
    }
    var header := StoredColumnNames(cat[t]);
    if t !in files {
      return Err(Uncaught);
    }
    var out := ListRows(files[t]);
    return Ok(Selection(header, out));
  }

  /** A row file holding a single row is listed as that row alone. */
  lemma ListsSingleton(row: Row, out: seq<Row>)
    requires Lists({row}, out)
    ensures out == [row]
  {
    assert out[0] in {row};
  }
}
