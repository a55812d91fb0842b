/** `pd.crosstab` of a categorical column against satisfaction_level, the
    reordering of its columns into display order for the housing heatmap,
    and the zero-filled income-bracket table (`value_counts().unstack()
    .fillna(0)`). A grid has one row per value that occurs (values with no
    rows are omitted, not zero-filled) and one column per requested label. */
module CrossTab {
  import opened Seqs
  import opened Survey
  import opened Scales

  /** A cross-tabulation: `cells[i][j]` belongs to row key `keys[i]` and
      label `cols[j]`. */
  datatype Grid = Grid(keys: seq<string>, cols: seq<string>, cells: seq<seq<nat>>)

  /** The labels of `order` that occur in `present`, in the order of `order`. */
  function KeepPresent(order: seq<string>, present: set<string>): (r: seq<string>)
    ensures forall c :: c in r <==> c in order && c in present
    ensures IsSubsequence(r, order)
    ensures Distinct(order) ==> Distinct(r)
  {
    if order == [] then []
    else if order[0] in present then [order[0]] + KeepPresent(order[1..], present)
    else KeepPresent(order[1..], present)
  }

  /** The heatmap columns: the display labels that occur in the data, in
      display order, each once. A label outside the five never appears. */
  function OrderedColumns(rows: seq<Row>): (cols: seq<string>)
    ensures forall c :: c in cols <==> c in Labels && c in LevelColumn(rows)
    ensures IsSubsequence(cols, Labels)
    ensures Distinct(cols)
  {
    TablesShareLabels();
    KeepPresent(Labels, SetOf(LevelColumn(rows)))
  }

  /** The counts of key `k` against each label of `cols`. */
  function CellRow(rows: seq<Row>, d: Dimension, k: string, cols: seq<string>): (r: seq<nat>)
    ensures |r| == |cols|
    ensures forall j :: 0 <= j < |cols| ==> r[j] == Tally(rows, d, {k}, {cols[j]})
  {
    if cols == [] then [] else [Tally(rows, d, {k}, {cols[0]})] + CellRow(rows, d, k, cols[1..])
  }

  function Cells(rows: seq<Row>, d: Dimension, keys: seq<string>, cols: seq<string>): (r: seq<seq<nat>>)
    ensures |r| == |keys|
    ensures forall i :: 0 <= i < |keys| ==> r[i] == CellRow(rows, d, keys[i], cols)
  {
    if keys == [] then [] else [CellRow(rows, d, keys[0], cols)] + Cells(rows, d, keys[1..], cols)
  }

  /** `g` is a cross-tabulation of `rows` on `d`: one row of cells per key
      and one cell per label, each cell the number of rows carrying its key
      and its label. */
  predicate Tabulates(g: Grid, rows: seq<Row>, d: Dimension)
  {
    && |g.cells| == |g.keys|
    && (forall i :: 0 <= i < |g.keys| ==> |g.cells[i]| == |g.cols|)
    && (forall i, j :: 0 <= i < |g.keys| && 0 <= j < |g.cols| ==>
          g.cells[i][j] == Tally(rows, d, {g.keys[i]}, {g.cols[j]}))
  }

  /** `pd.crosstab(df[d], df["satisfaction_level"])` restricted to `cols`:
      one row per distinct value of `d` that occurs, in first-appearance order. */
  function Pivot(rows: seq<Row>, d: Dimension, cols: seq<string>): (g: Grid)
    ensures g.cols == cols
    ensures Distinct(g.keys)
    ensures forall k :: k in g.keys <==> k in Column(rows, d)
    ensures g.cells == Cells(rows, d, g.keys, cols)
    ensures Tabulates(g, rows, d)
  {
    var keys := Dedup(Column(rows, d));
    Grid(keys, cols, Cells(rows, d, keys, cols))
  }

  function Sum(xs: seq<nat>): nat
  {
    if xs == [] then 0 else xs[0] + Sum(xs[1..])
  }

  function GridTotal(cells: seq<seq<nat>>): nat
  {
    if cells == [] then 0 else Sum(cells[0]) + GridTotal(cells[1..])
  }

  /** Sum of column `j` over all grid rows. */
  function ColumnTotal(cells: seq<seq<nat>>, j: nat): nat
    requires forall i :: 0 <= i < |cells| ==> j < |cells[i]|
  {
    if cells == [] then 0 else cells[0][j] + ColumnTotal(cells[1..], j)
  }

  /** A grid row sums to the number of rows with that key and one of the
      grid's labels. */
  lemma {:induction false} RowTotal(rows: seq<Row>, d: Dimension, k: string, cols: seq<string>)
    requires Distinct(cols)
    ensures Sum(CellRow(rows, d, k, cols)) == Tally(rows, d, {k}, SetOf(cols))
  {
    if cols != [] {
      RowTotal(rows, d, k, cols[1..]);
      assert SetOf(cols) == {cols[0]} + SetOf(cols[1..]);
      TallySplitLevels(rows, d, {k}, {cols[0]}, SetOf(cols[1..]));
    } else {
      TallyNothing(rows, d, {k}, SetOf(cols));
    }
  }

  /** The whole grid sums to the number of rows with one of its keys and
      one of its labels. */
  lemma {:induction false} CellsTotal(rows: seq<Row>, d: Dimension, keys: seq<string>, cols: seq<string>)
    requires Distinct(keys) && Distinct(cols)
    ensures GridTotal(Cells(rows, d, keys, cols)) == Tally(rows, d, SetOf(keys), SetOf(cols))
  {
    if keys != [] {
      var cells := Cells(rows, d, keys, cols);
      assert cells[1..] == Cells(rows, d, keys[1..], cols);
      CellsTotal(rows, d, keys[1..], cols);
      RowTotal(rows, d, keys[0], cols);
      assert SetOf(keys) == {keys[0]} + SetOf(keys[1..]);
      TallySplitKeys(rows, d, {keys[0]}, SetOf(keys[1..]), SetOf(cols));
    } else {
      TallyNothing(rows, d, SetOf(keys), SetOf(cols));
    }
  }

  /** A grid column sums to the number of rows with one of the grid's keys
      and that column's label. */
  lemma {:induction false} ColumnTotalCounts(rows: seq<Row>, d: Dimension, keys: seq<string>, cols: seq<string>, j: nat)
    requires Distinct(keys) && j < |cols|
    ensures ColumnTotal(Cells(rows, d, keys, cols), j) == Tally(rows, d, SetOf(keys), {cols[j]})
  {
    if keys != [] {
      var cells := Cells(rows, d, keys, cols);
      assert cells[1..] == Cells(rows, d, keys[1..], cols);
      ColumnTotalCounts(rows, d, keys[1..], cols, j);
      assert SetOf(keys) == {keys[0]} + SetOf(keys[1..]);
      TallySplitKeys(rows, d, {keys[0]}, SetOf(keys[1..]), {cols[j]});
    } else {
      TallyNothing(rows, d, SetOf(keys), {cols[j]});
    }
  }

  /** Cross-tab totals: row `i` sums to the rows with key `keys[i]` and a
      listed label, column `j` to all rows labelled `cols[j]`, and the whole
      grid to all rows carrying one of the listed labels. */
  lemma PivotTotals(rows: seq<Row>, d: Dimension, cols: seq<string>)
    requires Distinct(cols)
    ensures var g := Pivot(rows, d, cols);
            && (forall i :: 0 <= i < |g.keys| ==> Sum(g.cells[i]) == Tally(rows, d, {g.keys[i]}, SetOf(cols)))
            && (forall j :: 0 <= j < |cols| ==> ColumnTotal(g.cells, j) == CountLevels(rows, {cols[j]}))
            && GridTotal(g.cells) == CountLevels(rows, SetOf(cols))
  {
    PivotRowTotals(rows, d, cols);
    PivotColumnTotals(rows, d, cols);
    PivotGridTotal(rows, d, cols);
  }

  lemma PivotRowTotals(rows: seq<Row>, d: Dimension, cols: seq<string>)
    requires Distinct(cols)
    ensures var g := Pivot(rows, d, cols);
            forall i :: 0 <= i < |g.keys| ==> Sum(g.cells[i]) == Tally(rows, d, {g.keys[i]}, SetOf(cols))
  {
    var g := Pivot(rows, d, cols);
    forall i | 0 <= i < |g.keys|
      ensures Sum(g.cells[i]) == Tally(rows, d, {g.keys[i]}, SetOf(cols))
    {
      RowTotal(rows, d, g.keys[i], cols);
    }
  }

  lemma PivotColumnTotals(rows: seq<Row>, d: Dimension, cols: seq<string>)
    ensures var g := Pivot(rows, d, cols);
            forall j :: 0 <= j < |cols| ==> ColumnTotal(g.cells, j) == CountLevels(rows, {cols[j]})
  {
    var g := Pivot(rows, d, cols);
    KeysCoverRows(rows, d, g.keys);
    forall j | 0 <= j < |cols|
      ensures ColumnTotal(g.cells, j) == CountLevels(rows, {cols[j]})
    {
      ColumnTotalCounts(rows, d, g.keys, cols, j);
      TallyCovering(rows, d, SetOf(g.keys), {cols[j]});
    }
  }

  lemma PivotGridTotal(rows: seq<Row>, d: Dimension, cols: seq<string>)
    requires Distinct(cols)
    ensures GridTotal(Pivot(rows, d, cols).cells) == CountLevels(rows, SetOf(cols))
  {
    var g := Pivot(rows, d, cols);
    KeysCoverRows(rows, d, g.keys);
    CellsTotal(rows, d, g.keys, cols);
    TallyCovering(rows, d, SetOf(g.keys), SetOf(cols));
  }

  /** The housing-situation heatmap: one row per housing situation that
      occurs, each once; its columns are `OrderedColumns`; each cell counts
      the rows with that situation and label; and the cells add up to the
      number of rows whose label is one of the five. */
  function HousingCrossTab(rows: seq<Row>): (g: Grid)
    ensures g.cols == OrderedColumns(rows)
    ensures Distinct(g.keys)
    ensures forall k :: k in g.keys <==> k in Column(rows, Housing)
    ensures Tabulates(g, rows, Housing)
    ensures GridTotal(g.cells) == CountLevels(rows, SetOf(Labels))
  {
    var cols := OrderedColumns(rows);
    PivotTotals(rows, Housing, cols);
    forall r | r in rows ensures r.level in SetOf(cols) <==> r.level in SetOf(Labels) {
      var i :| 0 <= i < |rows| && rows[i] == r;
      assert LevelColumn(rows)[i] == r.level;
    }
    CountLevelsAgree(rows, SetOf(cols), SetOf(Labels));
    Pivot(rows, Housing, cols)
  }

  /** Every row carries one of the labels of its own label column. */
  lemma {:induction false} CountAllLevels(rows: seq<Row>)
    ensures CountLevels(rows, SetOf(LevelColumn(rows))) == |rows|
  {
    forall r | r in rows ensures r.level in SetOf(LevelColumn(rows)) {
      var i :| 0 <= i < |rows| && rows[i] == r;
      assert LevelColumn(rows)[i] == r.level;
    }
    CountEveryRow(rows, SetOf(LevelColumn(rows)));
  }

  /** The income-bracket table: one row per bracket that occurs and one
      column per label that occurs, each once; each cell counts the rows
      with that bracket and label, absent combinations 0, so the cells count
      every row exactly once. */
  function IncomeCrossTab(rows: seq<Row>): (g: Grid)
    ensures forall c :: c in g.cols <==> c in LevelColumn(rows)
    ensures Distinct(g.cols) && Distinct(g.keys)
    ensures forall k :: k in g.keys <==> k in Column(rows, IncomeBracket)
    ensures Tabulates(g, rows, IncomeBracket)
    ensures GridTotal(g.cells) == |rows|
  {
    var cols := Dedup(LevelColumn(rows));
    PivotTotals(rows, IncomeBracket, cols);
    assert SetOf(cols) == SetOf(LevelColumn(rows));
    CountAllLevels(rows);
    Pivot(rows, IncomeBracket, cols)
  }
}
