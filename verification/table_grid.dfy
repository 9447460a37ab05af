/** Turning one analysed table, given as a list of positioned cells, into a
    dense grid of strings: a `rowCount` by `columnCount` grid of empty
    strings, then every cell's text written at its (row, column) in list order.

    Indexing follows Python lists: an index `i` into a list of length `n` is
    accepted when `-n <= i < n`, a negative one counting from the end, and any
    other index raises. */
module TableGrid {
  import opened Outcomes

  /** One cell reported by the analysis service. */
  datatype Cell = Cell(rowIndex: int, columnIndex: int, content: string)

  /** One table reported by the analysis service. */
  datatype AnalyzedTable = AnalyzedTable(rowCount: nat, columnCount: nat, cells: seq<Cell>)

  type Grid = seq<seq<string>>

  /** `g` has `rows` rows of `cols` entries each. */
  predicate HasShape(g: Grid, rows: nat, cols: nat)
  {
    |g| == rows && forall i :: 0 <= i < |g| ==> |g[i]| == cols
  }

  /** The slot a Python index `i` selects in a list of length `n`, if any. */
  function PyIndex(i: int, n: nat): (r: Option<nat>)
    ensures r.Some? <==> -(n as int) <= i < n
    ensures r.Some? ==> r.value < n && r.value % n == i % n
    ensures 0 <= i < n ==> r == Some(i)
  {
    if 0 <= i < n then Some(i)
    else if -(n as int) <= i < 0 then Some(n + i)
    else None
  }

  /** The grid position a cell is written to, if both its indices are accepted. */
  function Slot(c: Cell, rows: nat, cols: nat): Option<(nat, nat)>
  {
    match (PyIndex(c.rowIndex, rows), PyIndex(c.columnIndex, cols))
    case (Some(i), Some(j)) => Some((i, j))
    case _ => None
  }

  /** Every cell of the list lands inside the grid. */
  predicate AllPlaced(cells: seq<Cell>, rows: nat, cols: nat)
  {
    forall k :: 0 <= k < |cells| ==> Slot(cells[k], rows, cols).Some?
  }

  /** A `rows` by `cols` grid of empty strings; no two rows are shared. */
  function Blank(rows: nat, cols: nat): (g: Grid)
    ensures HasShape(g, rows, cols)
    ensures forall i, j :: 0 <= i < rows && 0 <= j < cols ==> g[i][j] == ""
  {
    seq(rows, _ => seq(cols, _ => ""))
  }

  /** Writes one cell's text into the grid, or fails when an index is out of range. */
  function Write(g: Grid, c: Cell, rows: nat, cols: nat): (r: Option<Grid>)
    requires HasShape(g, rows, cols)
    ensures r.Some? <==> Slot(c, rows, cols).Some?
    ensures r.Some? ==> HasShape(r.value, rows, cols)
    ensures r.Some? ==> forall i, j :: 0 <= i < rows && 0 <= j < cols ==>
              r.value[i][j] == (if Slot(c, rows, cols) == Some((i, j)) then c.content else g[i][j])
  {
    match Slot(c, rows, cols)
    case None => None
    case Some((i, j)) => Some(g[i := g[i][j := c.content]])
  }

  /** Writes the cells one after the other; the first misplaced cell aborts the whole fill. */
  function Fill(g: Grid, cells: seq<Cell>, rows: nat, cols: nat): (r: Option<Grid>)
    requires HasShape(g, rows, cols)
    ensures r.Some? <==> AllPlaced(cells, rows, cols)
    ensures r.Some? ==> HasShape(r.value, rows, cols)
    decreases |cells|
  {
    if |cells| == 0 then Some(g)
    else match Write(g, cells[0], rows, cols)
      case None => None
      case Some(g') =>
        assert forall k :: 0 < k < |cells| ==> cells[1..][k - 1] == cells[k];
        Fill(g', cells[1..], rows, cols)
  }

  /** Reference definition of "last write wins": the text of the last cell in
      list order that lands on (i, j), or `dflt` when none does. */
  function LastWrite(cells: seq<Cell>, rows: nat, cols: nat, i: nat, j: nat, dflt: string): string
    decreases |cells|
  {
    if |cells| == 0 then dflt
    else if Slot(cells[|cells| - 1], rows, cols) == Some((i, j)) then cells[|cells| - 1].content
    else LastWrite(cells[..|cells| - 1], rows, cols, i, j, dflt)
  }

  /** Peeling the first cell off: it only matters as the new default. */
  lemma {:induction false} LastWriteFirst(c: Cell, rest: seq<Cell>, rows: nat, cols: nat, i: nat, j: nat, dflt: string)
    ensures LastWrite([c] + rest, rows, cols, i, j, dflt) ==
            LastWrite(rest, rows, cols, i, j, if Slot(c, rows, cols) == Some((i, j)) then c.content else dflt)
    decreases |rest|
  {
    if |rest| > 0 {
      var all := [c] + rest;
      assert all[|all| - 1] == rest[|rest| - 1];
      assert all[..|all| - 1] == [c] + rest[..|rest| - 1];
      LastWriteFirst(c, rest[..|rest| - 1], rows, cols, i, j, dflt);
    }
  }

  /** Filling a grid leaves at every position the last write aimed at it,
      or the position's earlier content when no cell names it. */
  lemma {:induction false} FillIsLastWrite(g: Grid, cells: seq<Cell>, rows: nat, cols: nat, i: nat, j: nat)
    requires HasShape(g, rows, cols)
    requires AllPlaced(cells, rows, cols)
    requires i < rows && j < cols
    ensures Fill(g, cells, rows, cols).value[i][j] == LastWrite(cells, rows, cols, i, j, g[i][j])
    decreases |cells|
  {
    if |cells| == 0 {
    } else {
      var c := cells[0];
      var g' := Write(g, c, rows, cols).value;
      assert forall k :: 0 < k < |cells| ==> cells[1..][k - 1] == cells[k];
      FillIsLastWrite(g', cells[1..], rows, cols, i, j);
      assert cells == [c] + cells[1..];
      LastWriteFirst(c, cells[1..], rows, cols, i, j, g[i][j]);
    }
  }

  /** A position that no cell names keeps the default. */
  lemma {:induction false} LastWriteUnnamed(cells: seq<Cell>, rows: nat, cols: nat, i: nat, j: nat, dflt: string)
    requires forall k :: 0 <= k < |cells| ==> Slot(cells[k], rows, cols) != Some((i, j))
    ensures LastWrite(cells, rows, cols, i, j, dflt) == dflt
    decreases |cells|
  {
    if |cells| > 0 {
      LastWriteUnnamed(cells[..|cells| - 1], rows, cols, i, j, dflt);
    }
  }

  /** A position named by cell `k` and by no later cell holds cell `k`'s text. */
  lemma {:induction false} LastWriteNamed(cells: seq<Cell>, rows: nat, cols: nat, i: nat, j: nat, dflt: string, k: nat)
    requires k < |cells|
    requires Slot(cells[k], rows, cols) == Some((i, j))
    requires forall m :: k < m < |cells| ==> Slot(cells[m], rows, cols) != Some((i, j))
    ensures LastWrite(cells, rows, cols, i, j, dflt) == cells[k].content
    decreases |cells|
  {
    if k < |cells| - 1 {
      LastWriteNamed(cells[..|cells| - 1], rows, cols, i, j, dflt, k);
    }
  }

  /** The dense grid of one analysed table, or None when a cell's index raises. */
  function TableData(t: AnalyzedTable): (r: Option<Grid>)
    ensures r.Some? <==> AllPlaced(t.cells, t.rowCount, t.columnCount)
    ensures r.Some? ==> HasShape(r.value, t.rowCount, t.columnCount)
    ensures r.Some? ==> forall i, j :: 0 <= i < t.rowCount && 0 <= j < t.columnCount ==>
              r.value[i][j] == LastWrite(t.cells, t.rowCount, t.columnCount, i, j, "")
  {
    var r := Fill(Blank(t.rowCount, t.columnCount), t.cells, t.rowCount, t.columnCount);
    if r.Some? then
      assert forall i, j :: 0 <= i < t.rowCount && 0 <= j < t.columnCount ==>
               r.value[i][j] == LastWrite(t.cells, t.rowCount, t.columnCount, i, j, "") by {
        forall i, j | 0 <= i < t.rowCount && 0 <= j < t.columnCount
          ensures r.value[i][j] == LastWrite(t.cells, t.rowCount, t.columnCount, i, j, "")
        {
          FillIsLastWrite(Blank(t.rowCount, t.columnCount), t.cells, t.rowCount, t.columnCount, i, j);
        }
      }
      r
    else r
  }

  /** In a table's grid, a position no cell names holds the empty string and a
      position named by cell `k` and no later cell holds cell `k`'s text. */
  lemma TableDataContents(t: AnalyzedTable, i: nat, j: nat)
    requires AllPlaced(t.cells, t.rowCount, t.columnCount)
    requires i < t.rowCount && j < t.columnCount
    ensures (forall k :: 0 <= k < |t.cells| ==> Slot(t.cells[k], t.rowCount, t.columnCount) != Some((i, j))) ==>
              TableData(t).value[i][j] == ""
    ensures forall k :: 0 <= k < |t.cells| && Slot(t.cells[k], t.rowCount, t.columnCount) == Some((i, j)) &&
                        (forall m :: k < m < |t.cells| ==> Slot(t.cells[m], t.rowCount, t.columnCount) != Some((i, j))) ==>
              TableData(t).value[i][j] == t.cells[k].content
  {
    if forall k :: 0 <= k < |t.cells| ==> Slot(t.cells[k], t.rowCount, t.columnCount) != Some((i, j)) {
      LastWriteUnnamed(t.cells, t.rowCount, t.columnCount, i, j, "");
    }
    forall k | 0 <= k < |t.cells| && Slot(t.cells[k], t.rowCount, t.columnCount) == Some((i, j)) &&
               (forall m :: k < m < |t.cells| ==> Slot(t.cells[m], t.rowCount, t.columnCount) != Some((i, j)))
      ensures TableData(t).value[i][j] == t.cells[k].content
    {
      LastWriteNamed(t.cells, t.rowCount, t.columnCount, i, j, "", k);
    }
  }
}
