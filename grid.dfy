/**
 A table's grid and the five operations that change it, as values.

 A grid is the `data` field of a table document: a list of rows, each row a
 list of cells. A cell is an object `{cellValue}`; since no operation ever
 shares a cell between two positions, a cell is modelled by its string value.
 The column count is always read from row 0, which is only sound because every
 stored grid is rectangular; `WellShaped` is that invariant together with the
 minimum shape of two rows and one column.
 */
module Grids {

  type Cell = string
  type Row = seq<Cell>
  type Grid = seq<Row>

  /** The value seeded into both cells of row 0 when a table is created. */
  const Heading: Cell := "HEADING"
  /** The value of every cell created by AddRow, AddColumn and creation's row 1. */
  const Blank: Cell := ""

  predicate Rectangular(g: Grid) {
    forall k :: 0 <= k < |g| ==> |g[k]| == |g[0]|
  }

  /** The invariant every stored grid keeps: rectangular, at least 2 rows, at least 1 column. */
  predicate WellShaped(g: Grid) {
    |g| >= 2 && Rectangular(g) && |g[0]| >= 1
  }

  /** The column count as the handlers read it: `table.data[0].length`. */
  function Width(g: Grid): nat
    requires |g| > 0
  {
    |g[0]|
  }

  /** Why a request that passed the gates is refused with 400. */
  datatype Failure =
    | InvalidRowIndex
    | TooFewRows
    | InvalidColumnIndex
    | TooFewColumns
    | InvalidCellIndex

  /** The message each refusal is sent with. */
  function Message(f: Failure): string {
    match f
    case InvalidRowIndex => "Invalid row index"
    case TooFewRows => "Cannot have less than 2 rows"
    case InvalidColumnIndex => "Invalid column index"
    case TooFewColumns => "Cannot have less than 1 column"
    case InvalidCellIndex => "Invalid cell index"
  }

  /** What an operation does to a grid: the new grid, or a refusal that leaves it as it was. */
  datatype Outcome = Applied(grid: Grid) | Rejected(failure: Failure)

  /** The grid-changing requests, with the indices and value they carry. */
  datatype Op =
    | AddRow
    | AddColumn
    | DeleteRow(rowIndex: int)
    | DeleteColumn(colIndex: int)
    | EditCell(rowIndex: int, colIndex: int, newValue: Cell)

  /** The grid every new table is stored with, whatever `data` the caller sent. */
  function Seed(): (g: Grid)
    ensures WellShaped(g) && |g| == 2 && Width(g) == 2
    ensures forall c :: 0 <= c < 2 ==> g[0][c] == Heading && g[1][c] == Blank
  {
    [[Heading, Heading], [Blank, Blank]]
  }

  function BlankRow(n: nat): (r: Row)
    ensures |r| == n && forall c :: 0 <= c < n ==> r[c] == Blank
  {
    seq(n, _ => Blank)
  }

  /** AddRow: one more row, as long as row 0 and all blank; the earlier rows are untouched. */
  function RowAdded(g: Grid): (r: Grid)
    requires |g| > 0
    ensures |r| == |g| + 1 && r[..|g|] == g
    ensures |r[|g|]| == Width(g) && forall c :: 0 <= c < Width(g) ==> r[|g|][c] == Blank
    ensures WellShaped(g) ==> WellShaped(r) && Width(r) == Width(g)
  {
    g + [BlankRow(|g[0]|)]
  }

  /** AddColumn: every row grows by one blank cell at its end; existing cells keep their positions. */
  function ColumnAdded(g: Grid): (r: Grid)
    ensures |r| == |g|
    ensures forall k :: 0 <= k < |g| ==>
      |r[k]| == |g[k]| + 1 && r[k][..|g[k]|] == g[k] && r[k][|g[k]|] == Blank
    ensures WellShaped(g) ==> WellShaped(r) && Width(r) == Width(g) + 1
  {
    seq(|g|, k requires 0 <= k < |g| => g[k] + [Blank])
  }

  /** `row.splice(j, 1)` for a non-negative j: removes the cell at j, or nothing when the row is shorter. */
  function Spliced(row: Row, j: nat): (r: Row)
    ensures j < |row| ==> |r| == |row| - 1 && r[..j] == row[..j] && r[j..] == row[j + 1..]
    ensures j >= |row| ==> r == row
  {
    if j < |row| then row[..j] + row[j + 1..] else row
  }

  /**
   DeleteRow: the index is checked first, then the minimum of two rows; otherwise
   exactly row i goes and the others keep their order.
   */
  function RowDeleted(g: Grid, i: int): (o: Outcome)
    ensures o == Rejected(InvalidRowIndex) <==> i < 0 || i >= |g|
    ensures o == Rejected(TooFewRows) <==> 0 <= i < |g| && |g| <= 2
    ensures o.Applied? <==> 0 <= i < |g| && |g| > 2
    ensures o.Applied? ==>
      && |o.grid| == |g| - 1
      && (forall k :: 0 <= k < i ==> o.grid[k] == g[k])
      && (forall k :: i <= k < |o.grid| ==> o.grid[k] == g[k + 1])
    ensures o.Applied? && WellShaped(g) ==> WellShaped(o.grid) && Width(o.grid) == Width(g)
  {
    if i < 0 || i >= |g| then Rejected(InvalidRowIndex)
    else if |g| <= 2 then Rejected(TooFewRows)
    else Applied(g[..i] + g[i + 1..])
  }

  /**
   DeleteColumn: the index is checked against row 0 first, then the minimum of one
   column; otherwise the cell at j is spliced out of every row.
   */
  function ColumnDeleted(g: Grid, j: int): (o: Outcome)
    requires |g| > 0
    ensures o == Rejected(InvalidColumnIndex) <==> j < 0 || j >= Width(g)
    ensures o == Rejected(TooFewColumns) <==> 0 <= j < Width(g) && Width(g) <= 1
    ensures o.Applied? <==> 0 <= j < Width(g) && Width(g) > 1
    ensures o.Applied? ==> |o.grid| == |g| && forall k :: 0 <= k < |g| && j < |g[k]| ==>
      |o.grid[k]| == |g[k]| - 1 && o.grid[k][..j] == g[k][..j] && o.grid[k][j..] == g[k][j + 1..]
    ensures o.Applied? ==> forall k :: 0 <= k < |g| && |g[k]| <= j ==> o.grid[k] == g[k]
    ensures o.Applied? && WellShaped(g) ==> WellShaped(o.grid) && Width(o.grid) == Width(g) - 1
  {
    if j < 0 || j >= |g[0]| then Rejected(InvalidColumnIndex)
    else if |g[0]| <= 1 then Rejected(TooFewColumns)
    else Applied(seq(|g|, k requires 0 <= k < |g| => Spliced(g[k], j)))
  }

  /** EditCell: both coordinates are checked (the column against row 0); then only that cell changes. */
  function CellEdited(g: Grid, r: int, c: int, v: Cell): (o: Outcome)
    requires |g| > 0 && Rectangular(g)
    ensures o.Rejected? <==> !(0 <= r < |g| && 0 <= c < Width(g))
    ensures o.Rejected? ==> o.failure == InvalidCellIndex
    ensures o.Applied? ==>
      && |o.grid| == |g|
      && (forall k :: 0 <= k < |g| ==> |o.grid[k]| == |g[k]|)
      && o.grid[r][c] == v
      && (forall k, l :: 0 <= k < |g| && 0 <= l < |g[k]| && (k != r || l != c) ==> o.grid[k][l] == g[k][l])
    ensures o.Applied? && WellShaped(g) ==> WellShaped(o.grid)
  {
    if r < 0 || r >= |g| || c < 0 || c >= |g[0]| then Rejected(InvalidCellIndex)
    else Applied(g[r := g[r][c := v]])
  }

  /** One request's effect on a stored grid; AddRow and AddColumn are never refused. */
  function Apply(g: Grid, op: Op): (o: Outcome)
    requires WellShaped(g)
    ensures op.AddRow? || op.AddColumn? ==> o.Applied?
    ensures o.Applied? ==> WellShaped(o.grid)
  {
    match op
    case AddRow => Applied(RowAdded(g))
    case AddColumn => Applied(ColumnAdded(g))
    case DeleteRow(i) => RowDeleted(g, i)
    case DeleteColumn(j) => ColumnDeleted(g, j)
    case EditCell(r, c, v) => CellEdited(g, r, c, v)
  }

  /** The grid after a sequence of requests, each refused one leaving the grid as it was. */
  function Replay(g: Grid, ops: seq<Op>): (r: Grid)
    requires WellShaped(g)
    ensures WellShaped(r)
    decreases |ops|
  {
    if ops == [] then g
    else
      var next := match Apply(g, ops[0]) case Applied(h) => h case Rejected(_) => g;
      Replay(next, ops[1..])
  }

  /** Deleting the row AddRow appended gives back the grid it started from. */
  lemma AddRowThenDeleteIt(g: Grid)
    requires WellShaped(g)
    ensures RowDeleted(RowAdded(g), |g|) == Applied(g)
  {
  }

  /** Deleting the column AddColumn appended gives back the grid it started from. */
  lemma AddColumnThenDeleteIt(g: Grid)
    requires WellShaped(g)
    ensures ColumnDeleted(ColumnAdded(g), Width(g)) == Applied(g)
  {
    var r := ColumnAdded(g);
    var o := ColumnDeleted(r, Width(g));
    assert o.Applied?;
    forall k | 0 <= k < |g|
      ensures o.grid[k] == g[k]
    {
      assert r[k][..|g[k]|] == g[k];
    }
  }

  /** Writing a cell's old value back undoes an edit. */
  lemma EditCellThenRestore(g: Grid, r: int, c: int, v: Cell)
    requires WellShaped(g) && 0 <= r < |g| && 0 <= c < Width(g)
    ensures CellEdited(g, r, c, v).Applied?
    ensures CellEdited(CellEdited(g, r, c, v).grid, r, c, g[r][c]) == Applied(g)
  {
    var e := CellEdited(g, r, c, v).grid;
    var back := CellEdited(e, r, c, g[r][c]).grid;
    forall k | 0 <= k < |g|
      ensures back[k] == g[k]
    {
    }
  }

  /**
   A freshly created table refuses to lose a row, but after AddRow deleting row 0
   leaves two blank rows; an edit at row 5 is refused.
   */
  lemma SeedScenarios(v: Cell)
    ensures RowDeleted(Seed(), 0) == Rejected(TooFewRows)
    ensures RowDeleted(RowAdded(Seed()), 0) == Applied([[Blank, Blank], [Blank, Blank]])
    ensures CellEdited(Seed(), 5, 0, v) == Rejected(InvalidCellIndex)
    ensures ColumnDeleted(Seed(), 2) == Rejected(InvalidColumnIndex)
  {
    var r := RowAdded(Seed());
    assert BlankRow(2) == [Blank, Blank];
    assert r[1..] == [[Blank, Blank], [Blank, Blank]];
  }
}
