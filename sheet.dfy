/**
 The in-memory `table.data` a handler fetched, changed in place before it is
 written back. Each method performs the checks of its handler in the handler's
 order and then the same in-place change (`push`, `forEach` … `push`, `splice`,
 a cell assignment), and is proved to do what the matching function of `Grids`
 describes.
 */
module Engine {
  import opened Opt
  import opened Grids

  /** A refusal leaves the grid as it was; otherwise the grid is the new one. */
  predicate Reflects(o: Outcome, before: Grid, failure: Option<Failure>, after: Grid) {
    match o
    case Applied(g) => failure == None && after == g
    case Rejected(f) => failure == Some(f) && after == before
  }

  class Sheet {
    var rows: Grid

    constructor (data: Grid)
      ensures rows == data
    {
      rows := data;
    }

    /** `table.data.push(table.data[0].map(() => blank))` */
    method AddRow()
      requires |rows| > 0
      modifies this
      ensures rows == RowAdded(old(rows))
    {
      var newRow := seq(|rows[0]|, _ => Blank);
      rows := rows + [newRow];
    }

    /** `table.data.forEach(row => row.push(blank))` */
    method AddColumn()
      modifies this
      ensures rows == ColumnAdded(old(rows))
    {
      var k := 0;
      while k < |rows|
        invariant 0 <= k <= |rows| == |old(rows)|
        invariant forall m :: 0 <= m < k ==> rows[m] == old(rows)[m] + [Blank]
        invariant forall m :: k <= m < |rows| ==> rows[m] == old(rows)[m]
      {
        rows := rows[k := rows[k] + [Blank]];
        k := k + 1;
      }
    }

    method DeleteRow(i: int) returns (failure: Option<Failure>)
      modifies this
      ensures Reflects(RowDeleted(old(rows), i), old(rows), failure, rows)
    {
      if i < 0 || i >= |rows| {
        return Some(InvalidRowIndex);
      }
      if |rows| <= 2 {
        return Some(TooFewRows);
      }
      rows := rows[..i] + rows[i + 1..];
      failure := None;
    }

    /** The two checks against row 0, then `table.data.forEach(row => row.splice(j, 1))`. */
    method DeleteColumn(j: int) returns (failure: Option<Failure>)
      requires |rows| > 0
      modifies this
      ensures Reflects(ColumnDeleted(old(rows), j), old(rows), failure, rows)
    {
      if j < 0 || j >= |rows[0]| {
        return Some(InvalidColumnIndex);
      }
      if |rows[0]| <= 1 {
        return Some(TooFewColumns);
      }
      var k := 0;
      while k < |rows|
        invariant 0 <= k <= |rows| == |old(rows)|
        invariant forall m :: 0 <= m < k ==> rows[m] == Spliced(old(rows)[m], j)
        invariant forall m :: k <= m < |rows| ==> rows[m] == old(rows)[m]
      {
        rows := rows[k := Spliced(rows[k], j)];
        k := k + 1;
      }
      failure := None;
    }

    method EditCell(r: int, c: int, v: Cell) returns (failure: Option<Failure>)
      requires |rows| > 0 && Rectangular(rows)
      modifies this
      ensures Reflects(CellEdited(old(rows), r, c, v), old(rows), failure, rows)
    {
      if r < 0 || r >= |rows| || c < 0 || c >= |rows[0]| {
        return Some(InvalidCellIndex);
      }
      rows := rows[r := rows[r][c := v]];
      failure := None;
    }

    /** Runs the operation a request names. */
    method Perform(op: Op) returns (failure: Option<Failure>)
      requires WellShaped(rows)
      modifies this
      ensures Reflects(Apply(old(rows), op), old(rows), failure, rows)
    {
      match op
      case AddRow =>
        AddRow();
        failure := None;
      case AddColumn =>
        AddColumn();
        failure := None;
      case DeleteRow(i) =>
        failure := DeleteRow(i);
      case DeleteColumn(j) =>
        failure := DeleteColumn(j);
      case EditCell(r, c, v) =>
        failure := EditCell(r, c, v);
    }
  }
}
