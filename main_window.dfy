/**
 * MainWindow: arranges the directory views in a grid of rows and columns.
 * Only the parts that are list and integer logic are modelled: the argument
 * checks, the growth of the view list, the grid's children and the (row,
 * column) each view is placed in. The grid's row and column definitions are
 * kept as counts, since their sizes are floating-point star lengths.
 */
module ViewGrid {
  import opened Wrappers
  import opened Numbers
  import opened Navigation

  /** A grid position: Grid.Row and Grid.Column of a view. */
  datatype Cell = Cell(row: int, column: int)

  /** ArgumentOutOfRangeException for the rows or for the columns. */
  datatype GridError = RowsOutOfRange | ColumnsOutOfRange

  /** An integer cut to 32 bits with two's-complement wrap-around, as C#'s unchecked int arithmetic does. */
  function Wrap32(x: int): (r: int)
    ensures MinInt32 <= r <= MaxInt32
    ensures (r - x) % 0x1_0000_0000 == 0
    ensures MinInt32 <= x <= MaxInt32 ==> r == x
  {
    (x - MinInt32) % 0x1_0000_0000 + MinInt32
  }

  /** The bound of the view loop: `rows * columns` in 32-bit int arithmetic. */
  function CellCount(rows: int, columns: int): (count: int)
    ensures MinInt32 <= count <= MaxInt32
    ensures MinInt32 <= rows * columns <= MaxInt32 ==> count == rows * columns
  {
    Wrap32(rows * columns)
  }

  /** The product wraps: 65536 rows of 65536 columns give a loop bound of 0, so no view is placed. */
  lemma CellCountWraps()
    ensures 65536 * 65536 > MaxInt32 && CellCount(65536, 65536) == 0
  {
  }

  /**
   * Where view i goes: row i / columns, and the column before i's place in
   * that row, the first view of each row going to the last column.
   */
  function CellOf(i: int, columns: int): (cell: Cell)
    requires i >= 0 && columns > 0
    ensures cell.row == i / columns && cell.row >= 0
    ensures 0 <= cell.column < columns
    ensures (cell.column + 1) % columns == i % columns
  {
    var column := i % columns;
    if column == 0 then
      DivModUnique(columns, columns, 1, 0);
      Cell(i / columns, columns - 1)
    else
      DivModUnique(column, columns, 0, column);
      Cell(i / columns, column - 1)
  }

  /** The view index CellOf places in a cell. */
  function IndexOf(cell: Cell, columns: int): (i: int)
    requires cell.row >= 0 && 0 <= cell.column < columns
    ensures i >= 0
  {
    if cell.column == columns - 1 then cell.row * columns else cell.row * columns + cell.column + 1
  }

  /** A cell that lies in a rows by columns grid has an index below rows * columns. */
  lemma IndexInGrid(cell: Cell, rows: int, columns: int)
    requires 0 <= cell.row < rows && 0 <= cell.column < columns
    ensures IndexOf(cell, columns) < rows * columns
  {
    assert IndexOf(cell, columns) < cell.row * columns + columns == (cell.row + 1) * columns;
    MulAtMost(cell.row + 1, rows, columns);
  }

  /** An index below rows * columns is placed in a cell of the rows by columns grid. */
  lemma CellInGrid(i: int, rows: int, columns: int)
    requires 0 <= i < rows * columns && columns > 0
    ensures CellOf(i, columns).row < rows
  {
  }

  /** Placing an index and reading the cell back gives the index. */
  lemma CellIndexRoundTrip(i: int, columns: int)
    requires i >= 0 && columns > 0
    ensures IndexOf(CellOf(i, columns), columns) == i
  {
    assert i == (i / columns) * columns + i % columns;
  }

  /** Reading a cell's index and placing it gives the cell. */
  lemma IndexCellRoundTrip(cell: Cell, columns: int)
    requires cell.row >= 0 && 0 <= cell.column < columns
    ensures CellOf(IndexOf(cell, columns), columns) == cell
  {
    var i := IndexOf(cell, columns);
    var offset := if cell.column == columns - 1 then 0 else cell.column + 1;
    assert i == cell.row * columns + offset && 0 <= offset < columns;
    DivModUnique(i, columns, cell.row, offset);
  }

  lemma DivModUnique(i: int, columns: int, q: int, r: int)
    requires columns > 0 && 0 <= r < columns && i == q * columns + r
    ensures i / columns == q && i % columns == r
  {
    var q', r' := i / columns, i % columns;
    if q' > q {
      MulAtLeast(q' - q, columns);
    } else if q' < q {
      MulAtLeast(q - q', columns);
    }
  }

  lemma MulAtLeast(x: int, c: int)
    requires x >= 1 && c > 0
    ensures x * c >= c
  {
    assert x * c == (x - 1) * c + c;
  }

  lemma MulAtMost(a: int, b: int, c: int)
    requires a <= b && c > 0
    ensures a * c <= b * c
  {
    assert b * c == a * c + (b - a) * c;
  }

  /** No two views of the grid share a cell. */
  lemma CellsDistinct(i: int, j: int, columns: int)
    requires 0 <= i && 0 <= j && columns > 0 && i != j
    ensures CellOf(i, columns) != CellOf(j, columns)
  {
    CellIndexRoundTrip(i, columns);
    CellIndexRoundTrip(j, columns);
  }

  /** Every cell of a rows by columns grid receives exactly one of the first rows * columns views. */
  lemma EveryCellFilled(cell: Cell, rows: int, columns: int)
    requires 0 <= cell.row < rows && 0 <= cell.column < columns
    ensures exists i :: 0 <= i < rows * columns && CellOf(i, columns) == cell
    ensures forall i, j :: 0 <= i < j && CellOf(i, columns) == cell ==> CellOf(j, columns) != cell
  {
    IndexInGrid(cell, rows, columns);
    IndexCellRoundTrip(cell, columns);
    forall i, j | 0 <= i < j && CellOf(i, columns) == cell
      ensures CellOf(j, columns) != cell
    {
      CellsDistinct(i, j, columns);
    }
  }

  /**
   * The placements a grid configuration leaves: when view k is in CellOf(k)
   * for every k below rows * columns, each cell of the grid holds exactly one
   * of those views, and none of them lies outside the grid.
   */
  lemma GridPlacements(placements: seq<Cell>, rows: int, columns: int)
    requires rows > 0 && columns > 0 && rows * columns <= |placements|
    requires forall k :: 0 <= k < rows * columns ==> placements[k] == CellOf(k, columns)
    ensures forall k :: 0 <= k < rows * columns ==>
      0 <= placements[k].row < rows && 0 <= placements[k].column < columns
    ensures forall j, k :: 0 <= j < k < rows * columns ==> placements[j] != placements[k]
    ensures forall cell: Cell :: 0 <= cell.row < rows && 0 <= cell.column < columns ==>
      exists k :: 0 <= k < rows * columns && placements[k] == cell
  {
    forall k | 0 <= k < rows * columns
      ensures 0 <= placements[k].row < rows
    {
      CellInGrid(k, rows, columns);
    }
    forall j, k | 0 <= j < k < rows * columns
      ensures placements[j] != placements[k]
    {
      CellsDistinct(j, k, columns);
    }
    forall cell: Cell | 0 <= cell.row < rows && 0 <= cell.column < columns
      ensures exists k :: 0 <= k < rows * columns && placements[k] == cell
    {
      var k := IndexOf(cell, columns);
      IndexInGrid(cell, rows, columns);
      IndexCellRoundTrip(cell, columns);
      assert placements[k] == cell;
    }
  }

  function Max(a: int, b: int): int {
    if a >= b then a else b
  }

  class MainWindow {
    /** _directory_views: every view created so far, in creation order. */
    var views: seq<DirectoryView>
    /** The Grid.Row and Grid.Column each view was last given, index by index with `views`. */
    var placements: seq<Cell>
    /** Grid_Views.Children. */
    var children: seq<DirectoryView>
    /** How many row and column definitions Grid_Views holds. */
    var rowDefinitions: nat
    var columnDefinitions: nat
    var rowCount: int
    var columnCount: int

    ghost predicate Valid()
      reads this
    {
      |placements| == |views|
    }

    /** The window starts with a one by one grid: one new view in the single cell. */
    constructor ()
      ensures Valid()
      ensures |views| == 1 && children == views && placements == [Cell(0, 0)]
      ensures rowDefinitions == 1 && columnDefinitions == 1
      ensures rowCount == 1 && columnCount == 1
    {
      views := [];
      placements := [];
      children := [];
      rowDefinitions := 0;
      columnDefinitions := 0;
      rowCount := 1;
      columnCount := 1;
      new;
      var _ := ConfigureViewGrid(1, 1);
    }

    /**
     * ConfigureViewGrid: fails, changing nothing, when rows or else columns
     * is not positive. Otherwise it defines `rows` rows and `columns` columns,
     * creates views until there are as many as the grid has cells (keeping
     * every existing view where it is), makes the first rows * columns views
     * the grid's children in order and places view i in CellOf(i, columns).
     * The cell count is the 32-bit product.
     */
    method ConfigureViewGrid(rows: int, columns: int) returns (outcome: Outcome<GridError>)
      requires Valid()
      requires MinInt32 <= rows <= MaxInt32 && MinInt32 <= columns <= MaxInt32
      modifies this
      ensures Valid()
      ensures outcome == (if rows <= 0 then Fail(RowsOutOfRange) else if columns <= 0 then Fail(ColumnsOutOfRange) else Pass)
      ensures outcome.Fail? ==> (views == old(views) && placements == old(placements) && children == old(children)
        && rowDefinitions == old(rowDefinitions) && columnDefinitions == old(columnDefinitions))
      ensures outcome.Pass? ==>
        var count := Max(0, CellCount(rows, columns));
        && rowDefinitions == rows && columnDefinitions == columns
        && |views| == Max(|old(views)|, count)
        && views[..|old(views)|] == old(views)
        && (forall k :: |old(views)| <= k < |views| ==> fresh(views[k]))
        && children == views[..count]
        && (forall k :: 0 <= k < count ==> placements[k] == CellOf(k, columns))
        && (forall k :: count <= k < |views| ==> placements[k] == old(placements)[k])
      ensures rowCount == old(rowCount) && columnCount == old(columnCount)
      ensures outcome.Pass? && rows * columns <= MaxInt32 ==>
        && |children| == rows * columns
        && (forall j, k :: 0 <= j < k < |children| ==> placements[j] != placements[k])
        && (forall cell: Cell :: 0 <= cell.row < rows && 0 <= cell.column < columns ==>
              exists k :: 0 <= k < |children| && placements[k] == cell)
    {
      if rows <= 0 {
        return Fail(RowsOutOfRange);
      } else if columns <= 0 {
        return Fail(ColumnsOutOfRange);
      }
      children := [];
      rowDefinitions := 0;
      columnDefinitions := 0;
      for i := 0 to rows
        modifies `rowDefinitions
        invariant rowDefinitions == i
      {
        rowDefinitions := rowDefinitions + 1;
      }
      for i := 0 to columns
        modifies `columnDefinitions
        invariant columnDefinitions == i
      {
        columnDefinitions := columnDefinitions + 1;
      }
      PlaceViews(CellCount(rows, columns), columns);
      if rows * columns <= MaxInt32 {
        GridPlacements(placements, rows, columns);
      }
      return Pass;
    }

    /**
     * The loop over the grid's cells: view i (created when missing) becomes
     * the next child and is placed in CellOf(i, columns), for i below `count`.
     */
    method PlaceViews(count: int, columns: int)
      requires Valid() && children == [] && columns > 0
      modifies `views, `placements, `children
      ensures Valid()
      ensures |views| == Max(|old(views)|, Max(0, count))
      ensures views[..|old(views)|] == old(views)
      ensures forall k :: |old(views)| <= k < |views| ==> fresh(views[k])
      ensures children == views[..Max(0, count)]
      ensures forall k :: 0 <= k < Max(0, count) ==> placements[k] == CellOf(k, columns)
      ensures forall k :: Max(0, count) <= k < |views| ==> placements[k] == old(placements)[k]
    {
      var i := 0;
      while i < count
        invariant 0 <= i <= Max(0, count)
        invariant |views| == Max(|old(views)|, i) && |placements| == |views|
        invariant views[..|old(views)|] == old(views)
        invariant forall k :: |old(views)| <= k < |views| ==> fresh(views[k])
        invariant children == views[..i]
        invariant forall k :: 0 <= k < i ==> placements[k] == CellOf(k, columns)
        invariant forall k :: i <= k < |views| ==> placements[k] == old(placements)[k]
      {
        if i >= |views| {
          var view := new DirectoryView();
          views := views + [view];
          placements := placements + [Cell(0, 0)];
        }
        children := children + [views[i]];
        var row := i / columns;
        var column := i % columns;
        column := if column == 0 then columns - 1 else column - 1;
        placements := placements[i := Cell(row, column)];
        i := i + 1;
      }
    }
  }
}
