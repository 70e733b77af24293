/**
 * The selection grid: the 41 x 41 cells from -20 to 20 on both axes, listed
 * row by row from the top-left cell `(-20, 20)`, and the cell-to-index map.
 */
module Grid {
  import opened Geometry

  /** Cells per side, `-20..20` inclusive. */
  const Size: int := 41
  /** The largest coordinate on either axis. */
  const Half: int := 20

  /** A cell of the grid. */
  predicate InGrid(p: Point)
  {
    -Half <= p.x <= Half && -Half <= p.y <= Half
  }

  /** Column and row indices into the grid. */
  datatype Index = Index(ix: int, iy: int)

  /** `coordToIndex` as written: offset 10, so it covers the cells `-10..10`. */
  function CoordToIndex(x: int, y: int): (r: Index)
    ensures IndexToCoord(r) == Point(x, y)
  {
    Index(x + 10, 10 - y)
  }

  /** The inverse of `CoordToIndex`. */
  function IndexToCoord(i: Index): Point
  {
    Point(i.ix - 10, 10 - i.iy)
  }

  /** `coordToIndex` is invertible: `x = ix - 10`, `y = 10 - iy`. */
  lemma CoordToIndexRoundTrip(x: int, y: int, i: Index)
    ensures IndexToCoord(CoordToIndex(x, y)) == Point(x, y)
    ensures CoordToIndex(IndexToCoord(i).x, IndexToCoord(i).y) == i
  {
  }

  /** `coordToIndex` maps the cells `-10..10` onto the indices `0..20`, origin in the middle. */
  lemma CoordToIndexRange(x: int, y: int)
    ensures var i := CoordToIndex(x, y);
      (-10 <= x <= 10 && -10 <= y <= 10) <==> (0 <= i.ix <= 20 && 0 <= i.iy <= 20)
    ensures CoordToIndex(0, 0) == Index(10, 10)
  {
  }

  /** The top-left cell of the 41 x 41 grid has no index under `coordToIndex`. */
  lemma CoordToIndexMissesCorner()
    ensures InGrid(Point(-Half, Half))
    ensures CoordToIndex(-Half, Half) == Index(-10, -10)
  {
  }

  /** The index map for the 41 x 41 grid: offset 20. */
  function GridIndex(x: int, y: int): (r: Index)
  {
    Index(x + Half, Half - y)
  }

  /** `GridIndex` maps exactly the grid's cells onto `0..40` on both axes. */
  lemma GridIndexRange(x: int, y: int)
    ensures var i := GridIndex(x, y);
      InGrid(Point(x, y)) <==> (0 <= i.ix < Size && 0 <= i.iy < Size)
    ensures GridIndex(0, 0) == Index(Half, Half)
  {
  }

  /** Position of a cell in the row-major cell list. */
  function CellIndex(p: Point): int
  {
    var i := GridIndex(p.x, p.y);
    i.iy * Size + i.ix
  }

  /** The cell at position `i` of the list: row `i / 41`, column `i % 41`. */
  function GridCell(i: int): Point
  {
    Point(i % Size - Half, Half - i / Size)
  }

  /** All cells, in the order the enumeration pushes them. */
  function AllCells(): seq<Point>
  {
    seq(Size * Size, i => GridCell(i))
  }

  /** Position `row*41 + col` holds the cell of that row and column. */
  lemma GridCellAt(row: int, col: int)
    requires 0 <= row < Size && 0 <= col < Size
    ensures GridCell(row * Size + col) == Point(col - Half, Half - row)
  {
    assert (row * Size + col) / Size == row;
    assert (row * Size + col) % Size == col;
  }

  /** Every position of the list holds a cell of the grid, and `CellIndex` finds it again. */
  lemma GridCellInGrid(i: int)
    requires 0 <= i < Size * Size
    ensures InGrid(GridCell(i)) && CellIndex(GridCell(i)) == i
  {
  }

  /** Every cell of the grid is found at position `CellIndex`. */
  lemma CellIndexInRange(p: Point)
    requires InGrid(p)
    ensures 0 <= CellIndex(p) < Size * Size && GridCell(CellIndex(p)) == p
  {
    GridCellAt(Half - p.y, p.x + Half);
  }

  /**
   * The list has 41*41 entries, starts at the top-left cell, and holds every
   * cell of the grid exactly once and nothing else.
   */
  lemma AllCellsExactlyOnce()
    ensures |AllCells()| == Size * Size
    ensures AllCells()[0] == Point(-Half, Half)
    ensures forall p :: p in AllCells() <==> InGrid(p)
    ensures Distinct(AllCells())
  {
    var cells := AllCells();
    forall p | InGrid(p) ensures p in cells {
      CellIndexInRange(p);
      assert cells[CellIndex(p)] == p;
    }
    forall p | p in cells ensures InGrid(p) {
      var i :| 0 <= i < |cells| && cells[i] == p;
      GridCellInGrid(i);
    }
    forall i, j | 0 <= i < j < |cells| ensures cells[i] != cells[j] {
      GridCellInGrid(i);
      GridCellInGrid(j);
    }
  }

  /** The cell enumeration: rows from `y = 20` down, columns from `x = -20` up. */
  method EnumerateCells() returns (cells: seq<Point>)
    ensures cells == AllCells()
  {
    cells := [];
    for row := 0 to Size
      invariant |cells| == row * Size
      invariant forall i :: 0 <= i < |cells| ==> cells[i] == GridCell(i)
    {
      var y := 20 - row;
      for col := 0 to Size
        invariant |cells| == row * Size + col
        invariant forall i :: 0 <= i < |cells| ==> cells[i] == GridCell(i)
      {
        var x := col - 20;
        GridCellAt(row, col);
        cells := cells + [Point(x, y)];
      }
    }
  }
}
