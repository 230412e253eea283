/**
 What changing the flat array of cells does to the rows: filling a stretch, moving a stretch and storing one cell
 amount to what VtScreen says of rows.
 */
module VtGrid {
  import opened VtCells
  import opened VtScreen

  // Stretches of the array

  /** Positions i up to and including j hold the cell. */
  function Filled(d: seq<Cell>, i: int, j: int, cell: Cell): (r: seq<Cell>)
    ensures |r| == |d|
  {
    seq(|d|, k requires 0 <= k < |d| => if i <= k <= j then cell else d[k])
  }

  /** The n cells from src on, as they were, now also start at dst. */
  function Moved(d: seq<Cell>, dst: int, src: int, n: int): (r: seq<Cell>)
    requires 0 <= src && 0 <= n && src + n <= |d|
    ensures |r| == |d|
  {
    seq(|d|, k requires 0 <= k < |d| => if dst <= k < dst + n then d[src + k - dst] else d[k])
  }

  lemma FillClears(d: seq<Cell>, h: int, c: int, y1: int, x1: int, y2: int, x2: int, attrib: bv8)
    requires Shaped(d, h, c) && 0 <= x1 < c && 0 <= x2 < c
    ensures Grid(Filled(d, Loc(c, y1, x1), Loc(c, y2, x2), Blank(attrib)), h, c) ==
            Cleared(Grid(d, h, c), y1, x1, y2, x2, attrib)
  {
    hide Loc, Grid, NotAfter;
    var e := Filled(d, Loc(c, y1, x1), Loc(c, y2, x2), Blank(attrib));
    var g := Cleared(Grid(d, h, c), y1, x1, y2, x2, attrib);
    forall y, x | 0 <= y < h && 0 <= x < c ensures g[y][x] == CellAt(e, h, c, y, x) {
      GridAt(d, h, c, y, x);
      LocOrder(c, y1, x1, y, x);
      LocOrder(c, y, x, y2, x2);
    }
    GridIs(e, h, c, g);
  }

  lemma StorePuts(d: seq<Cell>, h: int, c: int, y: int, x: int, cell: Cell)
    requires Shaped(d, h, c) && 0 <= y < h && 0 <= x < c
    ensures 0 <= Loc(c, y, x) < |d|
    ensures var g := Grid(d, h, c);
      Grid(d[Loc(c, y, x) := cell], h, c) == g[y := g[y][x := cell]]
  {
    hide Loc, Grid;
    LocInside(h, c, y, x);
    var e := d[Loc(c, y, x) := cell];
    var g := Grid(d, h, c);
    var g2 := g[y := g[y][x := cell]];
    forall i, j | 0 <= i < h && 0 <= j < c ensures g2[i][j] == CellAt(e, h, c, i, j) {
      GridAt(d, h, c, i, j);
      LocOrder(c, i, j, y, x);
    }
    GridIs(e, h, c, g2);
  }

  /** The array after rows `from` up to `to` moved one row back. */
  function ShiftedUp(d: seq<Cell>, c: int, from: int, to: int, attrib: bv8): seq<Cell>
    requires 0 <= Loc(c, from, 0) <= Loc(c, to - 1, 0) && Loc(c, to - 1, 0) + c <= |d| && c > 0
  {
    var first, last := Loc(c, from, 0), Loc(c, to - 1, 0);
    Filled(Moved(d, first, first + c, last - first), last, last + c - 1, Blank(attrib))
  }

  /** The array after rows `from` up to `to` moved one row on. */
  function ShiftedDown(d: seq<Cell>, c: int, from: int, to: int, attrib: bv8): seq<Cell>
    requires 0 <= Loc(c, from, 0) <= Loc(c, to - 1, 0) && Loc(c, to - 1, 0) + c <= |d| && c > 0
  {
    var first, last := Loc(c, from, 0), Loc(c, to - 1, 0);
    Filled(Moved(d, first + c, first, last - first), first, first + c - 1, Blank(attrib))
  }

  lemma UpCell(d: seq<Cell>, h: int, c: int, from: int, to: int, attrib: bv8, y: int, x: int)
    requires Shaped(d, h, c) && 0 <= from < to <= h && 0 <= y < h && 0 <= x < c
    requires 0 <= Loc(c, from, 0) <= Loc(c, to - 1, 0) && Loc(c, to - 1, 0) + c <= |d|
    ensures 0 <= Loc(c, y, x) < |d|
    ensures ShiftedUp(d, c, from, to, attrib)[Loc(c, y, x)] ==
            if from <= y < to - 1 then Grid(d, h, c)[y + 1][x] else if y == to - 1 then Blank(attrib)
            else Grid(d, h, c)[y][x]
  {
    hide Loc, Grid;
    InBlock(h, c, from, to - 1, y, x);
    InBlock(h, c, to - 1, to, y, x);
    LocRow(c, to - 1, 0);
    GridAt(d, h, c, y, x);
    if y + 1 < h { GridAt(d, h, c, y + 1, x); }
    LocRow(c, y, x);
    LocRow(c, y + 1, x);
  }

  lemma DownCell(d: seq<Cell>, h: int, c: int, from: int, to: int, attrib: bv8, y: int, x: int)
    requires Shaped(d, h, c) && 0 <= from < to <= h && 0 <= y < h && 0 <= x < c
    requires 0 <= Loc(c, from, 0) <= Loc(c, to - 1, 0) && Loc(c, to - 1, 0) + c <= |d|
    ensures 0 <= Loc(c, y, x) < |d|
    ensures ShiftedDown(d, c, from, to, attrib)[Loc(c, y, x)] ==
            if from < y < to then Grid(d, h, c)[y - 1][x] else if y == from then Blank(attrib)
            else Grid(d, h, c)[y][x]
  {
    hide Loc, Grid;
    InBlock(h, c, from + 1, to, y, x);
    InBlock(h, c, from, from + 1, y, x);
    LocRow(c, from, 0);
    LocRow(c, to - 1, 0);
    GridAt(d, h, c, y, x);
    if y > 0 { GridAt(d, h, c, y - 1, x); }
    LocRow(c, y, x);
    LocRow(c, y - 1, x);
  }

  /** Moving the cells of all rows but the first one row back, and blanking the last row. */
  lemma MoveShiftsUp(d: seq<Cell>, h: int, c: int, from: int, to: int, attrib: bv8)
    requires Shaped(d, h, c) && 0 <= from < to <= h
    ensures 0 <= Loc(c, from, 0) <= Loc(c, to - 1, 0) == Loc(c, to, 0) - c && Loc(c, to, 0) <= |d|
    ensures Grid(ShiftedUp(d, c, from, to, attrib), h, c) == RowsUp(Grid(d, h, c), from, to, 1, c, attrib)
  {
    Bounds(h, c, from, to);
    hide Loc, Grid, RowsUp, Filled, Moved;
    var e := ShiftedUp(d, c, from, to, attrib);
    var g := Grid(d, h, c);
    var g2 := RowsUp(g, from, to, 1, c, attrib);
    forall y, x | 0 <= y < h && 0 <= x < c
      ensures |g2[y]| == c && g2[y][x] == CellAt(e, h, c, y, x)
    {
      UpAt(g, from, to, c, attrib, y);
      UpCell(d, h, c, from, to, attrib, y, x);
    }
    GridIs(e, h, c, g2);
  }

  /** Moving the cells of all rows but the last one row on, and blanking the first row. */
  lemma MoveShiftsDown(d: seq<Cell>, h: int, c: int, from: int, to: int, attrib: bv8)
    requires Shaped(d, h, c) && 0 <= from < to <= h
    ensures 0 <= Loc(c, from, 0) <= Loc(c, to - 1, 0) == Loc(c, to, 0) - c && Loc(c, to, 0) <= |d|
    ensures Grid(ShiftedDown(d, c, from, to, attrib), h, c) == RowsDown(Grid(d, h, c), from, to, 1, c, attrib)
  {
    Bounds(h, c, from, to);
    hide Loc, Grid, RowsDown, Filled, Moved;
    var e := ShiftedDown(d, c, from, to, attrib);
    var g := Grid(d, h, c);
    var g2 := RowsDown(g, from, to, 1, c, attrib);
    forall y, x | 0 <= y < h && 0 <= x < c
      ensures |g2[y]| == c && g2[y][x] == CellAt(e, h, c, y, x)
    {
      DownAt(g, from, to, c, attrib, y);
      DownCell(d, h, c, from, to, attrib, y, x);
    }
    GridIs(e, h, c, g2);
  }

  lemma Bounds(h: int, c: int, from: int, to: int)
    requires c > 0 && 0 <= from < to <= h
    ensures 0 <= Loc(c, from, 0) <= Loc(c, to - 1, 0) == Loc(c, to, 0) - c && Loc(c, to, 0) <= Loc(c, h, 0)
    ensures Loc(c, from + 1, 0) == Loc(c, from, 0) + c
  {
    LocRow(c, from, 0);
    LocRow(c, to - 1, 0);
    assert Loc(c, 0, 0) == 0;
    hide Loc;
    if from > 0 { LocGrows(c, 0, from); }
    if from < to - 1 { LocGrows(c, from, to - 1); }
    if to < h { LocGrows(c, to, h); }
  }

  lemma InBlock(h: int, c: int, from: int, to: int, y: int, x: int)
    requires 0 <= x < c && from <= to
    ensures Loc(c, from, 0) <= Loc(c, y, x) < Loc(c, to, 0) <==> from <= y < to
  {
    hide Loc;
    LocOrder(c, from, 0, y, x);
    LocOrder(c, to, 0, y, x);
  }

  lemma UpAt(g: seq<Row>, from: int, to: int, c: int, attrib: bv8, y: int)
    requires 0 <= from < to <= |g| && c > 0 && 0 <= y < |g|
    ensures RowsUp(g, from, to, 1, c, attrib)[y] ==
            if from <= y < to - 1 then g[y + 1] else if y == to - 1 then BlankRow(c, attrib) else g[y]
  {
  }

  lemma DownAt(g: seq<Row>, from: int, to: int, c: int, attrib: bv8, y: int)
    requires 0 <= from < to <= |g| && c > 0 && 0 <= y < |g|
    ensures RowsDown(g, from, to, 1, c, attrib)[y] ==
            if from < y < to then g[y - 1] else if y == from then BlankRow(c, attrib) else g[y]
  {
  }

  /** Moving the rest of a row back over n cells, and blanking what it leaves behind. */
  lemma MoveDeletes(d: seq<Cell>, h: int, c: int, y: int, x: int, n: nat, attrib: bv8)
    requires Shaped(d, h, c) && 0 <= y < h && 0 <= x < c
    ensures var k := if x + n < c then c - x - n else 0;
      && 0 <= Loc(c, y, x) && Loc(c, y, c) <= |d| && Loc(c, y, x) + c - x == Loc(c, y, c)
      && (k > 0 ==> Loc(c, y, x) + n == Loc(c, y, x + n))
      && var g := Grid(d, h, c);
      && Grid(Filled(if k > 0 then Moved(d, Loc(c, y, x), Loc(c, y, x) + n, k) else d,
                     Loc(c, y, x) + k, Loc(c, y, c) - 1, Blank(attrib)), h, c) ==
         g[y := Deleted(g[y], x, n, attrib)]
  {
    var k := if x + n < c then c - x - n else 0;
    Bounds(h, c, y, y + 1);
    LocRow(c, y, x);
    LocRow(c, y, c);
    LocRow(c, y, x + n);
    hide Loc, Grid;
    var e := Filled(if k > 0 then Moved(d, Loc(c, y, x), Loc(c, y, x) + n, k) else d,
                    Loc(c, y, x) + k, Loc(c, y, c) - 1, Blank(attrib));
    var g := Grid(d, h, c);
    var g2 := g[y := Deleted(g[y], x, n, attrib)];
    forall i, j | 0 <= i < h && 0 <= j < c ensures g2[i][j] == CellAt(e, h, c, i, j) {
      GridAt(d, h, c, i, j);
      InBlock(h, c, y, y + 1, i, j);
      LocRow(c, i, j);
      if i == y {
        DeletedAt(g[y], x, n, attrib, j);
        if x <= j < x + k { GridAt(d, h, c, i, j + n); LocRow(c, i, j + n); }
      }
    }
    GridIs(e, h, c, g2);
  }

  /** Copying cell by cell towards the front is moving them. */
  lemma {:induction false} CopiedIsMoved(d: seq<Cell>, dst: nat, src: nat, n: nat)
    requires dst <= src && src + n <= |d|
    ensures CopiedForward(d, dst, src, n) == Moved(d, dst, src, n)
  {
    if n == 0 {
      assert Moved(d, dst, src, 0) == d;
    } else {
      CopiedIsMoved(d, dst, src, n - 1);
      var e := Moved(d, dst, src, n - 1);
      assert e[src + n - 1] == d[src + n - 1];
      assert e[dst + n - 1 := e[src + n - 1]] == Moved(d, dst, src, n);
    }
  }

  lemma DeletedAt(row: Row, x: int, n: nat, attrib: bv8, j: int)
    requires 0 <= x < |row| && 0 <= j < |row|
    ensures Deleted(row, x, n, attrib)[j] ==
            if j < x then row[j] else if j + n < |row| then row[j + n] else Blank(attrib)
  {
  }
}
