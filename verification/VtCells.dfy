/**
 The cells of a virtual screen of openblt/srv/console2/vt100.h: a flat array in which cell (y, x) is at y * columns + x,
 and the rows that the array holds one after another.
 */
module VtCells {

  type Byte = c: char | c as int < 256

  datatype Cell = Cell(ch: Byte, attrib: bv8)

  type Row = seq<Cell>

  predicate Framed(rows: seq<Row>, columns: int) {
    |rows| > 0 && columns > 0 && forall y | 0 <= y < |rows| :: |rows[y]| == columns
  }

  /** Position (y, x) is not after position (y2, x2), reading row by row. */
  predicate NotAfter(y: int, x: int, y2: int, x2: int) { y < y2 || (y == y2 && x <= x2) }

  function Loc(columns: int, y: int, x: int): int { y * columns + x }

  lemma LocRow(c: int, y: int, x: int)
    ensures Loc(c, y, x) == Loc(c, y, 0) + x
    ensures Loc(c, y + 1, 0) == Loc(c, y, 0) + c
  {
  }

  lemma {:induction false} LocGrows(c: int, y: int, y2: int)
    requires y < y2 && c >= 0
    ensures Loc(c, y, 0) + c <= Loc(c, y2, 0)
    decreases y2 - y
  {
    LocRow(c, y2 - 1, 0);
    if y + 1 < y2 {
      hide Loc;
      LocGrows(c, y, y2 - 1);
    }
  }

  /** The array holds the rows one after another. */
  lemma LocOrder(c: int, y: int, x: int, y2: int, x2: int)
    requires 0 <= x < c && 0 <= x2 < c
    ensures Loc(c, y, x) <= Loc(c, y2, x2) <==> NotAfter(y, x, y2, x2)
    ensures Loc(c, y, x) == Loc(c, y2, x2) <==> y == y2 && x == x2
  {
    hide Loc;
    LocRow(c, y, x);
    LocRow(c, y2, x2);
    if y < y2 {
      LocGrows(c, y, y2);
    } else if y2 < y {
      LocGrows(c, y2, y);
    }
  }

  lemma LocInside(h: int, c: int, y: int, x: int)
    requires 0 <= y < h && 0 <= x < c
    ensures 0 <= Loc(c, y, x) < Loc(c, h, 0)
  {
    assert Loc(c, 0, 0) == 0;
    hide Loc;
    LocRow(c, y, x);
    LocGrows(c, y, h);
    if y > 0 {
      LocGrows(c, 0, y);
    }
  }

  predicate Shaped(d: seq<Cell>, h: int, c: int) { h > 0 && c > 0 && |d| == Loc(c, h, 0) }

  function CellAt(d: seq<Cell>, h: int, c: int, y: int, x: int): Cell
    requires Shaped(d, h, c) && 0 <= y < h && 0 <= x < c
  {
    LocInside(h, c, y, x);
    d[Loc(c, y, x)]
  }

  /** The rows of the array. */
  function Grid(d: seq<Cell>, h: int, c: int): (g: seq<Row>)
    requires Shaped(d, h, c)
    ensures |g| == h && Framed(g, c)
  {
    seq(h, y requires 0 <= y < h => seq(c, x requires 0 <= x < c => CellAt(d, h, c, y, x)))
  }

  lemma GridAt(d: seq<Cell>, h: int, c: int, y: int, x: int)
    requires Shaped(d, h, c) && 0 <= y < h && 0 <= x < c
    ensures 0 <= Loc(c, y, x) < |d| && Grid(d, h, c)[y][x] == d[Loc(c, y, x)]
  {
    hide Loc;
    LocInside(h, c, y, x);
  }

  lemma GridIs(d: seq<Cell>, h: int, c: int, g: seq<Row>)
    requires Shaped(d, h, c) && |g| == h && Framed(g, c)
    requires forall y, x | 0 <= y < h && 0 <= x < c :: g[y][x] == CellAt(d, h, c, y, x)
    ensures Grid(d, h, c) == g
  {
    hide Loc, CellAt, Shaped;
    var e := Grid(d, h, c);
    forall y | 0 <= y < h ensures e[y] == g[y] {
      forall x | 0 <= x < c ensures e[y][x] == g[y][x] {
      }
    }
  }

  // From rows back to the array

  /** The rows one after another. */
  function {:tailrecursion false} Flat(rows: seq<Row>): seq<Cell> {
    if rows == [] then [] else Flat(rows[..|rows| - 1]) + rows[|rows| - 1]
  }

  lemma {:induction false} FlatLength(rows: seq<Row>, c: int)
    requires forall y | 0 <= y < |rows| :: |rows[y]| == c
    ensures |Flat(rows)| == Loc(c, |rows|, 0)
  {
    if rows == [] {
      assert Loc(c, 0, 0) == 0;
    } else {
      FlatLength(rows[..|rows| - 1], c);
      LocRow(c, |rows| - 1, 0);
    }
  }

  lemma {:induction false} FlatPrefix(d: seq<Cell>, h: int, c: int, k: nat)
    requires Shaped(d, h, c) && k <= h
    ensures 0 <= Loc(c, k, 0) <= |d| && Flat(Grid(d, h, c)[..k]) == d[..Loc(c, k, 0)]
    decreases k
  {
    var g := Grid(d, h, c);
    if k == 0 {
      assert Loc(c, 0, 0) == 0;
    } else {
      FlatPrefix(d, h, c, k - 1);
      assert g[..k][..k - 1] == g[..k - 1];
      LocRow(c, k - 1, 0);
      if k < h {
        LocGrows(c, k, h);
      }
      var i, j := Loc(c, k - 1, 0), Loc(c, k, 0);
      hide Loc, Grid;
      forall x | 0 <= x < c ensures g[k - 1][x] == d[i..j][x] {
        GridAt(d, h, c, k - 1, x);
        LocRow(c, k - 1, x);
      }
      assert g[k - 1] == d[i..j];
      assert d[..j] == d[..i] + d[i..j];
    }
  }

  /** Nothing is lost in the rows. */
  lemma FlatGrid(d: seq<Cell>, h: int, c: int)
    requires Shaped(d, h, c)
    ensures Flat(Grid(d, h, c)) == d
  {
    FlatPrefix(d, h, c, h);
    assert Grid(d, h, c)[..h] == Grid(d, h, c);
    assert d[..|d|] == d;
  }
}
