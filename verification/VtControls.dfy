/**
 The control sequences of openblt/srv/console2/vt100.c one by one: what the bytes of each do to the cursor, the rows,
 the region and the attribute.  What a law does not name stays as it was.
 */
module VtControls {
  import opened VtCells
  import opened VtScreen
  import opened VtRuns

  /** The control sequence that ends in ch, with numbers written in decimal. */
  function Sequence(ns: seq<nat>, ch: Byte): seq<Byte> { INTRODUCER + Parameters(ns) + [ch] }

  /** The i-th number of a sequence, as an int holds it, or what stands for it when it is not there. */
  function Asked(ns: seq<nat>, i: nat, default: Int): Int { if i < |ns| then Wrap(ns[i]) else default }

  /** A place that is wanted, or the nearest there is. */
  predicate Near(wanted: int, limit: int, v: int) {
    && (0 <= wanted < limit ==> v == wanted)
    && (wanted < 0 ==> v == 0)
    && (wanted >= limit ==> v == limit - 1)
  }

  /** Only the cursor has moved, to row y and column x if they exist; ordinary text follows. */
  predicate Goes(s: Screen, t: Screen, y: int, x: int) {
    && t == s.(y := t.y, x := t.x, parser := t.parser) && t.parser.mode == Plain
    && Near(y, |s.rows|, t.y) && Near(x, s.columns, t.x)
  }

  lemma ClampNear(v: int, limit: int)
    requires limit > 0
    ensures Near(v, limit, Clamp(v, limit))
  {
  }

  lemma ClampStays(s: Screen)
    requires Valid(s)
    ensures Clamp(s.y, |s.rows|) == s.y && Clamp(s.x, s.columns) == s.x
  {
    hide Framed;
  }

  /** What a sequence does, as the specification has it. */
  lemma Obeyed(s: Screen, ns: seq<nat>, ch: Byte) returns (u: Screen, e: seq<Int>)
    requires Valid(s) && s.parser.mode == Plain && !KeepsReading(ch)
    ensures Valid(u) && u == s.(parser := u.parser) && u.parser.mode == Plain
    ensures Run(s, Sequence(ns, ch)) == Obey(u, ch, e)
    ensures forall i: nat, default: Int | i < 16 :: Parameter(e, i, default) == Asked(ns, i, default)
    ensures |e| <= 16 && (e == [] <==> ns == [])
  {
    hide Valid, Obey, Parameters, Run, Wrap;
    ControlObeyed(s, ns, ch);
    e := FirstSixteen(Wrapped(ns));
    u := s.(parser := Parser(Plain, 0, e, false));
    OtherReader(s, u.parser);
  }

  lemma OtherReader(s: Screen, p: Parser)
    requires Valid(s) && |p.elements| <= MAX_ANSI_ELEMENTS
    ensures Valid(s.(parser := p))
  {
    hide Framed;
  }

  /** A sequence that only moves the cursor brings it near its target. */
  lemma Travelled(s: Screen, u: Screen, e: seq<Int>, ch: Byte)
    requires Valid(u) && u == s.(parser := u.parser) && u.parser.mode == Plain && Travels(ch)
    ensures Goes(s, Obey(u, ch, e), Target(u, ch, e).0, Target(u, ch, e).1)
  {
    hide Target, Clamp, Framed, Near;
    SmallScreen(u);
    ClampNear(Target(u, ch, e).0, |s.rows|);
    ClampNear(Target(u, ch, e).1, s.columns);
  }

  lemma CursorUp(s: Screen, ns: seq<nat>)
    requires Valid(s) && s.parser.mode == Plain
    ensures Goes(s, Run(s, Sequence(ns, 'A')), Wrap(s.y - Asked(ns, 0, 1)), s.x)
  {
    hide Sequence, Run, Obey, Goes, Valid, Wrap;
    var u, e := Obeyed(s, ns, 'A');
    Travelled(s, u, e, 'A');
  }

  lemma CursorDown(s: Screen, ns: seq<nat>, ch: Byte)
    requires Valid(s) && s.parser.mode == Plain && ch in {'B', 'e'}
    ensures Goes(s, Run(s, Sequence(ns, ch)), Wrap(s.y + Asked(ns, 0, 1)), s.x)
  {
    hide Sequence, Run, Obey, Goes, Valid, Wrap;
    var u, e := Obeyed(s, ns, ch);
    Travelled(s, u, e, ch);
  }

  lemma CursorRight(s: Screen, ns: seq<nat>, ch: Byte)
    requires Valid(s) && s.parser.mode == Plain && ch in {'C', 'a'}
    ensures Goes(s, Run(s, Sequence(ns, ch)), s.y, Wrap(s.x + Asked(ns, 0, 1)))
  {
    hide Sequence, Run, Obey, Goes, Valid, Wrap;
    var u, e := Obeyed(s, ns, ch);
    Travelled(s, u, e, ch);
  }

  lemma CursorLeft(s: Screen, ns: seq<nat>)
    requires Valid(s) && s.parser.mode == Plain
    ensures Goes(s, Run(s, Sequence(ns, 'D')), s.y, Wrap(s.x - Asked(ns, 0, 1)))
  {
    hide Sequence, Run, Obey, Goes, Valid, Wrap;
    var u, e := Obeyed(s, ns, 'D');
    Travelled(s, u, e, 'D');
  }

  /** Down or up, and to the first column. */
  lemma LinesDown(s: Screen, ns: seq<nat>)
    requires Valid(s) && s.parser.mode == Plain
    ensures Goes(s, Run(s, Sequence(ns, 'E')), Wrap(s.y + Asked(ns, 0, 1)), 0)
  {
    hide Sequence, Run, Obey, Goes, Valid, Wrap;
    var u, e := Obeyed(s, ns, 'E');
    Travelled(s, u, e, 'E');
  }

  lemma LinesUp(s: Screen, ns: seq<nat>)
    requires Valid(s) && s.parser.mode == Plain
    ensures Goes(s, Run(s, Sequence(ns, 'F')), Wrap(s.y - Asked(ns, 0, 1)), 0)
  {
    hide Sequence, Run, Obey, Goes, Valid, Wrap;
    var u, e := Obeyed(s, ns, 'F');
    Travelled(s, u, e, 'F');
  }

  /** Only the cursor has moved; ordinary text follows. */
  predicate OnlyMoved(s: Screen, t: Screen) {
    t == s.(y := t.y, x := t.x, parser := t.parser) && t.parser.mode == Plain
  }

  /** To a column, counted from one. */
  lemma ColumnAddressed(s: Screen, ns: seq<nat>, ch: Byte)
    requires Valid(s) && s.parser.mode == Plain && ch in {'G', '`'}
    ensures var t := Run(s, Sequence(ns, ch));
            OnlyMoved(s, t) && t.y == s.y && AsAsked(Asked(ns, 0, 1), s.columns, t.x)
  {
    hide Sequence, Run, Framed, Wrap, Origin, AsAsked, Clamp;
    SmallScreen(s);
    ClampStays(s);
    var u, e := Obeyed(s, ns, ch);
    OriginAsked(Asked(ns, 0, 1), s.columns);
  }

  /** To a row, counted from one. */
  lemma RowAddressed(s: Screen, ns: seq<nat>)
    requires Valid(s) && s.parser.mode == Plain
    ensures var t := Run(s, Sequence(ns, 'd'));
            OnlyMoved(s, t) && t.x == s.x && AsAsked(Asked(ns, 0, 1), |s.rows|, t.y)
  {
    hide Sequence, Run, Framed, Wrap, Origin, AsAsked, Clamp;
    SmallScreen(s);
    ClampStays(s);
    var u, e := Obeyed(s, ns, 'd');
    OriginAsked(Asked(ns, 0, 1), |s.rows|);
  }

  /** To a row and a column; either may be left out. */
  lemma PlaceAddressed(s: Screen, ns: seq<nat>, ch: Byte)
    requires Valid(s) && s.parser.mode == Plain && ch in {'H', 'f'}
    ensures var t := Run(s, Sequence(ns, ch));
            && OnlyMoved(s, t)
            && AsAsked(Asked(ns, 0, 1), |s.rows|, t.y) && AsAsked(Asked(ns, 1, 1), s.columns, t.x)
  {
    hide Sequence, Run, Framed, Wrap, Origin, AsAsked, Clamp;
    SmallScreen(s);
    ClampStays(s);
    var u, e := Obeyed(s, ns, ch);
    OriginAsked(Asked(ns, 0, 1), |s.rows|);
    OriginAsked(Asked(ns, 1, 1), s.columns);
  }

  lemma PlaceSaved(s: Screen, ns: seq<nat>)
    requires Valid(s) && s.parser.mode == Plain
    ensures var t := Run(s, Sequence(ns, 's'));
            t == s.(oldX := s.x, oldY := s.y, parser := t.parser) && t.parser.mode == Plain
  {
    hide Sequence, Run, Valid;
    var u, e := Obeyed(s, ns, 's');
  }

  lemma PlaceRestored(s: Screen, ns: seq<nat>)
    requires Valid(s) && s.parser.mode == Plain
    ensures Goes(s, Run(s, Sequence(ns, 'u')), s.oldY, s.oldX)
  {
    hide Sequence, Run, Obey, Goes, Valid;
    var u, e := Obeyed(s, ns, 'u');
    Travelled(s, u, e, 'u');
  }

  // Erasing

  /** Only cells, and perhaps the cursor, have changed; ordinary text follows. */
  predicate OnlyCells(s: Screen, t: Screen) {
    && t == s.(rows := t.rows, y := t.y, x := t.x, parser := t.parser) && t.parser.mode == Plain
    && |t.rows| == |s.rows| && forall y | 0 <= y < |s.rows| :: |t.rows[y]| == |s.rows[y]|
  }

  /** The cells from (y1, x1) through (y2, x2), reading row by row, are spaces in the attribute; the others stay. */
  predicate Wiped(s: Screen, t: Screen, y1: int, x1: int, y2: int, x2: int) {
    && |t.rows| == |s.rows|
    && forall y, x | 0 <= y < |s.rows| && 0 <= x < |s.rows[y]| ::
         && x < |t.rows[y]|
         && t.rows[y][x] ==
              if (y > y1 || (y == y1 && x >= x1)) && (y < y2 || (y == y2 && x <= x2)) then Cell(' ', s.attrib)
              else s.rows[y][x]
  }

  lemma ClearedWipes(s: Screen, t: Screen, y1: int, x1: int, y2: int, x2: int)
    requires t.rows == Cleared(s.rows, y1, x1, y2, x2, s.attrib)
    ensures Wiped(s, t, y1, x1, y2, x2) && forall y | 0 <= y < |s.rows| :: |t.rows[y]| == |s.rows[y]|
  {
  }

  /** From the cursor on, up to the cursor, or all of the display, with the cursor sent home. */
  lemma DisplayErased(s: Screen, ns: seq<nat>)
    requires Valid(s) && s.parser.mode == Plain
    ensures var t, mode := Run(s, Sequence(ns, 'J')), Asked(ns, 0, 0);
            && OnlyCells(s, t)
            && (mode == 0 ==> Wiped(s, t, s.y, s.x, |s.rows| - 1, s.columns - 1))
            && (mode == 1 ==> Wiped(s, t, 0, 0, s.y, s.x))
            && (mode == 0 || mode == 1 ==> t.y == s.y && t.x == s.x)
            && (mode != 0 && mode != 1 ==> Wiped(s, t, 0, 0, |s.rows| - 1, s.columns - 1) && t.y == t.x == 0)
  {
    hide Sequence, Run, Framed, Cleared, Wiped;
    var u, e := Obeyed(s, ns, 'J');
    var t, mode := Run(s, Sequence(ns, 'J')), Asked(ns, 0, 0);
    if mode == 0 {
      ClearedWipes(s, t, s.y, s.x, |s.rows| - 1, s.columns - 1);
    } else if mode == 1 {
      ClearedWipes(s, t, 0, 0, s.y, s.x);
    } else {
      ClearedWipes(s, t, 0, 0, |s.rows| - 1, s.columns - 1);
    }
  }

  /** The end of the cursor's row, its beginning, or all of it. */
  lemma LineErased(s: Screen, ns: seq<nat>)
    requires Valid(s) && s.parser.mode == Plain
    ensures var t, mode := Run(s, Sequence(ns, 'K')), Asked(ns, 0, 0);
            && OnlyCells(s, t) && t.y == s.y && t.x == s.x
            && (mode == 0 ==> Wiped(s, t, s.y, s.x, s.y, s.columns - 1))
            && (mode == 1 ==> Wiped(s, t, s.y, 0, s.y, s.x))
            && (mode != 0 && mode != 1 ==> Wiped(s, t, s.y, 0, s.y, s.columns - 1))
  {
    hide Sequence, Run, Framed, Cleared, Wiped;
    var u, e := Obeyed(s, ns, 'K');
    var t, mode := Run(s, Sequence(ns, 'K')), Asked(ns, 0, 0);
    if mode == 0 {
      ClearedWipes(s, t, s.y, s.x, s.y, s.columns - 1);
    } else if mode == 1 {
      ClearedWipes(s, t, s.y, 0, s.y, s.x);
    } else {
      ClearedWipes(s, t, s.y, 0, s.y, s.columns - 1);
    }
  }

  // Whole rows

  predicate IsBlank(row: Row, columns: int, attrib: bv8) {
    |row| == columns && forall x | 0 <= x < columns :: row[x] == Cell(' ', attrib)
  }

  /** Row y of t, when rows `from` up to `to` have moved up by n, and blank rows follow them. */
  predicate RisenRow(s: Screen, t: Screen, from: int, to: int, n: int, y: int)
    requires |t.rows| == |s.rows| && 0 <= y < |s.rows| && 0 <= from && to <= |s.rows| && n >= 0
  {
    if y < from || y >= to then t.rows[y] == s.rows[y]
    else if y + n < to then t.rows[y] == s.rows[y + n]
    else IsBlank(t.rows[y], s.columns, s.attrib)
  }

  /** Row y of t, when rows `from` up to `to` have moved down by n, behind blank rows. */
  predicate SunkRow(s: Screen, t: Screen, from: int, to: int, n: int, y: int)
    requires |t.rows| == |s.rows| && 0 <= y < |s.rows| && 0 <= from && to <= |s.rows| && n >= 0
  {
    if y < from || y >= to then t.rows[y] == s.rows[y]
    else if y - n >= from then t.rows[y] == s.rows[y - n]
    else IsBlank(t.rows[y], s.columns, s.attrib)
  }

  predicate RowsRisen(s: Screen, t: Screen, from: int, to: int, n: int)
    requires 0 <= from && to <= |s.rows| && n >= 0
  {
    |t.rows| == |s.rows| && forall y | 0 <= y < |s.rows| :: RisenRow(s, t, from, to, n, y)
  }

  predicate RowsSunk(s: Screen, t: Screen, from: int, to: int, n: int)
    requires 0 <= from && to <= |s.rows| && n >= 0
  {
    |t.rows| == |s.rows| && forall y | 0 <= y < |s.rows| :: SunkRow(s, t, from, to, n, y)
  }

  lemma BlankIsBlank(columns: int, attrib: bv8)
    requires columns >= 0
    ensures IsBlank(BlankRow(columns, attrib), columns, attrib)
  {
  }

  lemma UpRises(s: Screen, t: Screen, from: int, to: int, n: nat)
    requires 0 <= from <= to <= |s.rows| && s.columns >= 0
    requires t.rows == RowsUp(s.rows, from, to, n, s.columns, s.attrib)
    ensures RowsRisen(s, t, from, to, n)
  {
    hide RowsUp, BlankRow, IsBlank;
    BlankIsBlank(s.columns, s.attrib);
    forall y | 0 <= y < |s.rows| ensures RisenRow(s, t, from, to, n, y) {
      RowsUpAt(s.rows, from, to, n, s.columns, s.attrib, y);
    }
  }

  lemma DownSinks(s: Screen, t: Screen, from: int, to: int, n: nat)
    requires 0 <= from <= to <= |s.rows| && s.columns >= 0
    requires t.rows == RowsDown(s.rows, from, to, n, s.columns, s.attrib)
    ensures RowsSunk(s, t, from, to, n)
  {
    hide RowsDown, BlankRow, IsBlank;
    BlankIsBlank(s.columns, s.attrib);
    forall y | 0 <= y < |s.rows| ensures SunkRow(s, t, from, to, n, y) {
      RowsDownAt(s.rows, from, to, n, s.columns, s.attrib, y);
    }
  }

  /** Only rows have changed; ordinary text follows. */
  predicate OnlyRows(s: Screen, t: Screen) { t == s.(rows := t.rows, parser := t.parser) && t.parser.mode == Plain }

  /** The rows from the cursor's to the end of the region sink by as many as asked, if the cursor is in the region. */
  lemma LinesInserted(s: Screen, ns: seq<nat>)
    requires Valid(s) && s.parser.mode == Plain
    ensures var t, n := Run(s, Sequence(ns, 'L')), Asked(ns, 0, 1);
            && OnlyRows(s, t)
            && (n > 0 && s.top <= s.y < s.bottom ==> RowsSunk(s, t, s.y, s.bottom, n))
            && (n <= 0 || !(s.top <= s.y < s.bottom) ==> t.rows == s.rows)
  {
    hide Sequence, Run, Framed, RowsDown, RowsSunk;
    var u, e := Obeyed(s, ns, 'L');
    var t, n := Run(s, Sequence(ns, 'L')), Asked(ns, 0, 1);
    if s.top <= s.y < s.bottom {
      if n > 0 {
        DownSinks(s, t, s.y, s.bottom, n);
      } else {
        MoveNone(s.rows, s.y, s.bottom, s.columns, s.attrib);
      }
    }
  }

  /** They rise by as many as asked. */
  lemma LinesRemoved(s: Screen, ns: seq<nat>)
    requires Valid(s) && s.parser.mode == Plain
    ensures var t, n := Run(s, Sequence(ns, 'M')), Asked(ns, 0, 1);
            && OnlyRows(s, t)
            && (n > 0 && s.top <= s.y < s.bottom ==> RowsRisen(s, t, s.y, s.bottom, n))
            && (n <= 0 || !(s.top <= s.y < s.bottom) ==> t.rows == s.rows)
  {
    hide Sequence, Run, Framed, RowsUp, RowsRisen;
    var u, e := Obeyed(s, ns, 'M');
    var t, n := Run(s, Sequence(ns, 'M')), Asked(ns, 0, 1);
    if s.top <= s.y < s.bottom {
      if n > 0 {
        UpRises(s, t, s.y, s.bottom, n);
      } else {
        MoveNone(s.rows, s.y, s.bottom, s.columns, s.attrib);
      }
    }
  }

  // Cells of the cursor's row

  /** Cell x of a row, when those from `from` on have moved left by n, and blanks follow them. */
  predicate RisenCell(row: Row, row': Row, from: int, n: int, attrib: bv8, x: int)
    requires |row'| == |row| && 0 <= x < |row| && n >= 0
  {
    row'[x] == if x < from then row[x] else if x + n < |row| then row[x + n] else Cell(' ', attrib)
  }

  /** The cells of the cursor's row from the cursor on have moved left by n; blanks follow them. */
  predicate CellsRisen(s: Screen, t: Screen, n: int)
    requires n >= 0
  {
    && |t.rows| == |s.rows| && 0 <= s.y < |s.rows| && t.rows == s.rows[s.y := t.rows[s.y]]
    && |t.rows[s.y]| == |s.rows[s.y]|
    && forall x | 0 <= x < |s.rows[s.y]| :: RisenCell(s.rows[s.y], t.rows[s.y], s.x, n, s.attrib, x)
  }

  lemma DeletedRises(s: Screen, t: Screen, n: nat)
    requires Valid(s) && t.rows == s.rows[s.y := Deleted(s.rows[s.y], s.x, n, s.attrib)]
    ensures CellsRisen(s, t, n)
  {
    hide Deleted;
    forall x | 0 <= x < |s.rows[s.y]| ensures RisenCell(s.rows[s.y], t.rows[s.y], s.x, n, s.attrib, x) {
      RowCell(s.rows[s.y], s.x, n, s.attrib, x);
    }
  }

  lemma RowCell(row: Row, x: int, n: nat, attrib: bv8, j: int)
    requires 0 <= x < |row| && 0 <= j < |row|
    ensures Deleted(row, x, n, attrib)[j] ==
            if j < x then row[j] else if j + n < |row| then row[j + n] else Cell(' ', attrib)
  {
  }

  /** As many cells as asked are deleted at the cursor, when the sum of column and count does not wrap around. */
  lemma CellsDeleted(s: Screen, ns: seq<nat>)
    requires Valid(s) && s.parser.mode == Plain && 0 <= Asked(ns, 0, 1) && s.x + Asked(ns, 0, 1) < LIMIT
    ensures var t := Run(s, Sequence(ns, 'P')); OnlyRows(s, t) && CellsRisen(s, t, Asked(ns, 0, 1))
  {
    hide Sequence, Run, Framed, Deleted, CellsRisen;
    var u, e := Obeyed(s, ns, 'P');
    DeletedRises(s, Run(s, Sequence(ns, 'P')), Asked(ns, 0, 1));
  }

  /** Cells start to end of the array are copies of those p places before them; the others are as they were. */
  predicate Repeats(d: seq<Cell>, d': seq<Cell>, start: int, end: int, p: int) {
    && |d'| == |d| && 0 <= p <= start && end <= |d|
    && (forall k | 0 <= k < |d| && !(start <= k < end) :: d'[k] == d[k])
    && forall k | start <= k < end :: d'[k] == d'[k - p]
  }

  lemma {:induction false} CopiesRepeat(d: seq<Cell>, dst: nat, src: nat, n: nat)
    requires src < dst && dst + n <= |d|
    ensures Repeats(d, CopiedForward(d, dst, src, n), dst, dst + n, dst - src)
  {
    if n > 0 {
      CopiesRepeat(d, dst, src, n - 1);
    }
  }

  lemma SmearRepeats(s: Screen, n: int)
    requires Valid(s) && From(s, n) < s.x && Reaches(s, n)
    ensures var at := Loc(s.columns, s.y, s.x);
            Repeats(Flat(s.rows), Flat(Smeared(s, n)), at, at + s.columns - From(s, n), s.x - From(s, n))
  {
    hide Wrap, CopiedForward, Flat, Grid, Loc, Repeats, From;
    var c, from := s.columns, From(s, n);
    FlatLength(s.rows, c);
    LocRow(c, s.y, s.x);
    LocRow(c, s.y, from);
    LocInside(|s.rows|, c, s.y, s.x);
    var d := CopiedForward(Flat(s.rows), Loc(c, s.y, s.x), Loc(c, s.y, from), c - from);
    FlatGrid(d, |s.rows|, c);
    CopiesRepeat(Flat(s.rows), Loc(c, s.y, s.x), Loc(c, s.y, from), c - from);
  }

  /**
   A negative count, or one that wraps around, starts to copy in front of the cursor, at the column where their sum as
   an int is, and copies over the end of the row and beyond; when all of that is in the array.
   */
  lemma CellsSmeared(s: Screen, ns: seq<nat>)
    requires Valid(s) && s.parser.mode == Plain
    requires var from := Wrap(s.x + Asked(ns, 0, 1));
             && from < s.x && 0 <= Loc(s.columns, s.y, from)
             && Loc(s.columns, s.y, s.x) + s.columns - from <= Loc(s.columns, |s.rows|, 0)
    ensures var t, from := Run(s, Sequence(ns, 'P')), Wrap(s.x + Asked(ns, 0, 1));
            && OnlyRows(s, t) && Framed(t.rows, s.columns) && |t.rows| == |s.rows|
            && var at := Loc(s.columns, s.y, s.x);
               Repeats(Flat(s.rows), Flat(t.rows), at, at + s.columns - from, s.x - from)
  {
    hide Sequence, Run, Wrap, Loc, Repeats, Flat, Smeared, Framed;
    var u, e := Obeyed(s, ns, 'P');
    SmearRepeats(u, Asked(ns, 0, 1));
  }

  /** When some of it is not, the screen tells so; what the memory there holds then is not known. */
  lemma CellsStray(s: Screen, ns: seq<nat>)
    requires Valid(s) && s.parser.mode == Plain
    requires var from := Wrap(s.x + Asked(ns, 0, 1));
             from < s.x && (Loc(s.columns, s.y, from) < 0
               || Loc(s.columns, s.y, s.x) + s.columns - from > Loc(s.columns, |s.rows|, 0))
    ensures !Run(s, Sequence(ns, 'P')).inside
  {
    hide Sequence, Run, Wrap, Loc, Framed;
    var u, e := Obeyed(s, ns, 'P');
  }

  // Region and attribute

  /**
   A region is set, unless it would end before it begins: it begins at the row asked for, counted from one, or at the
   first, and ends with the row asked for, or the last.
   */
  lemma RegionSet(s: Screen, ns: seq<nat>)
    requires Valid(s) && s.parser.mode == Plain
    ensures var t, low, high := Run(s, Sequence(ns, 'r')), Asked(ns, 0, 1), Asked(ns, 1, |s.rows|);
            && t == s.(top := t.top, bottom := t.bottom, parser := t.parser) && t.parser.mode == Plain
            && (low > high ==> t.top == s.top && t.bottom == s.bottom)
            && (low <= high ==> t.bottom == if high >= |s.rows| then |s.rows| else high)
            && (low <= high && low >= 1 ==> t.top == low - 1)
            && (low <= high && -LIMIT < low < 1 ==> t.top == 0)
            && (low <= high && low == -LIMIT ==> t.top == LIMIT - 1)
  {
    hide Sequence, Run, Framed;
    var u, e := Obeyed(s, ns, 'r');
    assert Wrap(-LIMIT - 1) == LIMIT - 1;
  }

  /** The three bits of a colour in the low half of an attribute, and in the high half. */
  const COLOURS: seq<bv8> := [0x00, 0x01, 0x02, 0x03, 0x04, 0x05, 0x06, 0x07]
  const GROUNDS: seq<bv8> := [0x00, 0x10, 0x20, 0x30, 0x40, 0x50, 0x60, 0x70]

  /** What one code makes of attribute a: bold is bit 3, blinking bit 7. */
  predicate Paints(code: int, a: bv8, b: bv8) {
    && (code == 0 || code == 27 ==> b == 0x07)
    && (code == 1 ==> b & 0x08 == 0x08 && b & 0xF7 == a & 0xF7)
    && (code == 5 ==> b & 0x80 == 0x80 && b & 0x7F == a & 0x7F)
    && (code == 7 ==> b == 0x70)
    && (code == 21 || code == 22 ==> b & 0x08 == 0 && b & 0xF7 == a & 0xF7)
    && (code == 25 ==> b & 0x80 == 0 && b & 0x7F == a & 0x7F)
    && (30 <= code <= 37 ==> b & 0x07 == COLOURS[code - 30] && b & 0xF8 == a & 0xF8)
    && (40 <= code <= 47 ==> b & 0x70 == GROUNDS[code - 40] && b & 0x8F == a & 0x8F)
    && (code !in {0, 1, 5, 7, 21, 22, 25, 27} && !(30 <= code <= 37) && !(40 <= code <= 47) ==> b == a)
  }

  lemma ColourBits(a: bv8, c: bv8)
    requires c & 0xF8 == 0
    ensures ((a & 0xF8) | c) & 0x07 == c && ((a & 0xF8) | c) & 0xF8 == a & 0xF8
    ensures ((a & 0x8F) | (c << 4)) & 0x70 == c << 4 && ((a & 0x8F) | (c << 4)) & 0x8F == a & 0x8F
  {
  }

  lemma ColourTables(k: int)
    requires 0 <= k < 8
    ensures Colour(k) == COLOURS[k] && Colour(k) << 4 == GROUNDS[k] && Colour(k) & 0xF8 == 0
  {
  }

  lemma FlagBits(a: bv8)
    ensures (a | 0x08) & 0x08 == 0x08 && (a | 0x08) & 0xF7 == a & 0xF7
    ensures (a | 0x80) & 0x80 == 0x80 && (a | 0x80) & 0x7F == a & 0x7F
    ensures (a & 0xF7) & 0x08 == 0 && (a & 0xF7) & 0xF7 == a & 0xF7
    ensures (a & 0x7F) & 0x80 == 0 && (a & 0x7F) & 0x7F == a & 0x7F
  {
  }

  lemma PaintedPaints(code: int, a: bv8)
    ensures Paints(code, a, Painted(a, code))
  {
    hide Colour;
    FlagBits(a);
    if 30 <= code <= 37 {
      ColourTables(code - 30);
      ColourBits(a, Colour(code - 30));
    } else if 40 <= code <= 47 {
      ColourTables(code - 40);
      ColourBits(a, Colour(code - 40));
    }
  }

  predicate OnlyAttribute(s: Screen, t: Screen) {
    t == s.(attrib := t.attrib, parser := t.parser) && t.parser.mode == Plain
  }

  /** With no code the attribute is the usual one. */
  lemma AttributeReset(s: Screen)
    requires Valid(s) && s.parser.mode == Plain
    ensures var t := Run(s, Sequence([], 'm')); OnlyAttribute(s, t) && t.attrib == 0x07
  {
    hide Sequence, Run, Framed, PaintedAll;
    var u, e := Obeyed(s, [], 'm');
  }

  lemma Painting(s: Screen, ns: seq<nat>)
    requires Valid(s) && s.parser.mode == Plain && ns != []
    ensures var t := Run(s, Sequence(ns, 'm'));
            OnlyAttribute(s, t) && t.attrib == PaintedAll(s.attrib, FirstSixteen(Wrapped(ns)))
  {
    hide Run, Framed, PaintedAll, Wrap;
    ControlObeyed(s, ns, 'm');
    var e := FirstSixteen(Wrapped(ns));
    OtherReader(s, Parser(Plain, 0, e, false));
  }

  /** Up to sixteen codes paint one after another. */
  lemma AttributePainted(s: Screen, ns: seq<nat>, n: nat)
    requires Valid(s) && s.parser.mode == Plain && |ns| < 16
    ensures var before := if ns == [] then s.attrib else Run(s, Sequence(ns, 'm')).attrib;
            var t := Run(s, Sequence(ns + [n], 'm'));
            OnlyAttribute(s, t) && Paints(Wrap(n), before, t.attrib)
  {
    hide Run, Valid, Painted, Paints, Wrap, Sequence;
    Painting(s, ns + [n]);
    if ns != [] {
      Painting(s, ns);
    }
    var e := Wrapped(ns);
    assert FirstSixteen(e) == e && FirstSixteen(Wrapped(ns + [n])) == Wrapped(ns + [n]) == e + [Wrap(n)];
    assert (e + [Wrap(n)])[..|e|] == e;
    PaintedPaints(Wrap(n), PaintedAll(s.attrib, e));
  }

  /** Codes after the sixteenth are not looked at. */
  lemma SixteenCodes(s: Screen, ns: seq<nat>, more: seq<nat>)
    requires Valid(s) && s.parser.mode == Plain && |ns| == 16
    ensures Run(s, Sequence(ns + more, 'm')).attrib == Run(s, Sequence(ns, 'm')).attrib
  {
    hide Run, Valid, PaintedAll, Wrap, Sequence;
    Painting(s, ns + more);
    Painting(s, ns);
    assert FirstSixteen(Wrapped(ns + more)) == FirstSixteen(Wrapped(ns));
  }

  /** All other bytes end a sequence that does nothing. */
  lemma OthersIgnored(s: Screen, ns: seq<nat>, ch: Byte)
    requires Valid(s) && s.parser.mode == Plain && !KeepsReading(ch)
    requires ch !in {'A', 'B', 'C', 'D', 'E', 'F', 'G', 'H', 'J', 'K', 'L', 'M', 'P'}
    requires ch !in {'a', 'd', 'e', 'f', 'm', 'r', 's', 'u', '`'}
    ensures var t := Run(s, Sequence(ns, ch)); t == s.(parser := t.parser) && t.parser.mode == Plain
  {
    hide Sequence, Run, Framed;
    var u, e := Obeyed(s, ns, ch);
  }

  // Single bytes

  lemma ByteRun(s: Screen, ch: Byte)
    requires Valid(s) && s.parser.mode == Plain && ch != ESC
    ensures Run(s, [ch]) == Interpret(s, ch)
  {
    hide Valid, Interpret;
    RunOne(s, ch);
    SameReader(s, ch);
  }

  lemma SameReader(s: Screen, ch: Byte)
    requires s.parser.mode == Plain && ch != ESC
    ensures s.(parser := NextParser(s.parser, ch)) == s
  {
  }

  /** To the next column that is a multiple of eight. */
  lemma Tabbed(s: Screen)
    requires Valid(s) && s.parser.mode == Plain
    ensures Goes(s, Run(s, ['\t']), s.y, s.x - s.x % 8 + 8)
  {
    hide Run, Framed, Clamp;
    SmallScreen(s);
    ByteRun(s, '\t');
    ClampNear(s.y, |s.rows|);
    ClampNear(s.x - s.x % 8 + 8, s.columns);
  }

  /** One column back, and from the first column to the last of the same row. */
  lemma BackSpaced(s: Screen)
    requires Valid(s) && s.parser.mode == Plain
    ensures var t := Run(s, [BS]);
            OnlyMoved(s, t) && t.y == s.y && t.x == (if s.x > 0 then s.x - 1 else s.columns - 1)
  {
    hide Run, Framed;
    ByteRun(s, BS);
  }

  lemma CarriageReturned(s: Screen)
    requires Valid(s) && s.parser.mode == Plain
    ensures var t := Run(s, ['\r']); OnlyMoved(s, t) && t.y == s.y && t.x == 0
  {
    hide Run, Framed;
    ByteRun(s, '\r');
  }

  /** Only the cursor has moved down a row; or the region has risen by one instead. */
  predicate WentDown(s: Screen, t: Screen, x: int, scrolls: bool)
    requires Valid(s)
  {
    && t == s.(rows := t.rows, y := t.y, x := x)
    && (s.y + 1 < s.bottom ==> t.y == s.y + 1 && t.rows == s.rows)
    && (s.y + 1 >= s.bottom ==> t.y == s.y)
    && (s.y + 1 >= s.bottom && scrolls ==> RowsRisen(s, t, s.top, s.bottom, 1))
    && (s.y + 1 >= s.bottom && !scrolls ==> t.rows == s.rows)
  }

  /** A line feed begins the next row; on the last row of the region the region rises, and below it nothing does. */
  lemma LineFed(s: Screen)
    requires Valid(s) && s.parser.mode == Plain
    ensures WentDown(s, Run(s, ['\n']), 0, s.y + 1 == s.bottom)
  {
    hide Run, Framed, RowsUp, RowsRisen;
    var t := Run(s, ['\n']);
    ByteRun(s, '\n');
    if s.y + 1 == s.bottom {
      UpRises(s, t, s.top, s.bottom, 1);
    }
  }

  lemma FormFed(s: Screen)
    requires Valid(s) && s.parser.mode == Plain
    ensures var t := Run(s, [FF]);
            OnlyCells(s, t) && Wiped(s, t, 0, 0, |s.rows| - 1, s.columns - 1) && t.y == t.x == 0
  {
    hide Run, Framed, Cleared, Wiped;
    ByteRun(s, FF);
    ClearedWipes(s, Run(s, [FF]), 0, 0, |s.rows| - 1, s.columns - 1);
  }

  lemma NothingSent(s: Screen)
    requires Valid(s) && s.parser.mode == Plain
    ensures Run(s, ['\0']) == s
  {
    hide Run, Framed;
    ByteRun(s, '\0');
  }

  // Bytes after ESC

  lemma EscapeRun(s: Screen, ch: Byte)
    requires Valid(s) && s.parser.mode == Plain && ch !in {'(', ')', '[', ESC}
    ensures Run(s, [ESC, ch]) == Escaped(s, ch)
  {
    hide Valid, Escaped, Run;
    var t := s.(parser := s.parser.(mode := Escape));
    StepValid(s, ESC);
    RunOne(s, ESC);
    RunOne(t, ch);
    RunTwice(s, [ESC], [ch]);
    assert [ESC] + [ch] == [ESC, ch];
    assert t.(parser := NextParser(t.parser, ch)) == s;
  }

  /** ESC D goes down a row, and ESC E to its beginning; at the end of the region, and below, the region rises. */
  lemma Indexed(s: Screen)
    requires Valid(s) && s.parser.mode == Plain
    ensures WentDown(s, Run(s, [ESC, 'D']), s.x, true) && WentDown(s, Run(s, [ESC, 'E']), 0, true)
  {
    hide Run, Framed, RowsUp, RowsRisen;
    EscapeRun(s, 'D');
    EscapeRun(s, 'E');
    if s.y + 1 >= s.bottom {
      UpRises(s, Run(s, [ESC, 'D']), s.top, s.bottom, 1);
      UpRises(s, Run(s, [ESC, 'E']), s.top, s.bottom, 1);
    }
  }

  /** ESC M goes up a row; at the beginning of the region the region sinks, and above it nothing does. */
  lemma ReverseIndexed(s: Screen)
    requires Valid(s) && s.parser.mode == Plain
    ensures var t := Run(s, [ESC, 'M']);
            && t == s.(rows := t.rows, y := t.y)
            && (s.y > s.top ==> t.y == s.y - 1 && t.rows == s.rows)
            && (s.y <= s.top ==> t.y == s.y)
            && (s.y == s.top ==> RowsSunk(s, t, s.top, s.bottom, 1))
            && (s.y < s.top ==> t.rows == s.rows)
  {
    hide Run, Framed, RowsDown, RowsSunk;
    EscapeRun(s, 'M');
    if s.y == s.top {
      DownSinks(s, Run(s, [ESC, 'M']), s.top, s.bottom, 1);
    }
  }

  lemma AllSaved(s: Screen)
    requires Valid(s) && s.parser.mode == Plain
    ensures Run(s, [ESC, '7']) == s.(oldAttrib := s.attrib, oldX := s.x, oldY := s.y)
  {
    hide Run, Framed;
    EscapeRun(s, '7');
  }

  /** ESC ( and ESC ) choose a character set by the byte after them, which is not looked at. */
  lemma CharsetIgnored(s: Screen, which: Byte, charset: Byte)
    requires Valid(s) && s.parser.mode == Plain && which in {'(', ')'}
    ensures Run(s, [ESC, which, charset]) == s
  {
    hide Framed, Run, Obey, Escaped, Erase, LineFeed, Put;
    var t := s.(parser := s.parser.(mode := Escape));
    var u := s.(parser := s.parser.(mode := if which == '(' then Charset0 else Charset1));
    OtherReader(s, t.parser);
    OtherReader(s, u.parser);
    EscapedOther(u, which);
    RunOne(s, ESC);
    RunOne(t, which);
    RunOne(u, charset);
    RunTwice(s, [ESC], [which]);
    RunTwice(s, [ESC, which], [charset]);
    assert [ESC] + [which] == [ESC, which] && [ESC, which] + [charset] == [ESC, which, charset];
    assert u.(parser := NextParser(u.parser, charset)) == s;
  }

  /** All other bytes after ESC do nothing, and a second ESC is as the first. */
  lemma EscapeIgnored(s: Screen, ch: Byte)
    requires Valid(s) && s.parser.mode == Plain && ch !in {'(', ')', '[', '7', '8', 'D', 'E', 'M'}
    ensures Run(s, [ESC, ch]) == if ch == ESC then Run(s, [ESC]) else s
  {
    hide Valid, Run;
    if ch == ESC {
      var t := s.(parser := s.parser.(mode := Escape));
      StepValid(s, ESC);
      RunOne(s, ESC);
      RunOne(t, ESC);
      RunTwice(s, [ESC], [ESC]);
      assert [ESC] + [ESC] == [ESC, ESC];
    } else {
      EscapeRun(s, ch);
    }
  }
}
