/**
 The VT100 engine of openblt/srv/console2/vt100.c, seen as a screen of rows: what one byte does to the rows, the
 cursor, the scroll region, the attribute and the reader of control sequences.
 */
module VtScreen {

  import opened VtCells

  const ESC: Byte := '\U{1B}'
  const FF: Byte := '\U{0C}'
  const BS: Byte := '\U{08}'

  const MAX_ANSI_ELEMENTS := 16

  const LIMIT := 0x8000_0000

  type Int = n: int | -0x8000_0000 <= n < 0x8000_0000

  /** A 32-bit int: what does not fit wraps around. */
  function Wrap(n: int): (r: Int)
    ensures -LIMIT <= n < LIMIT ==> r == n
  {
    (n + 0x8000_0000) % 0x1_0000_0000 - 0x8000_0000
  }

  /** Screens are so small that steps from cell to cell do not wrap around. */
  const SIDE := 0x4000_0000

  /** Who interprets the next byte. */
  datatype Mode = Plain | Escape | Control | Charset0 | Charset1

  /** The reader of control sequences: the number being read and the parameters read so far. */
  datatype Parser = Parser(mode: Mode, number: Int, elements: seq<Int>, reading: bool)

  /** Inside tells that no cell outside the array has been read or written yet. */
  datatype Screen = Screen(rows: seq<Row>, columns: int, x: int, y: int, top: int, bottom: int, attrib: bv8,
                           oldAttrib: bv8, oldX: int, oldY: int, inside: bool, parser: Parser)

  predicate Bounded(s: Screen) {
    && Framed(s.rows, s.columns) && s.columns < SIDE && |s.rows| < SIDE
    && 0 <= s.top < s.bottom <= |s.rows|
  }

  predicate Valid(s: Screen) {
    && Bounded(s)
    && 0 <= s.x < s.columns
    && 0 <= s.y < |s.rows|
    && |s.parser.elements| <= MAX_ANSI_ELEMENTS
    && s.inside
  }

  // The reader of control sequences

  predicate IsDigit(ch: Byte) { '0' <= ch <= '9' }

  function DigitValue(ch: Byte): nat
    requires IsDigit(ch)
  {
    ch as int - '0' as int
  }

  /** The number being read, if any, joins the parameters; the seventeenth and later ones are dropped. */
  function Closed(p: Parser, ch: Byte): Parser {
    var e := if (p.reading || ch == ';') && |p.elements| < MAX_ANSI_ELEMENTS then p.elements + [p.number]
      else p.elements;
    Parser(p.mode, 0, e, false)
  }

  predicate KeepsReading(ch: Byte) { IsDigit(ch) || ch == '?' || ch == ';' }

  function NextParser(p: Parser, ch: Byte): Parser {
    match p.mode
    case Plain => if ch == ESC then p.(mode := Escape) else p
    case Escape =>
      if ch == '(' then p.(mode := Charset0)
      else if ch == ')' then p.(mode := Charset1)
      else if ch == '[' then Parser(Control, 0, [], false)
      else if ch == ESC then p
      else p.(mode := Plain)
    case Control =>
      if IsDigit(ch) then p.(number := Wrap(p.number * 10 + DigitValue(ch)), reading := true)
      else if KeepsReading(ch) then Closed(p, ch)
      else Closed(p, ch).(mode := Plain)
    case Charset0 => p.(mode := Plain)
    case Charset1 => p.(mode := Plain)
  }

  // Whole rows

  function Blank(attrib: bv8): Cell { Cell(' ', attrib) }

  function BlankRow(columns: int, attrib: bv8): (r: Row)
    requires columns >= 0
    ensures |r| == columns
  {
    seq(columns, _ => Blank(attrib))
  }

  function BlankRows(n: int, columns: int, attrib: bv8): (r: seq<Row>)
    requires n >= 0 && columns >= 0
    ensures |r| == n
  {
    seq(n, _ => BlankRow(columns, attrib))
  }

  function Min(a: int, b: int): int { if a < b then a else b }

  /** Rows `from` up to `to` move up by n (or as far as they go), and blank rows follow them. */
  function RowsUp(rows: seq<Row>, from: int, to: int, n: nat, columns: int, attrib: bv8): (r: seq<Row>)
    requires 0 <= from <= to <= |rows| && columns >= 0
    ensures |r| == |rows|
  {
    var k := Min(n, to - from);
    rows[..from] + rows[from + k..to] + BlankRows(k, columns, attrib) + rows[to..]
  }

  /** Rows `from` up to `to` move down by n (or as far as they go), behind blank rows. */
  function RowsDown(rows: seq<Row>, from: int, to: int, n: nat, columns: int, attrib: bv8): (r: seq<Row>)
    requires 0 <= from <= to <= |rows| && columns >= 0
    ensures |r| == |rows|
  {
    var k := Min(n, to - from);
    rows[..from] + BlankRows(k, columns, attrib) + rows[from..to - k] + rows[to..]
  }

  /** Everything from (y1, x1) through (y2, x2), reading row by row, is blank. */
  function Cleared(rows: seq<Row>, y1: int, x1: int, y2: int, x2: int, attrib: bv8): (r: seq<Row>)
    ensures |r| == |rows|
  {
    seq(|rows|, y requires 0 <= y < |rows| => seq(|rows[y]|, x requires 0 <= x < |rows[y]| =>
      if NotAfter(y1, x1, y, x) && NotAfter(y, x, y2, x2) then Blank(attrib) else rows[y][x]))
  }

  /** The row without the n cells from x on; what follows moves left, and blanks fill the end. */
  function Deleted(row: Row, x: int, n: nat, attrib: bv8): (r: Row)
    requires 0 <= x <= |row|
    ensures |r| == |row|
  {
    var k := Min(n, |row| - x);
    row[..x] + row[x + k..] + BlankRow(k, attrib)
  }

  // The cursor

  function Clamp(v: int, limit: int): int { if v < 0 then 0 else if v >= limit then limit - 1 else v }

  function Placed(s: Screen, y: int, x: int): Screen {
    s.(y := Clamp(y, |s.rows|), x := Clamp(x, s.columns))
  }

  function ScrolledUp(s: Screen): Screen
    requires Bounded(s)
  {
    s.(rows := RowsUp(s.rows, s.top, s.bottom, 1, s.columns, s.attrib))
  }

  /** The rows from the cursor to the end of the region move, if the cursor is in the region. */
  function Inserted(s: Screen, n: nat): Screen
    requires Valid(s)
  {
    if s.top <= s.y < s.bottom then s.(rows := RowsDown(s.rows, s.y, s.bottom, n, s.columns, s.attrib)) else s
  }

  function Removed(s: Screen, n: nat): Screen
    requires Valid(s)
  {
    if s.top <= s.y < s.bottom then s.(rows := RowsUp(s.rows, s.y, s.bottom, n, s.columns, s.attrib)) else s
  }

  /** One line down; at the last line of the region the region scrolls instead. */
  function LineFeed(s: Screen): Screen
    requires Valid(s)
  {
    if s.y + 1 < s.bottom then s.(y := s.y + 1)
    else if s.y + 1 == s.bottom then ScrolledUp(s)
    else s
  }

  /** As LineFeed, but the region scrolls for a cursor below it too. */
  function Index(s: Screen): Screen
    requires Valid(s)
  {
    if s.y + 1 < s.bottom then s.(y := s.y + 1) else ScrolledUp(s)
  }

  function ReverseIndex(s: Screen): Screen
    requires Valid(s)
  {
    if s.y - 1 >= s.top then s.(y := s.y - 1) else Inserted(s, 1)
  }

  function Put(s: Screen, ch: Byte): Screen
    requires Valid(s)
  {
    s.(rows := s.rows[s.y := s.rows[s.y][s.x := Cell(ch, s.attrib)]], x := Min(s.x + 1, s.columns - 1))
  }

  function Erase(s: Screen, mode: int): Screen
    requires Valid(s)
  {
    var h := |s.rows|;
    if mode == 0 then s.(rows := Cleared(s.rows, s.y, s.x, h - 1, s.columns - 1, s.attrib))
    else if mode == 1 then s.(rows := Cleared(s.rows, 0, 0, s.y, s.x, s.attrib))
    else s.(rows := Cleared(s.rows, 0, 0, h - 1, s.columns - 1, s.attrib), x := 0, y := 0)
  }

  function EraseLine(s: Screen, mode: int): Screen
    requires Valid(s)
  {
    if mode == 0 then s.(rows := Cleared(s.rows, s.y, s.x, s.y, s.columns - 1, s.attrib))
    else if mode == 1 then s.(rows := Cleared(s.rows, s.y, 0, s.y, s.x, s.attrib))
    else s.(rows := Cleared(s.rows, s.y, 0, s.y, s.columns - 1, s.attrib))
  }

  /**
   The n cells from src on are copied one after another to dst and the places behind it; what has been copied is
   copied again when it is met.
   */
  function {:tailrecursion false} CopiedForward(d: seq<Cell>, dst: nat, src: nat, n: nat): (r: seq<Cell>)
    requires dst + n <= |d| && src + n <= |d|
    ensures |r| == |d|
  {
    if n == 0 then d
    else
      var e := CopiedForward(d, dst, src, n - 1);
      e[dst + n - 1 := e[src + n - 1]]
  }

  /** Where the cells stand that move to the cursor when n are deleted there. */
  function From(s: Screen, n: int): int { Wrap(s.x + n) }

  /** The n cells are copied from in front of the cursor, and more than fit in the row; all of it is in the array. */
  predicate Reaches(s: Screen, n: int) {
    && 0 <= Loc(s.columns, s.y, From(s, n))
    && Loc(s.columns, s.y, s.x) + s.columns - From(s, n) <= Loc(s.columns, |s.rows|, 0)
  }

  /** The rows when they are copied from in front of the cursor. */
  function Smeared(s: Screen, n: int): (r: seq<Row>)
    requires Bounded(s) && 0 <= s.y < |s.rows| && 0 <= s.x < s.columns && From(s, n) < s.x && Reaches(s, n)
    ensures |r| == |s.rows| && Framed(r, s.columns)
  {
    var c, from := s.columns, From(s, n);
    FlatLength(s.rows, c);
    LocRow(c, s.y, s.x);
    LocRow(c, s.y, from);
    LocInside(|s.rows|, c, s.y, s.x);
    Grid(CopiedForward(Flat(s.rows), Loc(c, s.y, s.x), Loc(c, s.y, from), c - from), |s.rows|, c)
  }

  /**
   The n cells from the cursor on are deleted.  A negative n, as well as one that wraps around, copies cells from in
   front of the cursor over the end of the row.
   */
  function Shortened(s: Screen, n: int): Screen
    requires Valid(s)
  {
    if From(s, n) >= s.x then s.(rows := s.rows[s.y := Deleted(s.rows[s.y], s.x, From(s, n) - s.x, s.attrib)])
    else if Reaches(s, n) then s.(rows := Smeared(s, n))
    else s.(inside := false)
  }

  // Bytes outside control sequences

  function Interpret(s: Screen, ch: Byte): Screen
    requires Valid(s)
  {
    if ch == ESC || ch == '\0' then s
    else if ch == FF then Erase(s, 2)
    else if ch == '\r' then s.(x := 0)
    else if ch == '\n' then LineFeed(s).(x := 0)
    else if ch == '\t' then Placed(s, s.y, s.x + (8 - s.x % 8))
    else if ch == BS then s.(x := if s.x == 0 then s.columns - 1 else s.x - 1)
    else Put(s, ch)
  }

  // The byte after ESC

  function Escaped(s: Screen, ch: Byte): Screen
    requires Valid(s)
  {
    if ch == '7' then s.(oldAttrib := s.attrib, oldX := s.x, oldY := s.y)
    else if ch == '8' then s.(attrib := s.oldAttrib)
    else if ch == 'E' then Index(s.(x := 0))
    else if ch == 'D' then Index(s)
    else if ch == 'M' then ReverseIndex(s)
    else s
  }

  // Control sequences

  function Parameter(e: seq<Int>, i: nat, default: int): int { if i < |e| then e[i] else default }

  /** Rows and columns are numbered from one; zero stands for one. */
  function Origin(n: int): int { if n == 0 then 0 else Wrap(n - 1) }

  /** A loop that counts n down to zero. */
  function Times(n: int): nat { if n > 0 then n else 0 }

  function Colour(k: int): bv8
    requires 0 <= k < 8
  {
    match k
    case 0 => 0x0
    case 1 => 0x1
    case 2 => 0x2
    case 3 => 0x3
    case 4 => 0x4
    case 5 => 0x5
    case 6 => 0x6
    case _ => 0x7
  }

  function Painted(a: bv8, code: int): bv8 {
    if code == 0 || code == 27 then 0x07
    else if code == 1 then a | 0x08
    else if code == 5 then a | 0x80
    else if code == 7 then 0x70
    else if code == 21 || code == 22 then a & 0xF7
    else if code == 25 then a & 0x7F
    else if 30 <= code <= 37 then (a & 0xF8) | Colour(code - 30)
    else if 40 <= code <= 47 then (a & 0x8F) | (Colour(code - 40) << 4)
    else a
  }

  function PaintedAll(a: bv8, codes: seq<Int>): bv8
    decreases |codes|
  {
    if codes == [] then a else Painted(PaintedAll(a, codes[..|codes| - 1]), codes[|codes| - 1])
  }

  function Coloured(s: Screen, e: seq<Int>): Screen {
    s.(attrib := if e == [] then 0x07 else PaintedAll(s.attrib, e))
  }

  /** Whether a region command asks for anything at all. */
  predicate Regional(height: int, e: seq<Int>)
    requires height >= 0
  {
    Parameter(e, 0, 1) <= Parameter(e, 1, height)
  }

  /** The first row of a region that is to begin at row low, counted from one. */
  function Top(low: int): int { if Wrap(low - 1) < 0 then 0 else Wrap(low - 1) }

  function Region(s: Screen, e: seq<Int>): Screen {
    if Regional(|s.rows|, e) then
      s.(top := Top(Parameter(e, 0, 1)), bottom := Min(Parameter(e, 1, |s.rows|), |s.rows|))
    else s
  }

  /** The control sequences that only move the cursor. */
  predicate Travels(ch: Byte) {
    || ch == 'A' || ch == 'B' || ch == 'C' || ch == 'D' || ch == 'E' || ch == 'F' || ch == 'G' || ch == 'H'
    || ch == 'a' || ch == 'd' || ch == 'e' || ch == 'f' || ch == 'u' || ch == '`'
  }

  /** Row and column asked for. */
  function Target(s: Screen, ch: Byte, e: seq<Int>): (int, int)
    requires Travels(ch)
  {
    var n := Parameter(e, 0, 1);
    if ch == 'D' then (s.y, Wrap(s.x - n))
    else if ch == 'a' || ch == 'C' then (s.y, Wrap(s.x + n))
    else if ch == 'A' then (Wrap(s.y - n), s.x)
    else if ch == 'e' || ch == 'B' then (Wrap(s.y + n), s.x)
    else if ch == '`' || ch == 'G' then (s.y, Origin(n))
    else if ch == 'E' then (Wrap(s.y + n), 0)
    else if ch == 'F' then (Wrap(s.y - n), 0)
    else if ch == 'd' then (Origin(n), s.x)
    else if ch == 'f' || ch == 'H' then (Origin(n), Origin(Parameter(e, 1, 1)))
    else (s.oldY, s.oldX)
  }

  /** A control sequence that ends in ch and has parameters e. */
  function Obey(s: Screen, ch: Byte, e: seq<Int>): Screen
    requires Valid(s)
  {
    var n := Parameter(e, 0, 1);
    if Travels(ch) then Placed(s, Target(s, ch, e).0, Target(s, ch, e).1)
    else if ch == 'J' then Erase(s, Parameter(e, 0, 0))
    else if ch == 'L' then Inserted(s, Times(n))
    else if ch == 'M' then Removed(s, Times(n))
    else if ch == 'P' then Shortened(s, n)
    else if ch == 'K' then EraseLine(s, Parameter(e, 0, 0))
    else if ch == 's' then s.(oldX := s.x, oldY := s.y)
    else if ch == 'r' then Region(s, e)
    else if ch == 'm' then Coloured(s, e)
    else s
  }

  /** One byte. */
  function Step(s: Screen, ch: Byte): Screen
    requires Valid(s)
  {
    var t := s.(parser := NextParser(s.parser, ch));
    match s.parser.mode
    case Plain => Interpret(t, ch)
    case Escape => Escaped(t, ch)
    case Control => if KeepsReading(ch) then t else Obey(t, ch, t.parser.elements)
    case Charset0 => t
    case Charset1 => t
  }

  /**
   The byte completes a region command that would leave the region empty: it starts below the last row or ends above
   the first, or its first row is the least int, from which one cannot be taken.
   */
  predicate EmptiesRegion(p: Parser, height: int, ch: Byte)
    requires height >= 0
  {
    && p.mode == Control && ch == 'r'
    && var e := NextParser(p, ch).elements;
    && Regional(height, e)
    && (Parameter(e, 1, height) < 1 || Parameter(e, 0, 1) > height || Parameter(e, 0, 1) == -LIMIT)
  }

  /** The byte completes a deletion that would copy cells from or to places outside the array. */
  predicate Strays(s: Screen, ch: Byte) {
    && s.parser.mode == Control && ch == 'P'
    && var n := Parameter(NextParser(s.parser, ch).elements, 0, 1);
    && From(s, n) < s.x && !Reaches(s, n)
  }

  predicate Harms(s: Screen, ch: Byte) { EmptiesRegion(s.parser, |s.rows|, ch) || Strays(s, ch) }

  /** No byte of the text does harm where it is met. */
  predicate Harmless(s: Screen, text: seq<Byte>)
    decreases |text|
  {
    text == [] || (Valid(s) && !Harms(s, text[0]) && Harmless(Step(s, text[0]), text[1..]))
  }

  /** No region command in the text empties the region.  Only the text and the height matter, not the screen. */
  predicate RegionsFit(p: Parser, height: int, text: seq<Byte>)
    requires height >= 0
    decreases |text|
  {
    text == [] || (!EmptiesRegion(p, height, text[0]) && RegionsFit(NextParser(p, text[0]), height, text[1..]))
  }

  /** The number is read digit by digit without wrapping around, and adding the length of a row to it does not
      either. */
  predicate Tame(p: Parser, columns: int, text: seq<Byte>)
    decreases |text|
  {
    if text == [] then true
    else
      && (p.mode == Control && IsDigit(text[0]) ==> p.number * 10 + DigitValue(text[0]) + columns < LIMIT)
      && Tame(NextParser(p, text[0]), columns, text[1..])
  }

  /** Bytes one after another, up to the first that spoils the screen.  The source goes on from there. */
  function Run(s: Screen, text: seq<Byte>): Screen
    decreases |text|
  {
    if text == [] || !Valid(s) then s else Run(Step(s, text[0]), text[1..])
  }
}
