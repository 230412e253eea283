/**
 openblt/srv/console2/vt100.c itself: a struct virtscreen with its flat array of cells, changed by every byte.
 */
module Vt100 {
  import opened VtCells
  import opened VtScreen
  import opened VtGrid
  import VtRuns

  class Virtscreen {
    const rows: int
    const columns: int
    const data: array<Cell>
    var xpos: int
    var ypos: int
    var topScroll: int
    var bottomScroll: int
    var attrib: bv8
    var oldAttrib: bv8
    var oldXpos: int
    var oldYpos: int
    var number: Int
    var elements: nat
    var reading: bool
    const element: array<Int>
    var nextCharSend: Mode

    ghost predicate Shape()
      reads this
    {
      && rows > 0 && columns > 0 && data.Length == Loc(columns, rows, 0)
      && element.Length == MAX_ANSI_ELEMENTS && elements <= MAX_ANSI_ELEMENTS
    }

    /** What the fields stand for. */
    ghost function View(): Screen
      requires Shape()
      reads this, data, element
    {
      Screen(Grid(data[..], rows, columns), columns, xpos, ypos, topScroll, bottomScroll,
             attrib, oldAttrib, oldXpos, oldYpos, true, Parser(nextCharSend, number, element[..elements], reading))
    }

    ghost predicate Valid()
      reads this, data, element
    {
      Shape() && VtScreen.Valid(View())
    }

    /** init_virtscreen; the struct is in static storage, so the cursor starts at zero. */
    constructor (rows: int, columns: int)
      requires 0 < rows < SIDE && 0 < columns < SIDE
      ensures Valid() && fresh(data) && fresh(element) && this.rows == rows && this.columns == columns
      ensures var s := View();
        && (forall y, x | 0 <= y < rows && 0 <= x < columns :: s.rows[y][x] == Blank(0x07))
        && s.x == 0 && s.y == 0 && s.top == 0 && s.bottom == rows && s.attrib == 0x07 && s.parser.mode == Plain
    {
      LocInside(rows, columns, 0, 0);
      this.rows, this.columns := rows, columns;
      data := new Cell[Loc(columns, rows, 0)](_ => Cell('\0', 0));
      element := new Int[MAX_ANSI_ELEMENTS](_ => 0);
      xpos, ypos, topScroll, bottomScroll := 0, 0, 0, rows;
      number, elements, reading := 0, 0, false;
      attrib, oldAttrib, oldXpos, oldYpos := 0x07, 0x07, 0, 0;
      nextCharSend := Plain;
      new;
      ClearRegion(0, 0, rows - 1, columns - 1, attrib);
    }

    method Fill(from: int, end: int, cell: Cell)
      requires 0 <= from && end <= data.Length
      modifies data
      ensures data[..] == Filled(old(data[..]), from, end - 1, cell)
    {
      var ch := from;
      while ch < end
        invariant from <= ch && (ch <= end || ch == from)
        invariant data[..] == Filled(old(data[..]), from, ch - 1, cell)
      {
        data[ch] := cell;
        ch := ch + 1;
      }
    }

    /** As in C, right for stretches that overlap too. */
    method Memmove(dst: int, src: int, n: int)
      requires 0 <= dst && 0 <= src && 0 <= n && dst + n <= data.Length && src + n <= data.Length
      modifies data
      ensures data[..] == Moved(old(data[..]), dst, src, n)
    {
      forall k | dst <= k < dst + n {
        data[k] := data[src + k - dst];
      }
    }

    method ClearRegion(y1: int, x1: int, y2: int, x2: int, atrb: bv8)
      requires Shape() && 0 <= y1 < rows && 0 <= y2 < rows && 0 <= x1 < columns && 0 <= x2 < columns
      modifies data
      ensures View() == old(View()).(rows := Cleared(old(View()).rows, y1, x1, y2, x2, atrb))
    {
      hide Loc, Grid, Filled;
      LocInside(rows, columns, y1, x1);
      LocInside(rows, columns, y2, x2);
      FillClears(data[..], rows, columns, y1, x1, y2, x2, atrb);
      Fill(Loc(columns, y1, x1), Loc(columns, y2, x2) + 1, Blank(atrb));
    }

    method ClearVirtscreen(mode: int)
      requires Valid()
      modifies this`xpos, this`ypos, data
      ensures Shape() && View() == Erase(old(View()), mode)
    {
      hide Grid, Cleared;
      if mode == 0 {
        ClearRegion(ypos, xpos, rows - 1, columns - 1, attrib);
      } else if mode == 1 {
        ClearRegion(0, 0, ypos, xpos, attrib);
      } else {
        ClearRegion(0, 0, rows - 1, columns - 1, attrib);
        xpos, ypos := 0, 0;
      }
    }

    method ClearToEol(mode: int)
      requires Valid()
      modifies data
      ensures Shape() && View() == EraseLine(old(View()), mode)
    {
      hide Grid, Cleared;
      if mode == 0 {
        ClearRegion(ypos, xpos, ypos, columns - 1, attrib);
      } else if mode == 1 {
        ClearRegion(ypos, 0, ypos, xpos, attrib);
      } else {
        ClearRegion(ypos, 0, ypos, columns - 1, attrib);
      }
    }

    method PositionConsole(y: int, x: int, rel: bool)
      requires Shape()
      modifies this`xpos, this`ypos
      ensures Shape()
      ensures View() ==
        Placed(old(View()), if rel then Wrap(old(ypos) + y) else y, if rel then Wrap(old(xpos) + x) else x)
    {
      hide Grid, Wrap;
      if rel {
        xpos := Wrap(xpos + x);
        ypos := Wrap(ypos + y);
      } else {
        xpos := x;
        ypos := y;
      }
      if xpos < 0 { xpos := 0; }
      if xpos >= columns { xpos := columns - 1; }
      if ypos < 0 { ypos := 0; }
      if ypos >= rows { ypos := rows - 1; }
    }

    /** Copies cell by cell; the places may overlap either way. */
    method CopyUp(dst: nat, src: nat, n: nat)
      requires dst + n <= data.Length && src + n <= data.Length
      modifies data
      ensures data[..] == CopiedForward(old(data[..]), dst, src, n)
    {
      hide CopiedForward;
      ghost var d := data[..];
      CopiedNone(d, dst, src);
      var start, next := dst, src;
      while next < src + n
        invariant src <= next <= src + n && start - dst == next - src
        invariant data[..] == CopiedForward(d, dst, src, next - src)
      {
        CopiedNext(d, dst, src, next - src);
        data[start] := data[next];
        start, next := start + 1, next + 1;
      }
    }

    /** What follows the deleted cells is copied to the cursor, and what is left of the row is blanked. */
    method DeleteCharsInLine(n: Int)
      requires Valid() && (From(View(), n) >= xpos || Reaches(View(), n))
      modifies data
      ensures Shape() && View() == Shortened(old(View()), n)
    {
      hide Loc, Grid, Deleted, Filled, CopiedForward, Flat, Wrap, Moved, Framed;
      ghost var d, from := data[..], From(View(), n);
      DeletePlaces(from);
      var start := Loc(columns, ypos, xpos);
      var end := Loc(columns, ypos, columns);
      if Wrap(xpos + n) < columns {
        var next := Loc(columns, ypos, Wrap(xpos + n));
        CopyUp(start, next, end - next);
        start := start + (end - next);
      }
      if from < xpos {
        FlatGrid(d, rows, columns);
        FillNothing(data[..], start, end, Blank(attrib));
      } else {
        MoveDeletes(d, rows, columns, ypos, xpos, from - xpos, attrib);
        if from < columns {
          CopiedIsMoved(d, Loc(columns, ypos, xpos), Loc(columns, ypos, from), columns - from);
        }
      }
      Fill(start, end, Blank(attrib));
    }

    /** Where a deletion copies from and to, and that all of it is in the array. */
    lemma DeletePlaces(from: int)
      requires Valid() && (from >= xpos || (0 <= Loc(columns, ypos, from)
               && Loc(columns, ypos, xpos) + columns - from <= Loc(columns, rows, 0)))
      ensures 0 <= Loc(columns, ypos, xpos) && Loc(columns, ypos, columns) <= data.Length
      ensures Loc(columns, ypos, xpos) + columns - xpos == Loc(columns, ypos, columns)
      ensures 0 <= Loc(columns, ypos, from) == Loc(columns, ypos, columns) - (columns - from)
      ensures from < columns ==> Loc(columns, ypos, xpos) + columns - from <= data.Length
    {
      hide Grid;
      LocInside(rows, columns, ypos, xpos);
      Bounds(rows, columns, ypos, ypos + 1);
      LocRow(columns, ypos, xpos);
      LocRow(columns, ypos, columns);
      LocRow(columns, ypos, from);
    }

    lemma CopiedNone(d: seq<Cell>, dst: nat, src: nat)
      requires dst <= |d| && src <= |d|
      ensures CopiedForward(d, dst, src, 0) == d
    {
    }

    lemma CopiedNext(d: seq<Cell>, dst: nat, src: nat, n: nat)
      requires dst + n < |d| && src + n < |d|
      ensures var e := CopiedForward(d, dst, src, n);
        CopiedForward(d, dst, src, n + 1) == e[dst + n := e[src + n]]
    {
    }

    lemma FillNothing(d: seq<Cell>, from: int, end: int, cell: Cell)
      requires from >= end
      ensures Filled(d, from, end - 1, cell) == d
    {
    }

    method ScrollVirtUpAtCursor(dir: bool)
      requires Valid()
      modifies data
      ensures Shape() && View() == if dir then Removed(old(View()), 1) else Inserted(old(View()), 1)
    {
      hide Loc, Grid, RowsUp, RowsDown, Filled, Moved;
      if topScroll <= ypos < bottomScroll {
        var begin := Loc(columns, ypos, 0);
        var end := Loc(columns, bottomScroll, 0);
        var last := end - columns;
        var next := begin + columns;
        if dir {
          MoveShiftsUp(data[..], rows, columns, ypos, bottomScroll, attrib);
          Memmove(begin, next, last - begin);
          Fill(last, end, Blank(attrib));
        } else {
          MoveShiftsDown(data[..], rows, columns, ypos, bottomScroll, attrib);
          Memmove(next, begin, last - begin);
          Fill(begin, next, Blank(attrib));
        }
      }
    }

    method ScrollVirtscreen()
      requires Shape() && Bounded(View())
      modifies data
      ensures Shape() && View() == ScrolledUp(old(View()))
    {
      hide Loc, Grid, RowsUp, Filled, Moved;
      var begin := Loc(columns, topScroll, 0);
      var end := Loc(columns, bottomScroll, 0);
      var last := end - columns;
      var next := begin + columns;
      MoveShiftsUp(data[..], rows, columns, topScroll, bottomScroll, attrib);
      Memmove(begin, next, last - begin);
      Fill(last, end, Blank(attrib));
    }

    method ChangeCharacter(ch: Byte)
      requires Valid()
      modifies data
      ensures Shape()
      ensures View() == old(var s := View(); s.(rows := s.rows[s.y := s.rows[s.y][s.x := Cell(ch, s.attrib)]]))
    {
      hide Loc, Grid;
      StorePuts(data[..], rows, columns, ypos, xpos, Cell(ch, attrib));
      data[Loc(columns, ypos, xpos)] := Cell(ch, attrib);
    }

    method StdInterpretChar(ch: Byte)
      requires Valid() && nextCharSend == Plain
      modifies this`xpos, this`ypos, this`nextCharSend, data
      ensures Shape() && View() == Step(old(View()), ch)
    {
      hide Grid, Erase, RowsUp, Framed, Cleared;
      if ch == ESC {
        nextCharSend := Mode.Escape;
        return;
      }
      if ch == FF {
        ClearVirtscreen(2);
      } else if ch == '\r' {
        xpos := 0;
      } else if ch == '\n' {
        ypos := ypos + 1;
        if ypos >= bottomScroll {
          if ypos == bottomScroll {
            ScrollVirtscreen();
          }
          ypos := ypos - 1;
        }
        xpos := 0;
      } else if ch == '\t' {
        PositionConsole(ypos, xpos + (8 - xpos % 8), false);
      } else if ch == BS {
        xpos := xpos - 1;
        if xpos < 0 {
          xpos := columns - 1;
        }
      } else if ch != '\0' {
        ChangeCharacter(ch);
        xpos := xpos + 1;
        if xpos >= columns {
          xpos := columns - 1;
        }
      }
    }

    method LineDown()
      requires Valid()
      modifies this`ypos, data
      ensures Shape() && View() == Index(old(View()))
    {
      hide Grid, RowsUp, Framed;
      ypos := ypos + 1;
      if ypos >= bottomScroll {
        ScrollVirtscreen();
        ypos := ypos - 1;
      }
    }

    method LineUp()
      requires Valid()
      modifies this`ypos, data
      ensures Shape() && View() == ReverseIndex(old(View()))
    {
      hide Grid, RowsDown, Framed;
      ypos := ypos - 1;
      if ypos < topScroll {
        ypos := ypos + 1;
        ScrollVirtUpAtCursor(false);
      }
    }

    /** The cases of std_interpret_ansi that act on the screen. */
    method Escape(ch: Byte)
      requires Valid()
      modifies this`xpos, this`ypos, this`attrib, this`oldAttrib, this`oldXpos, this`oldYpos, data
      ensures Shape() && View() == Escaped(old(View()), ch)
    {
      hide Grid, Index, ReverseIndex, Framed;
      match ch
      case '7' => oldAttrib, oldXpos, oldYpos := attrib, xpos, ypos;
      case '8' =>
        attrib := oldAttrib;
        PositionConsole(ypos, xpos, false);
      case 'E' =>
        xpos := 0;
        LineDown();
      case 'D' => LineDown();
      case 'M' => LineUp();
      case _ =>
    }

    method StdInterpretAnsi(ch: Byte)
      requires Valid() && nextCharSend == Mode.Escape
      modifies this, data
      ensures Shape() && View() == Step(old(View()), ch)
    {
      hide Grid, Escaped, Interpret, Obey, Framed;
      VtRuns.EscapedApart(View(), ch, NextParser(View().parser, ch));
      VtRuns.EscapedOther(View().(parser := NextParser(View().parser, ch)), ch);
      match ch
      case '(' => nextCharSend := Charset0;
      case ')' => nextCharSend := Charset1;
      case '[' =>
        number, elements, reading := 0, 0, false;
        nextCharSend := Control;
      case _ =>
        Escape(ch);
        if ch != ESC {
          nextCharSend := Plain;
        }
    }

    method ReadAttributes()
      requires Shape()
      modifies this`attrib
      ensures Shape() && View() == old(Coloured(View(), View().parser.elements))
    {
      hide Grid, Painted;
      if elements == 0 {
        attrib := 0x07;
      }
      var count := 0;
      while count < elements
        invariant 0 <= count <= elements
        invariant elements > 0 ==> attrib == PaintedAll(old(attrib), element[..count])
        invariant elements == 0 ==> attrib == 0x07
      {
        assert element[..count + 1][..count] == element[..count];
        attrib := Painted(attrib, element[count]);
        count := count + 1;
      }
    }

    method InsertLines(n: int, dir: bool)
      requires Valid()
      modifies data
      ensures Shape()
      ensures View() == if dir then Removed(old(View()), Times(n)) else Inserted(old(View()), Times(n))
    {
      hide Grid, Inserted, Removed, VtScreen.Valid;
      ghost var s, m := View(), Times(n);
      VtRuns.InsertOneMore(s, 0);
      VtRuns.RemoveOneMore(s, 0);
      var lines := n;
      while lines > 0
        invariant lines <= n && Valid() && (n > 0 ==> lines >= 0)
        invariant View() == if dir then Removed(s, m - Times(lines)) else Inserted(s, m - Times(lines))
      {
        VtRuns.InsertOneMore(s, m - lines);
        VtRuns.RemoveOneMore(s, m - lines);
        VtRuns.InsertOneMore(s, m - lines + 1);
        VtRuns.RemoveOneMore(s, m - lines + 1);
        ScrollVirtUpAtCursor(dir);
        lines := lines - 1;
      }
    }

    method SetScrollRegion(low: int, high: int)
      requires Shape()
      modifies this`topScroll, this`bottomScroll
      ensures Shape() && View() == old(View()).(top := Top(low), bottom := Min(high, rows))
    {
      hide Grid, Wrap;
      var first := Wrap(low - 1);
      var last := if high >= rows then rows else high;
      first := if first < 0 then 0 else first;
      topScroll := first;
      bottomScroll := last;
    }

    method ScrollRegion()
      requires Shape()
      modifies this`topScroll, this`bottomScroll
      ensures Shape() && View() == old(Region(View(), View().parser.elements))
    {
      hide Grid;
      var low: int := if elements > 0 then element[0] else 1;
      var high: int := if elements > 1 then element[1] else rows;
      if low <= high {
        SetScrollRegion(low, high);
      }
    }

    lemma WrapMinus(s: Screen, n: int)
      requires VtScreen.Valid(s)
      ensures Wrap(s.x) == s.x && Wrap(s.y) == s.y
      ensures Wrap(s.x + Wrap(-n)) == Wrap(s.x - n) && Wrap(s.y + Wrap(-n)) == Wrap(s.y - n)
    {
      hide Framed;
    }

    /** The cases of special_reading_ansi that only move the cursor. */
    method Travel(ch: Byte)
      requires Valid() && Travels(ch)
      modifies this`xpos, this`ypos
      ensures Shape()
      ensures View() == old(var s := View(); var t := Target(s, ch, s.parser.elements); Placed(s, t.0, t.1))
    {
      hide Grid, Placed, Framed, Wrap;
      WrapMinus(View(), Parameter(View().parser.elements, 0, 1));
      var n: int := if elements > 0 then element[0] else 1;
      match ch
      case 'D' => PositionConsole(0, Wrap(-n), true);
      case 'a' => PositionConsole(0, n, true);
      case 'C' => PositionConsole(0, n, true);
      case 'A' => PositionConsole(Wrap(-n), 0, true);
      case 'e' => PositionConsole(n, 0, true);
      case 'B' => PositionConsole(n, 0, true);
      case '`' => PositionConsole(ypos, if n != 0 then Wrap(n - 1) else n, false);
      case 'G' => PositionConsole(ypos, if n != 0 then Wrap(n - 1) else n, false);
      case 'E' => PositionConsole(Wrap(ypos + n), 0, false);
      case 'F' => PositionConsole(Wrap(ypos - n), 0, false);
      case 'd' => PositionConsole(if n != 0 then Wrap(n - 1) else n, xpos, false);
      case 'f' => Address();
      case 'H' => Address();
      case _ => PositionConsole(oldYpos, oldXpos, false);
    }

    /** The switch of special_reading_ansi on the final byte. */
    method Execute(ch: Byte)
      requires Valid() && !KeepsReading(ch)
      requires var n := Parameter(View().parser.elements, 0, 1);
        ch == 'P' ==> From(View(), n) >= xpos || Reaches(View(), n)
      modifies this`xpos, this`ypos, this`topScroll, this`bottomScroll, this`attrib, this`oldXpos, this`oldYpos, data
      ensures Shape() && View() == Obey(old(View()), ch, old(View().parser.elements))
    {
      hide Grid, Placed, Target, Travels, Inserted, Removed, Erase, EraseLine, Region, Shortened, Coloured;
      hide VtScreen.Valid;
      VtRuns.EditsOnly(ch);
      var n := if elements > 0 then element[0] else 1;
      var k: int := if elements > 0 then element[0] else 0;
      match ch
      case 'J' => ClearVirtscreen(k);
      case 'L' => InsertLines(n, false);
      case 'M' => InsertLines(n, true);
      case 'P' => DeleteCharsInLine(n);
      case 'K' => ClearToEol(k);
      case 's' => oldXpos, oldYpos := xpos, ypos;
      case 'r' =>
        ScrollRegion();
      case 'm' => ReadAttributes();
      case _ =>
        if Travels(ch) {
          Travel(ch);
        }
    }

    method Address()
      requires Valid()
      modifies this`xpos, this`ypos
      ensures Shape()
      ensures View() == old(var s := View(); var e := s.parser.elements;
                            Placed(s, Origin(Parameter(e, 0, 1)), Origin(Parameter(e, 1, 1))))
    {
      hide Grid, Placed, Framed;
      var row: int := if elements > 0 then element[0] else 1;
      var col: int := if elements > 1 then element[1] else 1;
      if row != 0 {
        row := Wrap(row - 1);
      }
      if col != 0 {
        col := Wrap(col - 1);
      }
      PositionConsole(row, col, false);
    }

    method SpecialReadingAnsi(ch: Byte)
      requires Valid() && nextCharSend == Control && !Strays(View(), ch)
      modifies this, data, element
      ensures Shape() && View() == Step(old(View()), ch)
    {
      hide Grid, Obey, Interpret, Escaped, Framed;
      ghost var s := View();
      if '0' <= ch <= '9' {
        number := Wrap(number * 10 + (ch as int - '0' as int));
        reading := true;
        return;
      }
      if reading || ch == ';' {
        if elements < MAX_ANSI_ELEMENTS {
          element[elements] := number;
          elements := elements + 1;
        }
        reading := false;
      }
      number := 0;
      ghost var p := View().parser;
      assert p == Closed(s.parser, ch);
      if ch == '?' || ch == ';' {
        return;
      }
      Execute(ch);
      nextCharSend := Plain;
      VtRuns.ObeyApart(s, ch, p.elements, p);
      VtRuns.ObeyApart(s, ch, p.elements, p.(mode := Plain));
    }

    /** char_to_virtscreen: whoever is next interprets the byte. */
    method CharToVirtscreen(ch: Byte)
      requires Valid() && !Strays(View(), ch)
      modifies this, data, element
      ensures Shape() && View() == Step(old(View()), ch)
      ensures Valid() <==> !old(EmptiesRegion(View().parser, rows, ch))
    {
      hide Grid, Obey, Interpret, Escaped, Framed, EmptiesRegion, Strays;
      VtRuns.StepValid(View(), ch);
      match nextCharSend
      case Plain => StdInterpretChar(ch);
      case Escape => StdInterpretAnsi(ch);
      case Control => SpecialReadingAnsi(ch);
      case Charset0 => nextCharSend := Plain;
      case Charset1 => nextCharSend := Plain;
    }

    /** vputs of openblt/srv/console2/console.c: every line feed is followed by a carriage return. */
    method Vputs(text: seq<Byte>)
      requires '\0' !in text
      requires Valid() && Harmless(View(), VtRuns.WithReturns(text))
      modifies this, data, element
      ensures Valid() && View() == Run(old(View()), VtRuns.WithReturns(text))
    {
      hide Grid, Step, Run, Harmless, EmptiesRegion, Strays, VtScreen.Valid;
      var i := 0;
      while i < |text|
        invariant 0 <= i <= |text| && Valid()
        invariant Harmless(View(), VtRuns.WithReturns(text[i..]))
        invariant Run(View(), VtRuns.WithReturns(text[i..])) == Run(old(View()), VtRuns.WithReturns(text))
      {
        var rest := VtRuns.WithReturns(text[i + 1..]);
        assert text[i..][1..] == text[i + 1..];
        if text[i] == '\n' {
          assert ['\n', '\r'] + rest == ['\n'] + (['\r'] + rest);
          VtRuns.RunNext(View(), '\n', ['\r'] + rest);
          CharToVirtscreen('\n');
          VtRuns.RunNext(View(), '\r', rest);
          CharToVirtscreen('\r');
        } else {
          VtRuns.RunNext(View(), text[i], rest);
          CharToVirtscreen(text[i]);
        }
        i := i + 1;
      }
      VtRuns.RunNone(View());
    }
  }
}
