/**
 What holds of the screen over whole byte streams: it stays well formed exactly while no region command empties the
 region, scrolling moves whole rows, and control sequences do what their parameters say.
 */
module VtRuns {
  import opened VtCells
  import opened VtScreen

  // The screen stays well formed

  lemma ClearedFramed(rows: seq<Row>, columns: int, y1: int, x1: int, y2: int, x2: int, attrib: bv8)
    requires Framed(rows, columns)
    ensures Framed(Cleared(rows, y1, x1, y2, x2, attrib), columns)
  {
  }

  lemma RowsUpAt(rows: seq<Row>, from: int, to: int, n: nat, columns: int, attrib: bv8, y: int)
    requires 0 <= from <= to <= |rows| && columns >= 0 && 0 <= y < |rows|
    ensures RowsUp(rows, from, to, n, columns, attrib)[y] ==
            if y < from || y >= to then rows[y] else if y + n < to then rows[y + n] else BlankRow(columns, attrib)
  {
  }

  lemma RowsDownAt(rows: seq<Row>, from: int, to: int, n: nat, columns: int, attrib: bv8, y: int)
    requires 0 <= from <= to <= |rows| && columns >= 0 && 0 <= y < |rows|
    ensures RowsDown(rows, from, to, n, columns, attrib)[y] ==
            if y < from || y >= to then rows[y] else if y - n >= from then rows[y - n] else BlankRow(columns, attrib)
  {
  }

  lemma ShiftsFramed(rows: seq<Row>, from: int, to: int, n: nat, columns: int, attrib: bv8)
    requires Framed(rows, columns) && 0 <= from <= to <= |rows|
    ensures Framed(RowsUp(rows, from, to, n, columns, attrib), columns)
    ensures Framed(RowsDown(rows, from, to, n, columns, attrib), columns)
  {
    hide RowsUp, RowsDown;
    forall y | 0 <= y < |rows|
      ensures |RowsUp(rows, from, to, n, columns, attrib)[y]| == columns
      ensures |RowsDown(rows, from, to, n, columns, attrib)[y]| == columns
    {
      RowsUpAt(rows, from, to, n, columns, attrib, y);
      RowsDownAt(rows, from, to, n, columns, attrib, y);
    }
  }

  /** t is a well formed screen with the size and reader of s. */
  predicate Fits(s: Screen, t: Screen) {
    Valid(t) && |t.rows| == |s.rows| && t.columns == s.columns && t.parser == s.parser
  }

  lemma ScrollFits(s: Screen)
    requires Valid(s)
    ensures Fits(s, ScrolledUp(s)) && Fits(s, LineFeed(s)) && Fits(s, Index(s))
  {
    hide RowsUp, Framed;
    ShiftsFramed(s.rows, s.top, s.bottom, 1, s.columns, s.attrib);
  }

  lemma InsertFits(s: Screen, n: nat)
    requires Valid(s)
    ensures Fits(s, Inserted(s, n)) && Fits(s, Removed(s, n))
  {
    hide RowsUp, RowsDown, Framed;
    if s.y < s.bottom {
      ShiftsFramed(s.rows, s.y, s.bottom, n, s.columns, s.attrib);
    }
  }

  lemma ReverseFits(s: Screen)
    requires Valid(s)
    ensures Fits(s, ReverseIndex(s))
  {
    hide Inserted, Framed;
    InsertFits(s, 1);
  }

  lemma EraseFits(s: Screen, mode: int)
    requires Valid(s)
    ensures Fits(s, Erase(s, mode))
  {
    hide Cleared, Framed;
    var h := |s.rows|;
    ClearedFramed(s.rows, s.columns, s.y, s.x, h - 1, s.columns - 1, s.attrib);
    ClearedFramed(s.rows, s.columns, 0, 0, s.y, s.x, s.attrib);
    ClearedFramed(s.rows, s.columns, 0, 0, h - 1, s.columns - 1, s.attrib);
  }

  lemma EraseLineFits(s: Screen, mode: int)
    requires Valid(s)
    ensures Fits(s, EraseLine(s, mode))
  {
    hide Cleared, Framed;
    ClearedFramed(s.rows, s.columns, s.y, s.x, s.y, s.columns - 1, s.attrib);
    ClearedFramed(s.rows, s.columns, s.y, 0, s.y, s.x, s.attrib);
    ClearedFramed(s.rows, s.columns, s.y, 0, s.y, s.columns - 1, s.attrib);
  }

  lemma PlacedFits(s: Screen, y: int, x: int)
    requires Valid(s)
    ensures Fits(s, Placed(s, y, x))
  {
    hide Framed;
  }

  lemma CursorRowFits(s: Screen, row: Row)
    requires Valid(s) && |row| == s.columns
    ensures Fits(s, s.(rows := s.rows[s.y := row]))
  {
  }

  lemma SettingsFit(s: Screen, attrib: bv8, oldAttrib: bv8, oldX: int, oldY: int)
    requires Valid(s)
    ensures Fits(s, s.(attrib := attrib, oldAttrib := oldAttrib, oldX := oldX, oldY := oldY))
  {
    hide Framed;
  }

  lemma CursorFits(s: Screen, y: int, x: int)
    requires Valid(s) && 0 <= y < |s.rows| && 0 <= x < s.columns
    ensures Fits(s, s.(y := y, x := x))
  {
    hide Framed;
  }

  /** Deleting keeps to the array, or the screen tells that it has not. */
  lemma ShortenedFits(s: Screen, n: int)
    requires Valid(s)
    ensures From(s, n) >= s.x || Reaches(s, n) ==> Fits(s, Shortened(s, n))
    ensures From(s, n) < s.x && !Reaches(s, n) ==> !Valid(Shortened(s, n)) && Shortened(s, n) == s.(inside := false)
  {
    hide Fits, Deleted, Smeared, From, Reaches, Framed;
    if From(s, n) >= s.x {
      RowOf(s);
      CursorRowFits(s, Deleted(s.rows[s.y], s.x, From(s, n) - s.x, s.attrib));
    } else if Reaches(s, n) {
      RowsFit(s, Smeared(s, n));
    }
  }

  lemma RowOf(s: Screen)
    requires Valid(s)
    ensures |s.rows[s.y]| == s.columns
  {
  }

  lemma RowsFit(s: Screen, rows: seq<Row>)
    requires Valid(s) && Framed(rows, s.columns) && |rows| == |s.rows|
    ensures Fits(s, s.(rows := rows))
  {
    hide Framed;
  }

  lemma ColouredFits(s: Screen, e: seq<Int>)
    requires Valid(s)
    ensures Fits(s, Coloured(s, e))
  {
    hide Framed, PaintedAll;
  }

  lemma ObeyFits(s: Screen, ch: Byte, e: seq<Int>)
    requires Valid(s) && ch != 'r'
    requires ch == 'P' ==> From(s, Parameter(e, 0, 1)) >= s.x || Reaches(s, Parameter(e, 0, 1))
    ensures Fits(s, Obey(s, ch, e))
  {
    hide Placed, Erase, EraseLine, Inserted, Removed, Shortened, Coloured, Region, Fits, Valid, Parameter, Target;
    hide From, Reaches, Times;
    if Travels(ch) {
      PlacedFits(s, Target(s, ch, e).0, Target(s, ch, e).1);
    }
    EraseFits(s, Parameter(e, 0, 0));
    EraseLineFits(s, Parameter(e, 0, 0));
    InsertFits(s, Times(Parameter(e, 0, 1)));
    ShortenedFits(s, Parameter(e, 0, 1));
    SettingsFit(s, s.attrib, s.oldAttrib, s.x, s.y);
    ColouredFits(s, e);
    SettingsFit(s, s.attrib, s.oldAttrib, s.oldX, s.oldY);
  }

  lemma FitsAll(s: Screen, t: Screen, u: Screen)
    requires Fits(s, t) && Fits(t, u)
    ensures Fits(s, u)
  {
    hide Valid;
  }

  lemma PutFits(s: Screen, ch: Byte)
    requires Valid(s)
    ensures Fits(s, Put(s, ch))
  {
    hide Fits;
    var row := s.rows[s.y][s.x := Cell(ch, s.attrib)];
    CursorRowFits(s, row);
    var t := s.(rows := s.rows[s.y := row]);
    CursorFits(t, s.y, Min(s.x + 1, s.columns - 1)) by { hide Framed; }
    FitsAll(s, t, Put(s, ch));
  }

  lemma InterpretFits(s: Screen, ch: Byte)
    requires Valid(s)
    ensures Fits(s, Interpret(s, ch))
  {
    hide Erase, LineFeed, Put, Placed, Framed;
    EraseFits(s, 2);
    ScrollFits(s);
    PutFits(s, ch);
    PlacedFits(s, s.y, s.x + (8 - s.x % 8));
    var t := LineFeed(s);
    CursorFits(t, t.y, 0);
  }

  lemma EscapedFits(s: Screen, ch: Byte)
    requires Valid(s)
    ensures Fits(s, Escaped(s, ch))
  {
    hide Index, ReverseIndex, Framed;
    ScrollFits(s);
    ScrollFits(s.(x := 0));
    ReverseFits(s);
  }

  lemma ReaderFits(s: Screen, ch: Byte)
    requires Valid(s)
    ensures Valid(s.(parser := NextParser(s.parser, ch)))
  {
    hide Framed;
  }

  /** A region command leaves a region of at least one row exactly when it does not empty the region. */
  lemma RegionObeyed(s: Screen, e: seq<Int>)
    requires Valid(s)
    ensures Obey(s, 'r', e) == Region(s, e)
    ensures var low, high := Parameter(e, 0, 1), Parameter(e, 1, |s.rows|);
      Valid(Region(s, e)) <==> !(low <= high && (high < 1 || low > |s.rows| || low == -LIMIT))
    ensures |Region(s, e).rows| == |s.rows| && Region(s, e).columns == s.columns && Region(s, e).parser == s.parser
  {
    hide Framed;
    assert Wrap(-LIMIT - 1) == LIMIT - 1;
  }

  /** The heart of safety: one byte keeps the screen well formed exactly when it does no harm. */
  lemma StepValid(s: Screen, ch: Byte)
    requires Valid(s)
    ensures Valid(Step(s, ch)) <==> !Harms(s, ch)
    ensures Step(s, ch).parser == NextParser(s.parser, ch)
    ensures |Step(s, ch).rows| == |s.rows| && Step(s, ch).columns == s.columns
  {
    hide Obey, Interpret, Escaped, NextParser, Valid, From, Reaches;
    ReaderFits(s, ch);
    var t := s.(parser := NextParser(s.parser, ch));
    if s.parser.mode == Plain {
      InterpretFits(t, ch);
    } else if s.parser.mode == Escape {
      EscapedFits(t, ch);
    } else if s.parser.mode == Control && !KeepsReading(ch) {
      var e := t.parser.elements;
      SameReach(s, t.parser, Parameter(e, 0, 1));
      if ch == 'r' {
        RegionObeyed(t, e);
      } else if ch == 'P' && From(t, Parameter(e, 0, 1)) < t.x && !Reaches(t, Parameter(e, 0, 1)) {
        ShortenedFits(t, Parameter(e, 0, 1));
        DeletionObeyed(t, e);
      } else {
        ObeyFits(t, ch, e);
      }
    }
  }

  lemma SameReach(s: Screen, p: Parser, n: int)
    ensures From(s.(parser := p), n) == From(s, n) && Reaches(s.(parser := p), n) == Reaches(s, n)
  {
    hide Wrap;
  }

  lemma DeletionObeyed(s: Screen, e: seq<Int>)
    requires Valid(s)
    ensures Obey(s, 'P', e) == Shortened(s, Parameter(e, 0, 1))
  {
    hide Shortened;
  }

  lemma RunInvalid(s: Screen, text: seq<Byte>)
    requires !Valid(s)
    ensures Run(s, text) == s
  {
  }

  /** Up to the first harmful byte the screen is as the source has it; there the run stops. */
  lemma {:induction false} RunStops(s: Screen, text: seq<Byte>)
    requires Valid(s)
    ensures Valid(Run(s, text)) <==> Harmless(s, text)
    ensures Harmless(s, text) ==> |Run(s, text).rows| == |s.rows| && Run(s, text).columns == s.columns
    decreases |text|
  {
    hide Step, NextParser, Harms, Valid;
    if text != [] {
      StepValid(s, text[0]);
      if Harms(s, text[0]) {
        RunInvalid(Step(s, text[0]), text[1..]);
      } else {
        RunStops(Step(s, text[0]), text[1..]);
      }
    }
  }

  lemma {:induction false} HarmlessPrefix(s: Screen, text: seq<Byte>, k: nat)
    requires Harmless(s, text) && k <= |text|
    ensures Harmless(s, text[..k])
    decreases k
  {
    hide Step, Harms, Valid;
    if k > 0 {
      HarmlessPrefix(Step(s, text[0]), text[1..], k - 1);
      assert text[..k][1..] == text[1..][..k - 1];
    }
  }

  /** The screen is well formed after every byte of a text exactly when no byte of the text does harm. */
  lemma RunValid(s: Screen, text: seq<Byte>)
    requires Valid(s)
    ensures (forall k | 0 <= k <= |text| :: Valid(Run(s, text[..k]))) <==> Harmless(s, text)
  {
    hide Run, Harmless, Valid;
    if Harmless(s, text) {
      forall k | 0 <= k <= |text| ensures Valid(Run(s, text[..k])) {
        HarmlessPrefix(s, text, k);
        RunStops(s, text[..k]);
      }
    }
    if forall k | 0 <= k <= |text| :: Valid(Run(s, text[..k])) {
      assert text[..|text|] == text;
      assert Valid(Run(s, text[..|text|]));
      RunStops(s, text);
    }
  }

  /** The reader of a tame text: no number wraps around, not even with a row's length added to it. */
  predicate Tamed(p: Parser, columns: int) {
    && 0 <= p.number && p.number + columns < LIMIT
    && forall i | 0 <= i < |p.elements| :: 0 <= p.elements[i] && p.elements[i] + columns < LIMIT
  }

  lemma TameNext(p: Parser, columns: int, text: seq<Byte>)
    requires 0 < columns < SIDE && text != [] && Tamed(p, columns) && Tame(p, columns, text)
    ensures Tamed(NextParser(p, text[0]), columns) && Tame(NextParser(p, text[0]), columns, text[1..])
  {
    var q := NextParser(p, text[0]);
    assert q.elements == p.elements || q.elements == [] || q.elements == p.elements + [p.number];
    assert q.number == 0 || q.number == p.number || q.number == p.number * 10 + DigitValue(text[0]);
  }

  lemma TameStays(s: Screen, ch: Byte)
    requires Valid(s) && Tamed(NextParser(s.parser, ch), s.columns)
    ensures Harms(s, ch) <==> EmptiesRegion(s.parser, |s.rows|, ch)
  {
    hide NextParser, EmptiesRegion, Reaches, Framed;
  }

  lemma {:induction false} TameHarmless(s: Screen, text: seq<Byte>)
    requires Valid(s) && Tamed(s.parser, s.columns) && Tame(s.parser, s.columns, text)
    ensures Harmless(s, text) <==> RegionsFit(s.parser, |s.rows|, text)
    decreases |text|
  {
    hide Step, NextParser, Harms, EmptiesRegion, Tame, Tamed, Valid;
    if text != [] {
      SmallScreen(s);
      TameNext(s.parser, s.columns, text);
      StepValid(s, text[0]);
      TameStays(s, text[0]);
      if !Harms(s, text[0]) {
        TameHarmless(Step(s, text[0]), text[1..]);
      }
    }
  }

  /**
   A caller can tell from the text alone: when no number in it comes within a row's length of 2^31, the screen is well
   formed after every byte exactly when no region command in the text empties the region.
   */
  lemma TameValid(s: Screen, text: seq<Byte>)
    requires Valid(s) && Tamed(s.parser, s.columns) && Tame(s.parser, s.columns, text)
    ensures (forall k | 0 <= k <= |text| :: Valid(Run(s, text[..k]))) <==> RegionsFit(s.parser, |s.rows|, text)
    ensures Harmless(s, text) <==> RegionsFit(s.parser, |s.rows|, text)
  {
    hide Run, Harmless, Valid, Tame, Tamed, RegionsFit;
    TameHarmless(s, text);
    RunValid(s, text);
  }

  lemma SmallScreen(s: Screen)
    requires Valid(s)
    ensures 0 < s.columns < SIDE && 0 < |s.rows| < SIDE
  {
  }

  /** The cursor never leaves the grid: not after any byte of any text that does no harm. */
  lemma CursorStays(s: Screen, text: seq<Byte>)
    requires Valid(s) && Harmless(s, text)
    ensures forall k | 0 <= k <= |text| ::
              var t := Run(s, text[..k]);
              0 <= t.x < s.columns && 0 <= t.y < |s.rows| && 0 <= t.top < t.bottom <= |s.rows| && t.inside
  {
    hide Run, Harmless, Framed;
    forall k | 0 <= k <= |text|
      ensures var t := Run(s, text[..k]);
        0 <= t.x < s.columns && 0 <= t.y < |s.rows| && 0 <= t.top < t.bottom <= |s.rows| && t.inside
    {
      HarmlessPrefix(s, text, k);
      RunStops(s, text[..k]);
    }
  }

  lemma {:induction false} RunTwice(s: Screen, a: seq<Byte>, b: seq<Byte>)
    ensures Run(s, a + b) == Run(Run(s, a), b)
    decreases |a|
  {
    if a == [] {
      assert a + b == b;
    } else if Valid(s) {
      assert (a + b)[0] == a[0] && (a + b)[1..] == a[1..] + b;
      RunTwice(Step(s, a[0]), a[1..], b);
    }
  }

  lemma RunNone(s: Screen)
    ensures Run(s, []) == s
  {
  }

  lemma RunOne(s: Screen, ch: Byte)
    requires Valid(s)
    ensures Run(s, [ch]) == Step(s, ch)
  {
    hide Step, Valid;
    var t := Step(s, ch);
    assert [ch][1..] == [];
    assert Run(t, []) == t;
  }

  /** The bytes that vputs sends for a string: a carriage return follows every line feed. */
  function WithReturns(text: seq<Byte>): seq<Byte> {
    if text == [] then []
    else if text[0] == '\n' then ['\n', '\r'] + WithReturns(text[1..])
    else [text[0]] + WithReturns(text[1..])
  }

  lemma RunNext(s: Screen, ch: Byte, rest: seq<Byte>)
    requires Valid(s)
    ensures Run(s, [ch] + rest) == Run(Step(s, ch), rest)
    ensures Harmless(s, [ch] + rest) <==> !Harms(s, ch) && Harmless(Step(s, ch), rest)
  {
    hide Step, Harms, Valid;
    assert ([ch] + rest)[1..] == rest;
  }

  // Control sequences

  function {:tailrecursion false} Digits(n: nat): (r: seq<Byte>)
    ensures |r| > 0 && forall i | 0 <= i < |r| :: IsDigit(r[i])
  {
    var d := (n % 10 + '0' as int) as char;
    if n < 10 then [d] else Digits(n / 10) + [d]
  }

  /** Numbers in decimal, with semicolons between them. */
  function {:tailrecursion false} Parameters(es: seq<nat>): (r: seq<Byte>)
    ensures forall i | 0 <= i < |r| :: KeepsReading(r[i])
  {
    if es == [] then []
    else if |es| == 1 then Digits(es[0])
    else Parameters(es[..|es| - 1]) + [';'] + Digits(es[|es| - 1])
  }

  function Read(p: Parser, text: seq<Byte>): Parser
    decreases |text|
  {
    if text == [] then p else NextParser(Read(p, text[..|text| - 1]), text[|text| - 1])
  }

  lemma {:induction false} ReadTwice(p: Parser, a: seq<Byte>, b: seq<Byte>)
    ensures Read(p, a + b) == Read(Read(p, a), b)
    decreases |b|
  {
    hide NextParser;
    if b == [] {
      assert a + b == a;
    } else {
      assert (a + b)[..|a + b| - 1] == a + b[..|b| - 1];
      ReadTwice(p, a, b[..|b| - 1]);
    }
  }

  /** Wrapping around digit by digit is wrapping around once. */
  lemma WrapDigit(a: nat, d: nat)
    requires d < 10
    ensures Wrap(Wrap(a) * 10 + d) == Wrap(a * 10 + d)
  {
    var q := (a + 0x8000_0000) / 0x1_0000_0000;
    assert Wrap(a) == a - q * 0x1_0000_0000;
    WrapPeriod(Wrap(a) * 10 + d, q * 10);
  }

  lemma WrapPeriod(n: int, q: int)
    ensures Wrap(n + q * 0x1_0000_0000) == Wrap(n)
  {
  }

  lemma NextDigit(p: Parser, ch: Byte)
    requires p.mode == Control && IsDigit(ch)
    ensures NextParser(p, ch) == p.(number := Wrap(p.number * 10 + DigitValue(ch)), reading := true)
  {
  }

  lemma {:induction false} ReadDigits(p: Parser, n: nat)
    requires p.mode == Control && p.number == 0
    ensures Read(p, Digits(n)) == p.(number := Wrap(n), reading := true)
  {
    hide NextParser, Wrap;
    var d: Byte := (n % 10 + '0' as int) as char;
    assert DigitValue(d) == n % 10;
    if n < 10 {
      assert Digits(n)[..0] == [];
      NextDigit(p, d);
    } else {
      ReadDigits(p, n / 10);
      assert Digits(n)[..|Digits(n)| - 1] == Digits(n / 10);
      NextDigit(p.(number := Wrap(n / 10), reading := true), d);
      WrapDigit(n / 10, n % 10);
      assert n / 10 * 10 + n % 10 == n;
    }
  }

  /** Numbers as 32-bit ints hold them. */
  function Wrapped(ns: seq<nat>): (r: seq<Int>)
    ensures |r| == |ns|
  {
    seq(|ns|, i requires 0 <= i < |ns| => Wrap(ns[i]))
  }

  function FirstSixteen(es: seq<Int>): (r: seq<Int>)
    ensures |r| <= MAX_ANSI_ELEMENTS && r <= es
  {
    if |es| <= MAX_ANSI_ELEMENTS then es else es[..MAX_ANSI_ELEMENTS]
  }

  /** The reader in the middle of the last of the parameters. */
  function Midway(es: seq<Int>): Parser
    requires es != []
  {
    Parser(Control, es[|es| - 1], FirstSixteen(es[..|es| - 1]), true)
  }

  lemma OneMore(es: seq<Int>, ch: Byte)
    requires es != [] && !IsDigit(ch)
    ensures Closed(Midway(es), ch) == Parser(Control, 0, FirstSixteen(es), false)
  {
    var n := |es| - 1;
    if n < MAX_ANSI_ELEMENTS {
      assert es[..n] + [es[n]] == es;
    } else {
      assert es[..n][..MAX_ANSI_ELEMENTS] == es[..MAX_ANSI_ELEMENTS];
    }
  }

  lemma ReadOne(p: Parser, ch: Byte)
    ensures Read(p, [ch]) == NextParser(p, ch)
  {
    hide NextParser;
    assert [ch][..0] == [];
  }

  lemma {:induction false} ParametersRead(ns: seq<nat>)
    requires ns != []
    ensures Read(Parser(Control, 0, [], false), Parameters(ns)) == Midway(Wrapped(ns))
    decreases |ns|
  {
    hide Digits, Read, Closed, Wrap;
    var p := Parser(Control, 0, [], false);
    var n := |ns| - 1;
    if n == 0 {
      ReadDigits(p, ns[0]);
      assert Wrapped(ns)[..0] == [];
    } else {
      var front, es := Parameters(ns[..n]), Wrapped(ns)[..n];
      assert Wrapped(ns[..n]) == es;
      ParametersRead(ns[..n]);
      ReadTwice(p, front + [';'], Digits(ns[n]));
      ReadTwice(p, front, [';']);
      ReadOne(Midway(es), ';');
      OneMore(es, ';');
      ReadDigits(Parser(Control, 0, FirstSixteen(es), false), ns[n]);
    }
  }

  /** Parameters written in decimal are read back, as ints hold them: all of them up to sixteen. */
  lemma ReadsBack(ns: seq<nat>, ch: Byte)
    requires !KeepsReading(ch)
    ensures var q := NextParser(Read(Parser(Control, 0, [], false), Parameters(ns)), ch);
      q == Parser(Plain, 0, FirstSixteen(Wrapped(ns)), false)
  {
    if ns != [] {
      ParametersRead(ns);
      OneMore(Wrapped(ns), ch);
    }
  }

  /** Parameter bytes touch nothing but the reader. */
  lemma {:induction false} RunReads(s: Screen, text: seq<Byte>)
    requires Valid(s) && s.parser.mode == Control && forall i | 0 <= i < |text| :: KeepsReading(text[i])
    ensures Run(s, text) == s.(parser := Read(s.parser, text))
    ensures Valid(Run(s, text)) && Run(s, text).parser.mode == Control
    decreases |text|
  {
    hide Valid, NextParser, Obey, Interpret, Escaped;
    if text != [] {
      var n := |text| - 1;
      RunReads(s, text[..n]);
      assert text == text[..n] + [text[n]];
      RunTwice(s, text[..n], [text[n]]);
      var t := Run(s, text[..n]);
      RunOne(t, text[n]);
      StepValid(t, text[n]);
      StaysInControl(t.parser, text[n]);
    }
  }

  lemma StaysInControl(p: Parser, ch: Byte)
    requires p.mode == Control && KeepsReading(ch)
    ensures NextParser(p, ch).mode == Control
  {
  }

  const INTRODUCER: seq<Byte> := [ESC, '[']

  lemma Introduced(s: Screen)
    requires Valid(s) && s.parser.mode == Plain
    ensures Run(s, INTRODUCER) == s.(parser := Parser(Control, 0, [], false))
    ensures Valid(Run(s, INTRODUCER))
  {
    hide Valid;
    StepValid(s, ESC);
    var t := Step(s, ESC);
    StepValid(t, '[');
    RunOne(s, ESC);
    RunOne(t, '[');
    RunTwice(s, [ESC], ['[']);
    assert [ESC] + ['['] == INTRODUCER;
  }

  /** A control sequence written out, with any list of parameters, does what its final byte says with the first
      sixteen of them as ints hold them, and ordinary text follows. */
  lemma ControlObeyed(s: Screen, ns: seq<nat>, ch: Byte)
    requires Valid(s) && s.parser.mode == Plain && !KeepsReading(ch)
    ensures var e := FirstSixteen(Wrapped(ns));
      Run(s, INTRODUCER + Parameters(ns) + [ch]) == Obey(s.(parser := Parser(Plain, 0, e, false)), ch, e)
  {
    hide Valid, NextParser, Obey, Parameters, Read, Run, Wrapped;
    Introduced(s);
    var p := Parser(Control, 0, [], false);
    var t := s.(parser := p);
    RunReads(t, Parameters(ns));
    RunTwice(s, INTRODUCER, Parameters(ns));
    var u := t.(parser := Read(p, Parameters(ns)));
    RunTwice(s, INTRODUCER + Parameters(ns), [ch]);
    RunOne(u, ch);
    ReadsBack(ns, ch);
  }

  lemma AddressObeyed(s: Screen, e: seq<Int>)
    requires Valid(s) && |e| == 2
    ensures Obey(s, 'H', e) == Placed(s, Origin(e[0]), Origin(e[1]))
  {
  }

  /** The row or column v for number n, counting from one: as near as the grid allows. */
  predicate AsAsked(n: Int, limit: int, v: int) {
    && (1 <= n <= limit ==> v == n - 1)
    && (n > limit || n == -LIMIT ==> v == limit - 1)
    && (-LIMIT < n < 1 ==> v == 0)
  }

  lemma OriginAsked(n: Int, limit: int)
    requires 0 < limit < SIDE
    ensures AsAsked(n, limit, Clamp(Origin(n), limit))
  {
    assert Wrap(-LIMIT - 1) == LIMIT - 1;
  }

  /** ESC [ row ; column H puts the cursor there, as ints hold the two; nothing else on the screen changes. */
  lemma CursorAddressed(s: Screen, row: nat, column: nat)
    requires Valid(s) && s.parser.mode == Plain
    ensures var t := Run(s, INTRODUCER + Parameters([row, column]) + ['H']);
      && t == s.(y := t.y, x := t.x, parser := t.parser) && t.parser.mode == Plain
      && AsAsked(Wrap(row), |s.rows|, t.y) && AsAsked(Wrap(column), s.columns, t.x)
  {
    hide Parameters, Run, Framed, Obey, Wrap, Origin, Clamp, AsAsked;
    ControlObeyed(s, [row, column], 'H');
    var e := [Wrap(row), Wrap(column)];
    assert FirstSixteen(Wrapped([row, column])) == e;
    AddressObeyed(s.(parser := Parser(Plain, 0, e, false)), e);
    OriginAsked(Wrap(row), |s.rows|);
    OriginAsked(Wrap(column), s.columns);
  }

  // Text

  predicate Printable(ch: Byte) {
    ch != ESC && ch != '\0' && ch != FF && ch != '\r' && ch != '\n' && ch != '\t' && ch != BS
  }

  /** Cell i of the cursor row after text was typed from column x on.  What does not fit is typed over the last cell. */
  function Typed(row: Row, x: int, text: seq<Byte>, attrib: bv8, i: int): Cell
    requires 0 <= i < |row| && text != []
  {
    if i == |row| - 1 && x + |text| > i then Cell(text[|text| - 1], attrib)
    else if x <= i < x + |text| then Cell(text[i - x], attrib)
    else row[i]
  }

  /** Typing changes the cursor row only, as Typed says. */
  lemma {:induction false} TypeText(s: Screen, text: seq<Byte>)
    requires Valid(s) && s.parser.mode == Plain && text != []
    requires forall i | 0 <= i < |text| :: Printable(text[i])
    ensures var t := Run(s, text);
      && Valid(t) && |t.rows| == |s.rows| && t.columns == s.columns
      && t == s.(rows := s.rows[s.y := t.rows[s.y]], x := Min(s.x + |text|, s.columns - 1))
      && forall i | 0 <= i < s.columns :: t.rows[s.y][i] == Typed(s.rows[s.y], s.x, text, s.attrib, i)
    decreases |text|
  {
    hide Run;
    var n := |text| - 1;
    var front := text[..n];
    if n == 0 {
      RunOne(s, text[0]);
      assert text == [text[0]];
      PutFits(s, text[0]);
    } else {
      TypeText(s, front);
      assert text == front + [text[n]];
      RunTwice(s, front, [text[n]]);
      var t := Run(s, front);
      RunOne(t, text[n]);
      PutFits(t, text[n]);
    }
  }

  // Whole rows move

  lemma RowsUpTwice(rows: seq<Row>, from: int, to: int, a: nat, b: nat, columns: int, attrib: bv8)
    requires 0 <= from <= to <= |rows| && columns >= 0
    ensures RowsUp(RowsUp(rows, from, to, a, columns, attrib), from, to, b, columns, attrib) ==
            RowsUp(rows, from, to, a + b, columns, attrib)
  {
    hide RowsUp, BlankRow;
    var once := RowsUp(rows, from, to, a, columns, attrib);
    var twice := RowsUp(once, from, to, b, columns, attrib);
    var whole := RowsUp(rows, from, to, a + b, columns, attrib);
    forall y | 0 <= y < |rows| ensures twice[y] == whole[y] {
      RowsUpAt(once, from, to, b, columns, attrib, y);
      RowsUpAt(rows, from, to, a, columns, attrib, y);
      if y + b < |rows| { RowsUpAt(rows, from, to, a, columns, attrib, y + b); }
      RowsUpAt(rows, from, to, a + b, columns, attrib, y);
    }
  }

  lemma RowsDownTwice(rows: seq<Row>, from: int, to: int, a: nat, b: nat, columns: int, attrib: bv8)
    requires 0 <= from <= to <= |rows| && columns >= 0
    ensures RowsDown(RowsDown(rows, from, to, a, columns, attrib), from, to, b, columns, attrib) ==
            RowsDown(rows, from, to, a + b, columns, attrib)
  {
    hide RowsDown, BlankRow;
    var once := RowsDown(rows, from, to, a, columns, attrib);
    var twice := RowsDown(once, from, to, b, columns, attrib);
    var whole := RowsDown(rows, from, to, a + b, columns, attrib);
    forall y | 0 <= y < |rows| ensures twice[y] == whole[y] {
      RowsDownAt(once, from, to, b, columns, attrib, y);
      RowsDownAt(rows, from, to, a, columns, attrib, y);
      if y - b >= 0 { RowsDownAt(rows, from, to, a, columns, attrib, y - b); }
      RowsDownAt(rows, from, to, a + b, columns, attrib, y);
    }
  }

  lemma MoveNone(rows: seq<Row>, from: int, to: int, columns: int, attrib: bv8)
    requires 0 <= from <= to <= |rows| && columns >= 0
    ensures RowsUp(rows, from, to, 0, columns, attrib) == rows == RowsDown(rows, from, to, 0, columns, attrib)
  {
  }

  lemma InsertOneMore(s: Screen, n: nat)
    requires Valid(s)
    ensures Inserted(s, 0) == s && Valid(Inserted(s, n)) && Inserted(Inserted(s, n), 1) == Inserted(s, n + 1)
  {
    hide RowsUp, RowsDown, Framed;
    InsertFits(s, n);
    if s.top <= s.y < s.bottom {
      MoveNone(s.rows, s.y, s.bottom, s.columns, s.attrib);
      RowsDownTwice(s.rows, s.y, s.bottom, n, 1, s.columns, s.attrib);
    }
  }

  lemma RemoveOneMore(s: Screen, n: nat)
    requires Valid(s)
    ensures Removed(s, 0) == s && Valid(Removed(s, n)) && Removed(Removed(s, n), 1) == Removed(s, n + 1)
  {
    hide RowsUp, RowsDown, Framed;
    InsertFits(s, n);
    if s.top <= s.y < s.bottom {
      MoveNone(s.rows, s.y, s.bottom, s.columns, s.attrib);
      RowsUpTwice(s.rows, s.y, s.bottom, n, 1, s.columns, s.attrib);
    }
  }

  function {:tailrecursion false} Repeat(ch: Byte, n: nat): (r: seq<Byte>)
    ensures |r| == n
  {
    if n == 0 then [] else Repeat(ch, n - 1) + [ch]
  }

  /** Line feeds on the last line of the region scroll the region by as many rows; all other rows stay. */
  lemma {:induction false} LineFeedsScroll(s: Screen, n: nat)
    requires Valid(s) && s.parser.mode == Plain && s.y == s.bottom - 1 && n > 0
    ensures Run(s, Repeat('\n', n)) ==
            s.(rows := RowsUp(s.rows, s.top, s.bottom, n, s.columns, s.attrib), x := 0)
    ensures Valid(Run(s, Repeat('\n', n)))
    decreases n
  {
    hide RowsUp, Framed, Run;
    if n == 1 {
      assert Repeat('\n', 1) == ['\n'];
      RunOne(s, '\n');
      StepValid(s, '\n');
    } else {
      LineFeedsScroll(s, n - 1);
      var t := Run(s, Repeat('\n', n - 1));
      RunTwice(s, Repeat('\n', n - 1), ['\n']);
      RunOne(t, '\n');
      StepValid(t, '\n');
      RowsUpTwice(s.rows, s.top, s.bottom, n - 1, 1, s.columns, s.attrib);
    }
  }

  /** Deleting the lines just inserted brings the rows back, but for those pushed out of the region. */
  lemma RemoveUndoesInsert(s: Screen, n: nat, y: int)
    requires Valid(s) && 0 <= y < |s.rows|
    ensures var t := Removed(Inserted(s, n), n);
      && t == s.(rows := t.rows) && |t.rows| == |s.rows|
      && t.rows[y] == if s.top <= s.y < s.bottom && s.y <= y < s.bottom && y + n >= s.bottom
                      then BlankRow(s.columns, s.attrib) else s.rows[y]
  {
    hide RowsUp, RowsDown, BlankRow;
    InsertFits(s, n);
    if s.top <= s.y < s.bottom {
      var once := Inserted(s, n).rows;
      RowsUpAt(once, s.y, s.bottom, n, s.columns, s.attrib, y);
      RowsDownAt(s.rows, s.y, s.bottom, n, s.columns, s.attrib, y);
      if y + n < |s.rows| {
        RowsDownAt(s.rows, s.y, s.bottom, n, s.columns, s.attrib, y + n);
      }
    }
  }

  /**
   The byte may change more than the region and the cursor's row: a form feed, the end of a control sequence J, or of a
   deletion that copies cells from in front of the cursor.
   */
  predicate Disturbs(s: Screen, ch: Byte) {
    || (s.parser.mode == Plain && ch == FF)
    || (s.parser.mode == Control && ch == 'J')
    || (s.parser.mode == Control && ch == 'P' && From(s, Parameter(NextParser(s.parser, ch).elements, 0, 1)) < s.x)
  }

  /** A row that is outside the region and without the cursor changes only then. */
  lemma StepElsewhere(s: Screen, ch: Byte, y: int)
    requires Valid(s) && 0 <= y < |s.rows| && y != s.y && !(s.top <= y < s.bottom) && !Disturbs(s, ch)
    ensures |Step(s, ch).rows| == |s.rows| && Step(s, ch).rows[y] == s.rows[y]
  {
    hide Obey, Interpret, Escaped, NextParser, Valid, From;
    StepValid(s, ch);
    ReaderFits(s, ch);
    var t := s.(parser := NextParser(s.parser, ch));
    if s.parser.mode == Plain {
      InterpretElsewhere(t, ch, y);
    } else if s.parser.mode == Escape {
      EscapedElsewhere(t, ch, y);
    } else if s.parser.mode == Control && !KeepsReading(ch) {
      SameReach(s, t.parser, Parameter(t.parser.elements, 0, 1));
      ObeyElsewhere(t, ch, t.parser.elements, y);
    }
  }

  lemma ScrollElsewhere(s: Screen, n: nat, y: int)
    requires Valid(s) && 0 <= y < |s.rows| && !(s.top <= y < s.bottom)
    ensures ScrolledUp(s).rows[y] == s.rows[y]
    ensures Inserted(s, n).rows[y] == s.rows[y] && Removed(s, n).rows[y] == s.rows[y]
  {
    hide RowsUp, RowsDown;
    RowsUpAt(s.rows, s.top, s.bottom, 1, s.columns, s.attrib, y);
    if s.top <= s.y < s.bottom {
      RowsUpAt(s.rows, s.y, s.bottom, n, s.columns, s.attrib, y);
      RowsDownAt(s.rows, s.y, s.bottom, n, s.columns, s.attrib, y);
    }
  }

  lemma InterpretElsewhere(s: Screen, ch: Byte, y: int)
    requires Valid(s) && 0 <= y < |s.rows| && y != s.y && !(s.top <= y < s.bottom) && ch != FF
    ensures |Interpret(s, ch).rows| == |s.rows| && Interpret(s, ch).rows[y] == s.rows[y]
  {
    hide RowsUp, RowsDown, Framed, Erase;
    ScrollElsewhere(s, 1, y);
  }

  lemma EscapedElsewhere(s: Screen, ch: Byte, y: int)
    requires Valid(s) && 0 <= y < |s.rows| && y != s.y && !(s.top <= y < s.bottom)
    ensures |Escaped(s, ch).rows| == |s.rows| && Escaped(s, ch).rows[y] == s.rows[y]
  {
    hide RowsUp, RowsDown, Framed;
    ScrollElsewhere(s, 1, y);
    ScrollElsewhere(s.(x := 0), 1, y);
  }

  lemma EraseLineElsewhere(s: Screen, mode: int, y: int)
    requires Valid(s) && 0 <= y < |s.rows| && y != s.y
    ensures |EraseLine(s, mode).rows| == |s.rows| && EraseLine(s, mode).rows[y] == s.rows[y]
  {
    var t := EraseLine(s, mode).rows[y];
    assert |t| == |s.rows[y]|;
    assert forall i | 0 <= i < |t| :: t[i] == s.rows[y][i];
  }

  lemma ShortenedElsewhere(s: Screen, n: int, y: int)
    requires Valid(s) && 0 <= y < |s.rows| && y != s.y && From(s, n) >= s.x
    ensures |Shortened(s, n).rows| == |s.rows| && Shortened(s, n).rows[y] == s.rows[y]
  {
    hide Deleted, From, Framed;
  }

  lemma ObeyElsewhere(s: Screen, ch: Byte, e: seq<Int>, y: int)
    requires Valid(s) && 0 <= y < |s.rows| && y != s.y && !(s.top <= y < s.bottom) && ch != 'J'
    requires ch == 'P' ==> From(s, Parameter(e, 0, 1)) >= s.x
    ensures |Obey(s, ch, e).rows| == |s.rows| && Obey(s, ch, e).rows[y] == s.rows[y]
  {
    hide Inserted, Removed, EraseLine, Erase, Shortened, PaintedAll, Bounded, From, Times, Parameter, Target, Travels;
    if ch == 'P' {
      ShortenedElsewhere(s, Parameter(e, 0, 1), y);
    } else if ch == 'L' || ch == 'M' {
      ScrollElsewhere(s, Times(Parameter(e, 0, 1)), y);
      InsertFits(s, Times(Parameter(e, 0, 1)));
    } else if ch == 'K' {
      EraseLineElsewhere(s, Parameter(e, 0, 0), y);
    }
  }

  // The reader and the rest of the screen do not depend on each other

  predicate Short(p: Parser) { |p.elements| <= MAX_ANSI_ELEMENTS }

  lemma ScrollApart(s: Screen, p: Parser)
    requires Bounded(s)
    ensures ScrolledUp(s.(parser := p)) == ScrolledUp(s).(parser := p)
  {
    hide RowsUp, Framed;
  }

  lemma InsertApart(s: Screen, p: Parser, n: nat)
    requires Valid(s) && Short(p)
    ensures Inserted(s.(parser := p), n) == Inserted(s, n).(parser := p)
    ensures Removed(s.(parser := p), n) == Removed(s, n).(parser := p)
  {
    hide RowsUp, RowsDown, Framed;
  }

  lemma IndexApart(s: Screen, p: Parser)
    requires Valid(s) && Short(p)
    ensures Index(s.(parser := p)) == Index(s).(parser := p)
  {
    hide ScrolledUp, Framed;
    ScrollApart(s, p);
  }

  lemma ReverseApart(s: Screen, p: Parser)
    requires Valid(s) && Short(p)
    ensures ReverseIndex(s.(parser := p)) == ReverseIndex(s).(parser := p)
  {
    hide Inserted, Framed;
    InsertApart(s, p, 1);
  }

  lemma EraseApart(s: Screen, p: Parser, mode: int)
    requires Valid(s) && Short(p)
    ensures Erase(s.(parser := p), mode) == Erase(s, mode).(parser := p)
    ensures EraseLine(s.(parser := p), mode) == EraseLine(s, mode).(parser := p)
  {
    hide Cleared, Framed;
  }

  lemma PlacedApart(s: Screen, p: Parser, y: int, x: int)
    ensures Placed(s.(parser := p), y, x) == Placed(s, y, x).(parser := p)
  {
  }

  lemma RowApart(s: Screen, p: Parser, e: seq<Int>, n: int)
    requires Valid(s) && Short(p)
    ensures Shortened(s.(parser := p), n) == Shortened(s, n).(parser := p)
    ensures Coloured(s.(parser := p), e) == Coloured(s, e).(parser := p)
  {
    hide Deleted, PaintedAll, Framed, Smeared, From, Reaches;
    SameReach(s, p, n);
    if From(s, n) < s.x && Reaches(s, n) {
      SmearApart(s, p, n);
    }
  }

  lemma SmearApart(s: Screen, p: Parser, n: int)
    requires Bounded(s) && 0 <= s.y < |s.rows| && 0 <= s.x < s.columns && From(s, n) < s.x && Reaches(s, n)
    ensures From(s.(parser := p), n) == From(s, n) && Reaches(s.(parser := p), n)
    ensures Smeared(s.(parser := p), n) == Smeared(s, n)
  {
    hide From, Reaches, Framed, CopiedForward, Flat, Grid;
    SameReach(s, p, n);
  }

  lemma RegionApart(s: Screen, p: Parser, e: seq<Int>)
    ensures Region(s.(parser := p), e) == Region(s, e).(parser := p)
  {
  }

  lemma EscapedApart(s: Screen, ch: Byte, p: Parser)
    requires Valid(s) && Short(p)
    ensures Escaped(s.(parser := p), ch) == Escaped(s, ch).(parser := p)
  {
    hide Index, ReverseIndex, Framed;
    IndexApart(s, p);
    IndexApart(s.(x := 0), p);
    ReverseApart(s, p);
  }

  lemma EscapedOther(s: Screen, ch: Byte)
    requires Valid(s)
    ensures ch == '(' || ch == ')' || ch == '[' ==> Escaped(s, ch) == s
  {
  }

  lemma ObeyApart(s: Screen, ch: Byte, e: seq<Int>, p: Parser)
    requires Valid(s) && Short(p)
    ensures Obey(s.(parser := p), ch, e) == Obey(s, ch, e).(parser := p)
  {
    hide Placed, Target, Travels, Inserted, Removed, Erase, EraseLine, Region, Valid, Shortened, Coloured, Parameter;
    if Travels(ch) {
      TargetApart(s, ch, e, p);
      PlacedApart(s, p, Target(s, ch, e).0, Target(s, ch, e).1);
    } else if ch == 'L' || ch == 'M' {
      InsertApart(s, p, Times(Parameter(e, 0, 1)));
    } else if ch == 'J' || ch == 'K' {
      EraseApart(s, p, Parameter(e, 0, 0));
    } else if ch == 'r' {
      RegionApart(s, p, e);
    } else if ch == 'P' || ch == 'm' {
      RowApart(s, p, e, Parameter(e, 0, 1));
    }
  }

  lemma EditsOnly(ch: Byte)
    ensures ch == 'J' || ch == 'L' || ch == 'M' || ch == 'P' || ch == 'K' || ch == 's' || ch == 'r' || ch == 'm' ==>
              !Travels(ch)
  {
  }

  lemma TargetApart(s: Screen, ch: Byte, e: seq<Int>, p: Parser)
    requires Travels(ch)
    ensures Target(s.(parser := p), ch, e) == Target(s, ch, e)
  {
  }

  // Saving and restoring

  /** The byte saves the cursor: ESC 7, or the end of a control sequence s. */
  predicate Saves(p: Parser, ch: Byte) { (p.mode == Escape && ch == '7') || (p.mode == Control && ch == 's') }

  predicate NoSaves(p: Parser, text: seq<Byte>)
    decreases |text|
  {
    text == [] || (!Saves(p, text[0]) && NoSaves(NextParser(p, text[0]), text[1..]))
  }

  lemma StepKeepsSaved(s: Screen, ch: Byte)
    requires Valid(s) && !Saves(s.parser, ch)
    ensures Step(s, ch).oldX == s.oldX && Step(s, ch).oldY == s.oldY
  {
    hide NextParser, Valid, RowsUp, RowsDown, Cleared, Deleted, PaintedAll;
  }

  lemma {:induction false} RunKeepsSaved(s: Screen, text: seq<Byte>)
    requires Valid(s) && NoSaves(s.parser, text)
    ensures Run(s, text).oldX == s.oldX && Run(s, text).oldY == s.oldY
    decreases |text|
  {
    hide Step, NextParser, Valid;
    if text != [] {
      StepValid(s, text[0]);
      StepKeepsSaved(s, text[0]);
      var t := Step(s, text[0]);
      if Valid(t) {
        RunKeepsSaved(t, text[1..]);
      } else {
        RunInvalid(t, text[1..]);
      }
    }
  }

  /** ESC [ s, any text that saves no other position and ends outside a sequence, ESC [ u: the cursor is back. */
  lemma RestoreUndoesMoves(s: Screen, text: seq<Byte>)
    requires Valid(s) && s.parser.mode == Plain
    requires var p := Parser(Plain, 0, [], false);
             NoSaves(p, text) && Harmless(Run(s, INTRODUCER + ['s']), text)
    requires Run(Run(s, INTRODUCER + ['s']), text).parser.mode == Plain
    ensures var t := Run(s, INTRODUCER + ['s'] + text + INTRODUCER + ['u']);
      t.x == s.x && t.y == s.y && Valid(t)
  {
    hide Run, Harmless, NoSaves, Obey;
    var p := Parser(Plain, 0, [], false);
    var save := INTRODUCER + ['s'];
    assert save == INTRODUCER + Parameters([]) + ['s'];
    ControlObeyed(s, [], 's');
    var t := Run(s, save);
    Obeys(s.(parser := p));
    RunKeepsSaved(t, text);
    RunStops(t, text);
    var u := Run(t, text);
    RunTwice(s, save, text);
    assert INTRODUCER + ['u'] == INTRODUCER + Parameters([]) + ['u'];
    ControlObeyed(u, [], 'u');
    Obeys(u.(parser := p));
    RunTwice(s, save + text, INTRODUCER + ['u']);
    assert save + text + (INTRODUCER + ['u']) == save + text + INTRODUCER + ['u'];
  }

  lemma Obeys(s: Screen)
    requires Valid(s)
    ensures Obey(s, 's', []) == s.(oldX := s.x, oldY := s.y) && Valid(Obey(s, 's', []))
    ensures Obey(s, 'u', []) == Placed(s, s.oldY, s.oldX) && Valid(Obey(s, 'u', []))
  {
    hide Framed;
  }

  /** ESC 8 brings back the attribute of ESC 7 but not the cursor: whatever happened in between, it stays put. */
  lemma EscapeRestoresAttributeOnly(s: Screen)
    requires Valid(s) && s.parser.mode == Plain
    ensures Run(s, [ESC, '8']) == s.(attrib := s.oldAttrib)
  {
    hide Run, Framed;
    StepValid(s, ESC);
    RunOne(s, ESC);
    RunOne(Step(s, ESC), '8');
    RunTwice(s, [ESC], ['8']);
    assert [ESC] + ['8'] == [ESC, '8'];
  }

  /** ESC [ 0 ; 0 r is accepted and leaves a region without rows; so does a first number that is held as -1. */
  lemma RegionCanBeEmptied(s: Screen)
    requires Valid(s) && s.parser.mode == Plain
    ensures !Valid(Run(s, INTRODUCER + Parameters([0, 0]) + ['r']))
    ensures !Valid(Run(s, INTRODUCER + Parameters([4294967295, 0]) + ['r']))
  {
    hide Parameters, Run, Framed;
    ControlObeyed(s, [0, 0], 'r');
    ControlObeyed(s, [4294967295, 0], 'r');
    assert FirstSixteen(Wrapped([0, 0])) == [0, 0];
    assert FirstSixteen(Wrapped([4294967295, 0])) == [-1, 0];
    RegionObeyed(s.(parser := Parser(Plain, 0, [0, 0], false)), [0, 0]);
    RegionObeyed(s.(parser := Parser(Plain, 0, [-1, 0], false)), [-1, 0]);
  }

  /** ESC [ 4294967295 P on the last row deletes -1 cells, and writes one cell behind the array. */
  lemma DeletionCanStray(s: Screen)
    requires Valid(s) && s.parser.mode == Plain && s.y == |s.rows| - 1
    ensures Run(s, INTRODUCER + Parameters([4294967295]) + ['P']).inside == false
  {
    hide Parameters, Run, Framed, Obey;
    ControlObeyed(s, [4294967295], 'P');
    assert FirstSixteen(Wrapped([4294967295])) == [-1];
    var t := s.(parser := Parser(Plain, 0, [-1], false));
    DeletionObeyed(t, [-1]);
    assert From(t, -1) == t.x - 1;
    LocRow(t.columns, t.y, t.x);
  }

  /** ESC [ 2147483647 C goes to the last column from the first one, and to the first from any other. */
  lemma MovesCanWrap(s: Screen)
    requires Valid(s) && s.parser.mode == Plain
    ensures Run(s, INTRODUCER + Parameters([2147483647]) + ['C']).x == if s.x == 0 then s.columns - 1 else 0
  {
    hide Parameters, Run, Framed, Obey;
    ControlObeyed(s, [2147483647], 'C');
    assert FirstSixteen(Wrapped([2147483647])) == [2147483647];
    MoveObeyed(s.(parser := Parser(Plain, 0, [2147483647], false)), [2147483647]);
    assert s.x > 0 ==> Wrap(s.x + 2147483647) == s.x + 2147483647 - 0x1_0000_0000;
  }

  lemma MoveObeyed(s: Screen, e: seq<Int>)
    requires Valid(s) && |e| == 1
    ensures Obey(s, 'C', e) == Placed(s, s.y, Wrap(s.x + e[0]))
  {
    hide Framed;
  }
}
