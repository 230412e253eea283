/**
 Text of hiptop/zmachine/ZMachine.java: words packed into dictionary keys, and packed text read back
 (sections 3 and 13 of the Z-Machine Standards Document, 1.0).
 */
module ZText {

  /** The last row of the alphabet table; its first six places stand for no character. */
  const A2: seq<char> := [
    '\0', '\0', '\0', '\0', '\0', '\0', ' ', '\n', '0', '1', '2', '3', '4', '5', '6', '7',
    '8', '9', '.', ',', '!', '?', '_', '#', '\'', '"', '/', '\\', '-', ':', '(', ')']

  function Alphabet(row: int, c: int): char {
    if row == 2 then (if 0 <= c < 32 then A2[c] else '\0')
    else if 6 <= c < 32 then ((if row == 0 then 'a' else 'A') as int + (c - 6)) as char
    else if c == 0 && row == 0 then ' ' else '\0'
  }

  /** The place of a punctuation mark in the last row; 0 when it has none. */
  function Mark(x: char): (c: int)
    ensures c == 0 || (18 <= c < 32 && A2[c] == x)
  {
    match x
    case '.' => 18 case ',' => 19 case '!' => 20 case '?' => 21 case '_' => 22 case '#' => 23 case '\'' => 24
    case '"' => 25 case '/' => 26 case '\\' => 27 case '-' => 28 case ':' => 29 case '(' => 30 case ')' => 31
    case _ => 0
  }

  /** One or two Z-characters for a character. */
  function Code(x: char): (z: seq<int>)
    ensures 1 <= |z| <= 2 && forall i :: 0 <= i < |z| ==> 0 <= z[i] < 32
    ensures |z| == 2 ==> z[0] == 5
  {
    if 'a' <= x <= 'z' then [x as int - 'a' as int + 6]
    else if 'A' <= x <= 'Z' then [x as int - 'A' as int + 6]
    else if '0' <= x <= '9' then [5, x as int - '0' as int + 8]
    else [5, Mark(x)]
  }

  /** A character that a word may hold: letters, digits and the marks of the last row. */
  predicate Known(x: char) {
    'a' <= x <= 'z' || 'A' <= x <= 'Z' || '0' <= x <= '9' || Mark(x) != 0
  }

  function Lower(x: char): char {
    if 'A' <= x <= 'Z' then (x as int - 'A' as int + 'a' as int) as char else x
  }

  function LowerAll(w: seq<char>): (r: seq<char>)
    ensures |r| == |w|
  {
    if w == [] then [] else [Lower(w[0])] + LowerAll(w[1..])
  }

  function Fives(n: nat): (r: seq<int>)
    ensures |r| == n && forall i :: 0 <= i < n ==> r[i] == 5
  {
    seq(n, i => 5)
  }

  /** The Z-characters of a word, one after the other. */
  function Stream(w: seq<char>): seq<int> {
    if w == [] then [] else Code(w[0]) + Stream(w[1..])
  }

  /** A key has exactly max Z-characters: what does not fit is cut off, and fives fill it up. */
  function Chars(w: seq<char>, max: nat): (r: seq<int>)
    ensures |r| == max
  {
    (Stream(w) + Fives(max))[..max]
  }

  /** How many characters of the word fit into max Z-characters. */
  function Fit(w: seq<char>, max: nat): (k: nat)
    ensures k <= |w|
  {
    if w == [] || |Code(w[0])| > max then 0 else 1 + Fit(w[1..], max - |Code(w[0])|)
  }

  /** Fit gives the longest prefix that fits. */
  lemma {:induction false} FitIsLongest(w: seq<char>, max: nat)
    ensures |Stream(w[..Fit(w, max)])| <= max
    ensures forall k :: Fit(w, max) < k <= |w| ==> |Stream(w[..k])| > max
  {
    if w != [] {
      var n := |Code(w[0])|;
      if n <= max {
        FitIsLongest(w[1..], max - n);
        assert w[..Fit(w, max)][1..] == w[1..][..Fit(w[1..], max - n)];
        forall k | Fit(w, max) < k <= |w| ensures |Stream(w[..k])| > max {
          assert w[..k][1..] == w[1..][..k - 1];
        }
      } else {
        forall k | 0 < k <= |w| ensures |Stream(w[..k])| > max {
          assert w[..k][0] == w[0];
        }
      }
    }
  }

  lemma CharsRest(w: seq<char>, max: nat)
    requires w != [] && |Code(w[0])| <= max
    ensures Chars(w, max) == Code(w[0]) + Chars(w[1..], max - |Code(w[0])|)
  {
    var z, rest := Code(w[0]), Stream(w[1..]);
    var n := |z|;
    assert ((z + rest) + Fives(max))[..max] == z + (rest + Fives(max))[..max - n];
    FivesEnough(rest, max - n, max);
  }

  lemma FivesEnough(rest: seq<int>, n: nat, m: nat)
    requires n <= m
    ensures (rest + Fives(m))[..n] == (rest + Fives(n))[..n]
  {
  }

  /* Reading Z-characters back. */

  /** The text of an abbreviation by its number. */
  type Abbreviations = int -> seq<char>

  /** What one Z-character does in a shift mode: the characters it adds, and the mode and escape after it. */
  function ReadChar(abbr: Abbreviations, mode: int, high: int, c: int): (seq<char>, int, int) {
    if mode == 0 || mode == 1 || mode == 2 then
      if 1 <= c <= 3 then ([], c + 2, high)
      else if c == 4 then ([], 1, high)
      else if c == 5 then ([], 2, high)
      else if mode == 2 && c == 6 then ([], 6, high)
      else ([Alphabet(mode, c)], 0, high)
    else if 3 <= mode <= 5 then (abbr((mode - 3) * 32 + c), 0, high)
    else if mode == 6 then ([], 7, c)
    else ([Escaped(high * 32 + c)], 0, high)
  }

  function Escaped(c: int): char { (c % 1024) as char }

  function Read(abbr: Abbreviations, mode: int, high: int, zs: seq<int>): seq<char>
    decreases |zs|
  {
    if zs == [] then []
    else
      var r := ReadChar(abbr, mode, high, zs[0]);
      r.0 + Read(abbr, r.1, r.2, zs[1..])
  }

  /* What Z-characters mean (section 3 of the Standard). */

  /** What was left of an escape matters only within one. */
  lemma {:induction false} HighUnused(abbr: Abbreviations, mode: int, high: int, other: int, zs: seq<int>)
    requires 0 <= mode <= 6
    ensures Read(abbr, mode, high, zs) == Read(abbr, mode, other, zs)
    decreases |zs|
  {
    if zs != [] {
      var r := ReadChar(abbr, mode, high, zs[0]);
      if r.1 != 7 {
        HighUnused(abbr, r.1, high, other, zs[1..]);
      }
    }
  }

  lemma SpaceMeans(abbr: Abbreviations, high: int, rest: seq<int>)
    ensures Read(abbr, 0, high, [0] + rest) == " " + Read(abbr, 0, high, rest)
  {
    assert ([0] + rest)[1..] == rest;
  }

  /** The first row of the alphabet is read as it stands. */
  lemma LetterMeans(abbr: Abbreviations, high: int, c: int, rest: seq<int>)
    requires 6 <= c < 32
    ensures Read(abbr, 0, high, [c] + rest) == ["abcdefghijklmnopqrstuvwxyz"[c - 6]] + Read(abbr, 0, high, rest)
  {
    assert ([c] + rest)[1..] == rest;
    assert Alphabet(0, c) == "abcdefghijklmnopqrstuvwxyz"[c - 6];
  }

  lemma ReadPrefix(abbr: Abbreviations, mode: int, high: int, c: int, rest: seq<int>)
    ensures var r := ReadChar(abbr, mode, high, c);
            Read(abbr, mode, high, [c] + rest) == r.0 + Read(abbr, r.1, r.2, rest)
  {
    assert ([c] + rest)[1..] == rest;
  }

  /** Z-character 4 shifts the next one to capitals. */
  lemma CapitalMeans(abbr: Abbreviations, high: int, c: int, rest: seq<int>)
    requires 6 <= c < 32
    ensures Read(abbr, 0, high, [4, c] + rest) == ["ABCDEFGHIJKLMNOPQRSTUVWXYZ"[c - 6]] + Read(abbr, 0, high, rest)
  {
    hide Read;
    assert [4, c] + rest == [4] + ([c] + rest);
    ReadPrefix(abbr, 0, high, 4, [c] + rest);
    ReadPrefix(abbr, 1, high, c, rest);
    assert Alphabet(1, c) == "ABCDEFGHIJKLMNOPQRSTUVWXYZ"[c - 6];
  }

  /** Z-character 5 shifts the next one to digits and marks. */
  lemma MarkMeans(abbr: Abbreviations, high: int, c: int, rest: seq<int>)
    requires 7 <= c < 32
    ensures Read(abbr, 0, high, [5, c] + rest) == ["\n0123456789.,!?_#'\"/\\-:()"[c - 7]] + Read(abbr, 0, high, rest)
  {
    hide Read;
    assert [5, c] + rest == [5] + ([c] + rest);
    ReadPrefix(abbr, 0, high, 5, [c] + rest);
    ReadPrefix(abbr, 2, high, c, rest);
    LastRow(c);
  }

  lemma LastRow(c: int)
    requires 7 <= c < 32
    ensures A2[c] == "\n0123456789.,!?_#'\"/\\-:()"[c - 7]
  {
    assert A2[7..] == "\n0123456789.,!?_#'\"/\\-:()";
  }

  /** Of two shifts in a row the second counts. */
  lemma LastShift(abbr: Abbreviations, high: int, s: int, t: int, rest: seq<int>)
    requires 4 <= s <= 5 && 4 <= t <= 5
    ensures Read(abbr, 0, high, [s, t] + rest) == Read(abbr, 0, high, [t] + rest)
  {
    hide Read;
    assert [s, t] + rest == [s] + ([t] + rest);
    ReadPrefix(abbr, 0, high, s, [t] + rest);
    ReadPrefix(abbr, s - 3, high, t, rest);
    ReadPrefix(abbr, 0, high, t, rest);
  }

  /** Z-characters 1 to 3 begin an abbreviation; each has thirty-two of them. */
  lemma AbbreviationMeans(abbr: Abbreviations, high: int, a: int, c: int, rest: seq<int>)
    requires 1 <= a <= 3
    ensures Read(abbr, 0, high, [a, c] + rest) == abbr(32 * (a - 1) + c) + Read(abbr, 0, high, rest)
  {
    hide Read;
    assert [a, c] + rest == [a] + ([c] + rest);
    ReadPrefix(abbr, 0, high, a, [c] + rest);
    ReadPrefix(abbr, a + 2, high, c, rest);
  }

  /** After 5 and 6, two Z-characters are the halves of one character's number. */
  lemma EscapeMeans(abbr: Abbreviations, high: int, x: int, y: int, rest: seq<int>)
    requires 0 <= x < 32 && 0 <= y < 32
    ensures Read(abbr, 0, high, [5, 6, x, y] + rest) == [(32 * x + y) as char] + Read(abbr, 0, high, rest)
  {
    hide Read;
    assert [5, 6, x, y] + rest == [5] + ([6] + ([x] + ([y] + rest)));
    ReadPrefix(abbr, 0, high, 5, [6] + ([x] + ([y] + rest)));
    ReadPrefix(abbr, 2, high, 6, [x] + ([y] + rest));
    ReadPrefix(abbr, 6, high, x, [y] + rest);
    ReadPrefix(abbr, 7, x, y, rest);
    HighUnused(abbr, 0, x, high, rest);
  }

  /** A shifted space comes out as the character 0, where the Standard has a space in every row. */
  lemma ShiftedSpace(abbr: Abbreviations, high: int, s: int, rest: seq<int>)
    requires 4 <= s <= 5
    ensures Read(abbr, 0, high, [s, 0] + rest) == ['\0'] + Read(abbr, 0, high, rest)
  {
    hide Read;
    assert [s, 0] + rest == [s] + ([0] + rest);
    ReadPrefix(abbr, 0, high, s, [0] + rest);
    ReadPrefix(abbr, s - 3, high, 0, rest);
  }

  /* Keys. */

  lemma {:induction false} ReadFives(abbr: Abbreviations, mode: int, high: int, n: nat)
    requires mode == 0 || mode == 2
    ensures Read(abbr, mode, high, Fives(n)) == []
    decreases n
  {
    if n > 0 {
      assert Fives(n)[1..] == Fives(n - 1);
      ReadFives(abbr, 2, high, n - 1);
    }
  }

  lemma ReadCode(abbr: Abbreviations, high: int, x: char, rest: seq<int>)
    requires Known(x)
    ensures Read(abbr, 0, high, Code(x) + rest) == [Lower(x)] + Read(abbr, 0, high, rest)
  {
    var zs := Code(x) + rest;
    if |Code(x)| == 2 {
      assert zs[1..] == [Code(x)[1]] + rest;
      assert zs[1..][1..] == rest;
      assert Alphabet(2, Code(x)[1]) == Lower(x);
      assert Read(abbr, 0, high, zs) == [] + Read(abbr, 2, high, zs[1..]);
    } else {
      assert zs[1..] == rest;
      assert Alphabet(0, Code(x)[0]) == Lower(x);
    }
  }

  /** Reading a key's Z-characters gives back, in lower case, as much of the word as fits. */
  lemma {:induction false} ReadBack(abbr: Abbreviations, high: int, w: seq<char>, max: nat)
    requires forall i :: 0 <= i < |w| ==> Known(w[i])
    ensures Read(abbr, 0, high, Chars(w, max)) == LowerAll(w[..Fit(w, max)])
  {
    hide Read, ReadChar, Known, Code, Lower;
    if w == [] {
      assert Chars(w, max) == Fives(max);
      ReadFives(abbr, 0, high, max);
    } else if |Code(w[0])| <= max {
      CharsRest(w, max);
      ReadCode(abbr, high, w[0], Chars(w[1..], max - |Code(w[0])|));
      ReadBack(abbr, high, w[1..], max - |Code(w[0])|);
      assert w[..Fit(w, max)][1..] == w[1..][..Fit(w[1..], max - |Code(w[0])|)];
    } else {
      NoRoom(w, max);
      ReadFives(abbr, 0, high, max);
    }
  }

  /** What is left of a character that does not fit looks like filling. */
  lemma NoRoom(w: seq<char>, max: nat)
    requires w != [] && |Code(w[0])| > max
    ensures Chars(w, max) == Fives(max)
  {
    var s := Stream(w) + Fives(max);
    assert s[0] == Code(w[0])[0];
    forall i | 0 <= i < max ensures s[i] == 5 {
    }
  }

  /** Z-characters depend only on what fits, in lower case. */
  lemma {:induction false} CharsOfFit(w: seq<char>, v: seq<char>, max: nat)
    requires LowerAll(w[..Fit(w, max)]) == LowerAll(v[..Fit(v, max)])
    ensures Chars(w, max) == Chars(v, max)
  {
    hide Code, Known;
    if Fit(w, max) == 0 {
      NothingFits(w, max);
      NothingFits(v, max);
    } else {
      var n := |Code(w[0])|;
      assert LowerAll(w[..Fit(w, max)])[0] == Lower(w[0]) && LowerAll(v[..Fit(v, max)])[0] == Lower(v[0]);
      SameCode(w[0], v[0]);
      CharsRest(w, max);
      CharsRest(v, max);
      LowerRest(w, max);
      LowerRest(v, max);
      CharsOfFit(w[1..], v[1..], max - n);
    }
  }

  lemma LowerRest(w: seq<char>, max: nat)
    requires Fit(w, max) > 0
    ensures LowerAll(w[..Fit(w, max)])[1..] == LowerAll(w[1..][..Fit(w[1..], max - |Code(w[0])|)])
  {
    assert w[..Fit(w, max)][1..] == w[1..][..Fit(w[1..], max - |Code(w[0])|)];
  }

  lemma SameCode(x: char, y: char)
    requires Lower(x) == Lower(y)
    ensures Code(x) == Code(y)
  {
  }

  lemma NothingFits(w: seq<char>, max: nat)
    requires Fit(w, max) == 0
    ensures Chars(w, max) == Fives(max)
  {
    if w == [] {
      assert Stream(w) + Fives(max) == Fives(max);
    } else {
      NoRoom(w, max);
    }
  }

  /* Three Z-characters go into two bytes; the last pair is marked in its top bit. */

  function Pack3(a: int, b: int, c: int, last: bool): (r: seq<int>)
    ensures |r| == 2
  {
    var t := a * 1024 + b * 32 + c;
    [t / 256 + (if last then 128 else 0), t % 256]
  }

  function Unpack2(hi: int, lo: int): (r: seq<int>)
    ensures |r| == 3
  {
    [hi / 4 % 32, hi % 4 * 8 + lo / 32, lo % 32]
  }

  predicate Small(zs: seq<int>) { forall i :: 0 <= i < |zs| ==> 0 <= zs[i] < 32 }

  function Pack(zs: seq<int>): (r: seq<int>)
    requires |zs| % 3 == 0
    ensures |r| == |zs| / 3 * 2
  {
    if zs == [] then [] else Pack3(zs[0], zs[1], zs[2], |zs| == 3) + Pack(zs[3..])
  }

  /** All Z-characters up to the first marked pair. */
  function Unpack(bytes: seq<int>): seq<int> {
    if |bytes| < 2 then []
    else Unpack2(bytes[0], bytes[1]) + if bytes[0] >= 128 then [] else Unpack(bytes[2..])
  }

  lemma By256(q: int, r: int)
    requires 0 <= r < 256
    ensures (256 * q + r) / 256 == q && (256 * q + r) % 256 == r
  {
  }

  lemma By32(q: int, r: int)
    requires 0 <= r < 32
    ensures (32 * q + r) / 32 == q && (32 * q + r) % 32 == r
  {
  }

  lemma By4(q: int, r: int)
    requires 0 <= r < 4
    ensures (4 * q + r) / 4 == q && (4 * q + r) % 4 == r
  {
  }

  lemma PackThree(a: int, b: int, c: int, last: bool)
    requires 0 <= a < 32 && 0 <= b < 32 && 0 <= c < 32
    ensures var r := Pack3(a, b, c, last);
            && 0 <= r[0] < 256 && 0 <= r[1] < 256 && (r[0] >= 128 <==> last) && Unpack2(r[0], r[1]) == [a, b, c]
  {
    var high, low := b / 8, b % 8;
    assert b == 8 * high + low && 0 <= high < 4;
    By256(4 * a + high, 32 * low + c);
    assert a * 1024 + b * 32 + c == 256 * (4 * a + high) + (32 * low + c);
    By4(a, high);
    By4(a + 32, high);
    By32(low, c);
    By32(0, a);
    By32(1, a);
  }

  /** Unpacking undoes packing, whatever follows. */
  lemma {:induction false} UnpackPack(zs: seq<int>, more: seq<int>)
    requires |zs| % 3 == 0 && zs != [] && Small(zs)
    ensures Unpack(Pack(zs) + more) == zs
    ensures forall i :: 0 <= i < |Pack(zs)| ==> 0 <= Pack(zs)[i] < 256
  {
    hide Pack3, Unpack2;
    PackThree(zs[0], zs[1], zs[2], |zs| == 3);
    var front, rest := Pack3(zs[0], zs[1], zs[2], |zs| == 3), zs[3..];
    assert (front + Pack(rest) + more)[2..] == Pack(rest) + more;
    assert zs == [zs[0], zs[1], zs[2]] + rest;
    if |zs| > 3 {
      UnpackPack(rest, more);
    }
  }

  /** The dictionary key of a word, of six or nine Z-characters. */
  function Key(w: seq<char>, max: nat): (r: seq<int>)
    requires max % 3 == 0
    ensures |r| == max / 3 * 2
  {
    Pack(Chars(w, max))
  }

  lemma {:induction false} StreamSmall(w: seq<char>)
    ensures Small(Stream(w))
  {
    if w != [] {
      StreamSmall(w[1..]);
    }
  }

  lemma CharsSmall(w: seq<char>, max: nat)
    ensures Small(Chars(w, max))
  {
    StreamSmall(w);
  }

  /** Reading a key gives back the longest prefix of the word that fits, in lower case. */
  lemma KeyReadsBack(abbr: Abbreviations, w: seq<char>, max: nat, more: seq<int>)
    requires max % 3 == 0 && max > 0 && forall i :: 0 <= i < |w| ==> Known(w[i])
    ensures Read(abbr, 0, 0, Unpack(Key(w, max) + more)) == LowerAll(w[..Fit(w, max)])
  {
    CharsSmall(w, max);
    UnpackPack(Chars(w, max), more);
    ReadBack(abbr, 0, w, max);
  }

  /** Two words have the same key exactly when as much of them as fits is the same but for case. */
  lemma SameKey(w: seq<char>, v: seq<char>, max: nat)
    requires max % 3 == 0 && max > 0
    requires (forall i :: 0 <= i < |w| ==> Known(w[i])) && forall i :: 0 <= i < |v| ==> Known(v[i])
    ensures Key(w, max) == Key(v, max) <==> LowerAll(w[..Fit(w, max)]) == LowerAll(v[..Fit(v, max)])
  {
    KeyReadsBack(n => [], w, max, []);
    KeyReadsBack(n => [], v, max, []);
    if LowerAll(w[..Fit(w, max)]) == LowerAll(v[..Fit(v, max)]) {
      CharsOfFit(w, v, max);
    }
  }
}
