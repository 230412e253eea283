/** encode, find_token and _ZSCII of hiptop/zmachine/ZMachine.java, in place on their buffers. */
module ZDictionary {
  import opened ZText

  /** The first difference decides; 0 when all bytes agree. */
  function Compare(a: seq<int>, b: seq<int>): int
    requires |a| == |b|
  {
    if a == [] then 0 else if a[0] != b[0] then a[0] - b[0] else Compare(a[1..], b[1..])
  }

  lemma {:induction false} CompareFirst(a: seq<int>, b: seq<int>, i: nat)
    requires |a| == |b| && i <= |a| && a[..i] == b[..i]
    ensures i == |a| ==> Compare(a, b) == 0 && a == b
    ensures i < |a| && a[i] != b[i] ==> Compare(a, b) == a[i] - b[i]
  {
    if i > 0 {
      assert a[0] == a[..i][0] == b[..i][0] == b[0];
      assert a[1..][..i - 1] == a[..i][1..] == b[..i][1..] == b[1..][..i - 1];
      CompareFirst(a[1..], b[1..], i - 1);
    }
  }

  lemma {:induction false} CompareOrder(a: seq<int>, b: seq<int>, c: seq<int>)
    requires |a| == |b| == |c|
    ensures Compare(a, b) == 0 <==> a == b
    ensures Compare(a, b) > 0 && Compare(c, b) <= 0 ==> Compare(a, c) > 0
    ensures Compare(a, b) < 0 && Compare(b, c) <= 0 ==> Compare(a, c) < 0
  {
    if a != [] {
      CompareOrder(a[1..], b[1..], c[1..]);
      assert a == b <==> a[0] == b[0] && a[1..] == b[1..];
    }
  }

  lemma {:induction false} StreamNext(w: seq<char>, k: nat)
    requires k < |w|
    ensures Stream(w[..k + 1]) == Stream(w[..k]) + Code(w[k])
  {
    hide Code;
    if k > 0 {
      StreamNext(w[1..], k - 1);
      assert w[..k][1..] == w[1..][..k - 1] && w[..k + 1][1..] == w[1..][..k];
    } else {
      assert w[..1][1..] == [] && w[..0] == [];
    }
  }

  lemma {:induction false} StreamPrefix(w: seq<char>, k: nat)
    requires k <= |w|
    ensures |Stream(w[..k])| <= |Stream(w)| && Stream(w)[..|Stream(w[..k])|] == Stream(w[..k])
    decreases |w| - k
  {
    if k < |w| {
      StreamPrefix(w, k + 1);
      StreamNext(w, k);
      assert Stream(w)[..|Stream(w[..k])|] == Stream(w)[..|Stream(w[..k + 1])|][..|Stream(w[..k])|];
    } else {
      assert w[..k] == w;
    }
  }

  /** The first i places hold the Z-characters of k characters of the word, and filling once it has ended. */
  ghost predicate Encoded(done: seq<int>, w: seq<char>, k: nat) {
    && k <= |w| && |Stream(w[..k])| <= |done| && (|Stream(w[..k])| < |done| ==> k == |w|)
    && done == Stream(w[..k]) + Fives(|done| - |Stream(w[..k])|)
  }

  lemma EncodedNext(done: seq<int>, w: seq<char>, k: nat)
    requires Encoded(done, w, k) && k < |w|
    ensures Encoded(done + Code(w[k]), w, k + 1)
  {
    hide Code;
    StreamNext(w, k);
  }

  lemma EncodedFill(done: seq<int>, w: seq<char>)
    requires Encoded(done, w, |w|)
    ensures Encoded(done + [5], w, |w|)
  {
    var n := |done| - |Stream(w[..|w|])|;
    assert Fives(n + 1) == Fives(n) + [5];
  }

  lemma EncodedAll(done: seq<int>, w: seq<char>, k: nat, max: nat)
    requires Encoded(done, w, k) && |done| >= max
    ensures done[..max] == Chars(w, max)
  {
    StreamPrefix(w, k);
    if k == |w| {
      assert w[..k] == w;
      var n := |done| - |Stream(w)|;
      forall i | 0 <= i < max ensures done[i] == (Stream(w) + Fives(max))[i] {
      }
    } else {
      assert done == Stream(w[..k]);
    }
  }

  /** Writes the Z-characters of a word into the work buffer, which has at least one place more than the key. */
  method Encode(input: seq<char>, off0: nat, len0: nat, out: array<int>, max: nat)
    requires off0 + len0 <= |input| && max < out.Length
    modifies out
    ensures out[..max] == Chars(input[off0..off0 + len0], max)
  {
    hide Encoded, Chars, Stream, Code, Mark;
    ghost var w, k := input[off0..off0 + len0], 0;
    var i, off := 0, off0;
    var len: int := len0;
    EncodedNone(w);
    while i < max
      invariant 0 <= i <= max + 1 && 0 <= k <= |w| && off == off0 + k && (k < |w| ==> len == |w| - k)
      invariant (k == |w| ==> len <= 0)
      invariant Encoded(out[..i], w, k)
      decreases max - i
    {
      ghost var done := out[..i];
      len := len - 1;
      if len >= 0 {
        EncodedNext(done, w, k);
        i := EncodeOne(input[off], out, i);
        off, k := off + 1, k + 1;
      } else {
        EncodedFill(done, w);
        out[i] := 5;
        assert out[..i + 1] == done + [5];
        i := i + 1;
      }
    }
    EncodedAll(out[..i], w, k, max);
    assert out[..i][..max] == out[..max];
  }

  lemma EncodedNone(w: seq<char>)
    ensures Encoded([], w, 0)
  {
  }

  /** The one or two places for a character. */
  method EncodeOne(x: char, out: array<int>, i0: nat) returns (i: nat)
    requires i0 + 1 < out.Length
    modifies out
    ensures i == i0 + |Code(x)| && out[..i] == old(out[..i0]) + Code(x)
  {
    i := i0;
    if 'a' <= x <= 'z' {
      out[i] := x as int - ('a' as int - 6);
    } else if 'A' <= x <= 'Z' {
      out[i] := x as int - ('A' as int - 6);
    } else if '0' <= x <= '9' {
      out[i] := 5;
      i := i + 1;
      out[i] := x as int - ('0' as int - 8);
    } else {
      out[i] := 5;
      i := i + 1;
      out[i] := Mark(x);
    }
    i := i + 1;
  }

  /** Packs the six or nine Z-characters in the work buffer into its first bytes. */
  method PackInPlace(buf: array<int>, v3: bool)
    requires buf.Length >= 9 && Small(buf[..if v3 then 6 else 9])
    modifies buf
    ensures buf[..if v3 then 4 else 6] == Pack(old(buf[..if v3 then 6 else 9]))
  {
    PackSteps(buf[..6], buf[..9], v3);
    var t := buf[0] * 1024 + buf[1] * 32 + buf[2];
    buf[0] := t / 256;
    buf[1] := t % 256;
    t := buf[3] * 1024 + buf[4] * 32 + buf[5];
    buf[2] := t / 256;
    buf[3] := t % 256;
    if v3 {
      buf[2] := buf[2] + 128;
    } else {
      t := buf[6] * 1024 + buf[7] * 32 + buf[8];
      buf[4] := t / 256 + 128;
      buf[5] := t % 256;
    }
  }

  lemma PackSteps(six: seq<int>, nine: seq<int>, v3: bool)
    requires |six| == 6 && |nine| == 9
    ensures Pack(six) == Pack3(six[0], six[1], six[2], false) + Pack3(six[3], six[4], six[5], true)
    ensures Pack(nine) == Pack3(nine[0], nine[1], nine[2], false) + Pack3(nine[3], nine[4], nine[5], false)
      + Pack3(nine[6], nine[7], nine[8], true)
  {
    hide Pack3;
    assert Pack(six[3..]) == Pack3(six[3], six[4], six[5], true) + Pack(six[3..][3..]);
    assert Pack(nine[3..][3..]) == Pack3(nine[6], nine[7], nine[8], true) + Pack(nine[3..][3..][3..]);
  }

  /** A dictionary of count entries of which the first bytes are keys, in order. */
  ghost predicate Dictionary(mem: seq<int>, dict: int, entry: int, count: nat, keySize: nat) {
    && dict > 0 && entry >= keySize && dict + entry * count <= |mem|
    && forall i, j :: 0 <= i < j < count ==>
      Compare(KeyAt(mem, dict, entry, i, keySize), KeyAt(mem, dict, entry, j, keySize)) <= 0
  }

  function KeyAt(mem: seq<int>, dict: int, entry: int, pos: int, keySize: nat): (r: seq<int>)
    ensures |r| == keySize
  {
    var t := dict + entry * pos;
    if 0 <= t && t + keySize <= |mem| then mem[t..t + keySize] else seq(keySize, i => 0)
  }

  lemma EntryInside(dict: int, entry: int, pos: nat, count: nat, size: int)
    requires entry >= 0 && pos < count && dict + entry * count <= size
    ensures dict + entry * pos + entry <= size && entry * pos >= 0
  {
    assert entry * count == entry * pos + entry + entry * (count - pos - 1);
    assert entry * (count - pos - 1) >= 0;
  }

  /** Compares the key with an entry, byte by byte up to the first difference. */
  method CompareAt(mem: array<int>, t: int, key: seq<int>) returns (n: int)
    requires 0 <= t && t + |key| <= mem.Length
    ensures n == Compare(key, mem[t..t + |key|])
  {
    n := 0;
    var i := 0;
    while i < |key|
      invariant 0 <= i <= |key| && n == 0 && key[..i] == mem[t..t + |key|][..i]
    {
      n := key[i] - mem[t + i];
      CompareFirst(key, mem[t..t + |key|], i);
      if n != 0 {
        return;
      }
      i := i + 1;
    }
    CompareFirst(key, mem[t..t + |key|], i);
  }

  /** Is the key that of some entry? */
  ghost predicate Listed(mem: seq<int>, dict: int, entry: int, count: nat, key: seq<int>) {
    exists pos :: 0 <= pos < count && KeyAt(mem, dict, entry, pos, |key|) == key
  }

  /** Binary search: the address of an entry with the key, or 0 exactly when there is none. */
  method Search(mem: array<int>, dict: int, entry: int, count: nat, key: seq<int>) returns (token: int)
    requires Dictionary(mem[..], dict, entry, count, |key|)
    ensures token != 0 <==> Listed(mem[..], dict, entry, count, key)
    ensures token != 0 ==>
      exists pos :: 0 <= pos < count && token == dict + entry * pos && KeyAt(mem[..], dict, entry, pos, |key|) == key
  {
    hide Compare, Listed;
    var low, high := -1, count;
    while high - low > 1
      invariant -1 <= low < high <= count
      invariant forall p :: 0 <= p <= low ==> Compare(key, KeyAt(mem[..], dict, entry, p, |key|)) > 0
      invariant forall p :: high <= p < count ==> Compare(key, KeyAt(mem[..], dict, entry, p, |key|)) < 0
    {
      var pos := (high + low) / 2;
      EntryInside(dict, entry, pos, count, mem.Length);
      var t := dict + entry * pos;
      var n := CompareAt(mem, t, key);
      assert KeyAt(mem[..], dict, entry, pos, |key|) == mem[t..t + |key|];
      if n == 0 {
        FoundListed(mem[..], dict, entry, count, key, pos);
        return t;
      } else if n > 0 {
        forall p | 0 <= p <= pos ensures Compare(key, KeyAt(mem[..], dict, entry, p, |key|)) > 0 {
          CompareOrder(key, KeyAt(mem[..], dict, entry, pos, |key|), KeyAt(mem[..], dict, entry, p, |key|));
        }
        low := pos;
      } else {
        forall p | pos <= p < count ensures Compare(key, KeyAt(mem[..], dict, entry, p, |key|)) < 0 {
          CompareOrder(key, KeyAt(mem[..], dict, entry, pos, |key|), KeyAt(mem[..], dict, entry, p, |key|));
        }
        high := pos;
      }
    }
    NotListed(mem[..], dict, entry, count, key);
    token := 0;
  }

  lemma FoundListed(mem: seq<int>, dict: int, entry: int, count: nat, key: seq<int>, pos: nat)
    requires pos < count && Compare(key, KeyAt(mem, dict, entry, pos, |key|)) == 0
    ensures Listed(mem, dict, entry, count, key) && KeyAt(mem, dict, entry, pos, |key|) == key
  {
    CompareOrder(key, KeyAt(mem, dict, entry, pos, |key|), key);
  }

  lemma NotListed(mem: seq<int>, dict: int, entry: int, count: nat, key: seq<int>)
    requires forall p :: 0 <= p < count ==> Compare(key, KeyAt(mem, dict, entry, p, |key|)) != 0
    ensures !Listed(mem, dict, entry, count, key)
  {
    forall p | 0 <= p < count ensures KeyAt(mem, dict, entry, p, |key|) != key {
      CompareOrder(key, KeyAt(mem, dict, entry, p, |key|), key);
    }
  }

  /** Looks a word up and writes where its entry is, how long the word is and where it stands in the line. */
  method FindToken(mem: array<int>, dict: int, entry: int, count: nat, v3: bool, data: seq<char>, off: nat, len: nat,
                   parse: nat, buf: array<int>) returns (token: int)
    requires Dictionary(mem[..], dict, entry, count, if v3 then 4 else 6)
    requires buf != mem && buf.Length == 16 && off + len <= |data| && parse + 4 <= mem.Length
    modifies buf, mem
    ensures var key := Key(data[off..off + len], if v3 then 6 else 9);
            && (token != 0 <==> Listed(old(mem[..]), dict, entry, count, key))
            && (token != 0 ==> exists pos | 0 <= pos < count ::
                  token == dict + entry * pos && KeyAt(old(mem[..]), dict, entry, pos, |key|) == key)
    ensures mem[parse] == token / 256 % 256 && mem[parse + 1] == token % 256 && mem[parse + 2] == len % 256
    ensures mem[parse + 3] == (off + 1) % 256
    ensures forall a :: 0 <= a < mem.Length && !(parse <= a < parse + 4) ==> mem[a] == old(mem[a])
  {
    hide Listed, Compare, Chars, Pack;
    Encode(data, off, len, buf, if v3 then 6 else 9);
    CharsSmall(data[off..off + len], if v3 then 6 else 9);
    PackInPlace(buf, v3);
    var key := buf[..if v3 then 4 else 6];
    token := Search(mem, dict, entry, count, key);
    mem[parse] := token / 256 % 256;
    mem[parse + 1] := token % 256;
    mem[parse + 2] := len % 256;
    mem[parse + 3] := (off + 1) % 256;
  }

  /** The text starting at ptr ends: some pair from there on is marked. */
  ghost predicate Ends(mem: seq<int>, ptr: nat, n: nat) {
    ptr + 2 * n + 2 <= |mem| && mem[ptr + 2 * n] >= 128
  }

  /** Reads packed text up to its marked end; the characters it adds to the buffer are what Read says. */
  method ReadText(abbr: Abbreviations, mem: array<int>, ptr0: nat) returns (text: seq<char>, ptr: nat)
    requires exists n: nat :: Ends(mem[..], ptr0, n)
    ensures text == Read(abbr, 0, 0, Unpack(mem[ptr0..])) && ptr0 + 2 <= ptr <= mem.Length && mem[ptr - 2] >= 128
  {
    hide Read, ReadChar, Unpack, Unpack2;
    ghost var n: nat :| Ends(mem[..], ptr0, n);
    ghost var all, k: nat := Read(abbr, 0, 0, Unpack(mem[ptr0..])), 0;
    text, ptr := [], ptr0;
    var mode, high := 0, 0;
    while true
      invariant k <= n && ptr == ptr0 + 2 * k && text + Read(abbr, mode, high, Unpack(mem[ptr..])) == all
      decreases n - k
    {
      var a, b := mem[ptr], mem[ptr + 1];
      ghost var before, rest := text, if a >= 128 then [] else Unpack(mem[ptr + 2..]);
      ReadPair(abbr, mode, high, mem[ptr..], mem[ptr + 2..]);
      ptr := ptr + 2;
      var r0 := ReadChar(abbr, mode, high, a / 4 % 32);
      var r1 := ReadChar(abbr, r0.1, r0.2, a % 4 * 8 + b / 32);
      var r2 := ReadChar(abbr, r1.1, r1.2, b % 32);
      text := text + (r0.0 + (r1.0 + r2.0));
      mode, high := r2.1, r2.2;
      Regroup(before, r0.0 + (r1.0 + r2.0), Read(abbr, mode, high, rest));
      if a >= 128 {
        ReadNothing(abbr, mode, high);
        break;
      }
      k := k + 1;
    }
  }

  lemma PairParts(a: int, b: int)
    ensures Unpack2(a, b) == [a / 4 % 32, a % 4 * 8 + b / 32, b % 32]
  {
  }

  lemma Regroup(a: seq<char>, b: seq<char>, c: seq<char>)
    ensures a + (b + c) == (a + b) + c
  {
  }

  /** What reading one pair of bytes adds. */
  lemma ReadPair(abbr: Abbreviations, mode: int, high: int, bytes: seq<int>, rest: seq<int>)
    requires |bytes| >= 2 && bytes[2..] == rest
    ensures var a, b := bytes[0], bytes[1];
            var r0 := ReadChar(abbr, mode, high, a / 4 % 32);
            var r1 := ReadChar(abbr, r0.1, r0.2, a % 4 * 8 + b / 32);
            var r2 := ReadChar(abbr, r1.1, r1.2, b % 32);
            Read(abbr, mode, high, Unpack(bytes))
              == (r0.0 + (r1.0 + r2.0)) + Read(abbr, r2.1, r2.2, if a >= 128 then [] else Unpack(rest))
  {
    hide Read, ReadChar, Unpack, Unpack2;
    UnpackNext(bytes, rest);
    PairParts(bytes[0], bytes[1]);
    ReadThree(abbr, mode, high, Unpack2(bytes[0], bytes[1]), if bytes[0] >= 128 then [] else Unpack(rest));
  }

  lemma ReadNothing(abbr: Abbreviations, mode: int, high: int)
    ensures Read(abbr, mode, high, []) == []
  {
  }

  lemma UnpackNext(bytes: seq<int>, rest: seq<int>)
    requires |bytes| >= 2 && bytes[2..] == rest
    ensures Unpack(bytes) == Unpack2(bytes[0], bytes[1]) + (if bytes[0] >= 128 then [] else Unpack(rest))
  {
  }

  lemma ReadOne(abbr: Abbreviations, mode: int, high: int, c: int, rest: seq<int>)
    ensures var r := ReadChar(abbr, mode, high, c);
      Read(abbr, mode, high, [c] + rest) == r.0 + Read(abbr, r.1, r.2, rest)
  {
    hide ReadChar;
    assert ([c] + rest)[1..] == rest;
  }

  lemma ReadThree(abbr: Abbreviations, mode: int, high: int, three: seq<int>, rest: seq<int>)
    requires |three| == 3
    ensures var r0 := ReadChar(abbr, mode, high, three[0]);
            var r1 := ReadChar(abbr, r0.1, r0.2, three[1]);
            var r2 := ReadChar(abbr, r1.1, r1.2, three[2]);
            Read(abbr, mode, high, three + rest) == (r0.0 + (r1.0 + r2.0)) + Read(abbr, r2.1, r2.2, rest)
  {
    hide ReadChar, Read;
    var r0 := ReadChar(abbr, mode, high, three[0]);
    var r1 := ReadChar(abbr, r0.1, r0.2, three[1]);
    var r2 := ReadChar(abbr, r1.1, r1.2, three[2]);
    var last := Read(abbr, r2.1, r2.2, rest);
    ReadOne(abbr, mode, high, three[0], [three[1]] + ([three[2]] + rest));
    ReadOne(abbr, r0.1, r0.2, three[1], [three[2]] + rest);
    ReadOne(abbr, r1.1, r1.2, three[2], rest);
    assert three + rest == [three[0]] + ([three[1]] + ([three[2]] + rest));
    assert r0.0 + (r1.0 + (r2.0 + last)) == (r0.0 + (r1.0 + r2.0)) + last;
  }
}
