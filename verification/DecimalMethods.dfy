/** The loops of hiptop/rpn/hipfloat.java: normalising, adding, printing into a buffer and parsing. */
module DecimalMethods {
  import opened Decimal
  import opened DecimalOps
  import opened DecimalText
  import DecimalReading

  /** Brings a mantissa into range: with ints every digit dropped rounds, with longs only the last. */
  method Normalize(m0: int, e0: int, ints: bool) returns (r: Num)
    ensures r == Make(m0, e0, ints)
  {
    var m, e := m0, e0;
    while e < MIN_EXP && m != 0
      invariant Lift(m, e) == Lift(m0, e0)
      decreases MIN_EXP - e
    {
      e, m := e + 1, Tenth(m);
    }
    if m == 0 {
      return Num(0, -8);
    }
    while Abs(m) >= HIGH && e < MAX_EXP
      invariant Shrink(m, e, ints) == Shrink(Lift(m0, e0).0, Lift(m0, e0).1, ints)
      decreases MAX_EXP - e
    {
      if (ints || Abs(m) < 10 * HIGH) && LastDigit(m) >= 5 {
        m := m + 10;
      }
      m, e := Tenth(m), e + 1;
    }
    ghost var shrunk := Shrink(Lift(m0, e0).0, Lift(m0, e0).1, ints);
    while Abs(m) < LOW && e > MIN_EXP
      invariant Grow(m, e) == Grow(shrunk.0, shrunk.1)
      decreases e - MIN_EXP
    {
      m, e := m * 10, e - 1;
    }
    if e > MAX_EXP || m >= HIGH {
      return Overflow;
    }
    r := Num(m, e);
  }

  /** The sum, with the smaller exponent brought up to the larger. */
  method AddNumbers(x: Num, y: Num) returns (r: Num)
    ensures r == Add(x, y)
    decreases if x.Num? && y.Num? && y.e > x.e then 1 else 0
  {
    if Bad(x) {
      return x;
    }
    if Bad(y) {
      return y;
    }
    if x.m == 0 {
      return y;
    }
    if y.m == 0 {
      return x;
    }
    if y.e > x.e {
      r := AddNumbers(y, x);
      return;
    }
    var m, e := y.m, y.e;
    while e < x.e - 1
      invariant e <= x.e && (y.e < x.e ==> e <= x.e - 1) && (y.e == x.e ==> e == x.e && m == y.m)
      invariant y.e < x.e ==> Drop(m, x.e - 1 - e) == Drop(y.m, x.e - 1 - y.e)
    {
      e, m := e + 1, Tenth(m);
    }
    if e == x.e - 1 {
      if LastDigit(m) >= 5 {
        m := m + 10;
      }
      m, e := Tenth(m), e + 1;
    }
    r := Normalize(x.m + m, x.e, true);
  }

  /* Printing. */

  /** Quotient and remainder. */
  function Over(a: int, i: int): int { if i == 0 then 0 else a / i }
  function Left(a: int, i: int): int { if i == 0 then 0 else a % i }

  /** n is its first digits, and a remainder of k digits. */
  function Rest(n: nat, k: nat): int { n - Scale(Drop(n, k), k) }

  lemma {:induction false} RestRange(n: nat, k: nat)
    ensures Drop(n, k) >= 0 && 0 <= Rest(n, k) < Scale(1, k)
  {
    if k > 0 {
      RestRange(n / 10, k - 1);
      var d := n % 10;
      assert n == 10 * (n / 10) + d;
      assert Rest(n, k) == 10 * Rest(n / 10, k - 1) + d;
    }
  }

  lemma {:induction false} DropMore(n: nat, k: nat)
    ensures Drop(n, k) >= 0 && Drop(n, k + 1) == Drop(n, k) / 10
  {
    if k > 0 {
      DropMore(n / 10, k - 1);
    }
  }

  lemma DivIs(n: int, i: int, u: int, r: int)
    requires i > 0 && n == u * i + r && 0 <= r < i
    ensures n / i == u && n % i == r
  {
    var d := n / i - u;
    assert d * i == r - n % i;
    Far(d, i);
  }

  lemma Far(d: int, i: int)
    requires i > 0
    ensures d >= 1 ==> d * i >= i
    ensures d <= -1 ==> d * i <= -i
  {
  }

  /** Dividing what is left by the weight of the next digit gives that digit, and what is left then. */
  lemma NextDigit(n: nat, k: nat)
    ensures Scale(1, k) > 0 && Over(Rest(n, k + 1), Scale(1, k)) == Drop(n, k) % 10
    ensures Left(Rest(n, k + 1), Scale(1, k)) == Rest(n, k)
  {
    hide Scale;
    RestRange(n, k);
    DropMore(n, k);
    var u, h := Drop(n, k) % 10, Drop(n, k + 1);
    assert Drop(n, k) == 10 * h + u;
    ScaleSum(10 * h, u, k);
    ScaleTenfold(h, k);
    ScaleTimes(u, k);
    DivIs(Rest(n, k + 1), Scale(1, k), u, Rest(n, k));
  }

  lemma {:induction false} DigitPlace(n: nat, k: nat, j: nat)
    requires j < k
    ensures Drop(n, k - 1 - j) >= 0 && DigitsOf(n, k)[j] == Digit(Drop(n, k - 1 - j) % 10)
    decreases k
  {
    RestRange(n, k - 1 - j);
    if j < k - 1 {
      DigitPlace(n / 10, k - 1, j);
      assert DigitsOf(n, k)[j] == DigitsOf(n / 10, k - 1)[j];
    }
  }

  /** The weight of the j-th of nine digits, and zero after the last. */
  function Weight(j: nat): int
    requires j <= 9
  {
    if j == 9 then 0 else Scale(1, 8 - j)
  }

  lemma WeightDown(j: nat)
    requires j < 9
    ensures Weight(j) > 0 && Weight(j) / 10 == Weight(j + 1)
  {
    ScaleSize(1, 8 - j);
    if j < 8 {
      TenthOfScale(7 - j);
    }
  }

  /** One digit: what it is, and what is left after it. */
  lemma DigitStep(n: nat, j: nat)
    requires j < 9 && n < HIGH
    ensures Weight(j) > 0 && Digit(Over(Rest(n, 9 - j), Weight(j))) == DigitsOf(n, 9)[j]
    ensures Left(Rest(n, 9 - j), Weight(j)) == Rest(n, 8 - j)
  {
    WeightDown(j);
    NextDigit(n, 8 - j);
    DigitPlace(n, 9, j);
  }

  lemma FirstRest(n: nat)
    requires n < HIGH
    ensures Rest(n, 9) == n && Weight(0) == LOW
  {
    TenPowers();
    RestRange(n, 9);
    if Drop(n, 9) > 0 {
      ScaleLess(1, Drop(n, 9), 9);
    }
    ScaleZero(9);
  }

  /** The mantissa's digits up to the j-th, with the point behind the digit of weight one. */
  function PlainUpTo(d: seq<char>, v: nat, j: nat): seq<char>
    requires j <= |d|
  {
    if j <= v + 1 then d[..j] else d[..v + 1] + ['.'] + d[v + 1..j]
  }

  lemma PlainNext(d: seq<char>, v: nat, j: nat)
    requires j < |d|
    ensures PlainUpTo(d, v, j + 1) == PlainUpTo(d, v, j) + (if j == v + 1 then ['.'] else []) + [d[j]]
  {
    if j == v + 1 {
      assert d[v + 1..j] == [];
    } else if j > v + 1 {
      assert d[v + 1..j + 1] == d[v + 1..j] + [d[j]];
    }
  }

  /** Puts one character at the end of the text in the buffer. */
  method Put(out: array<char>, len0: nat, c: char) returns (len: nat)
    requires len0 < out.Length
    modifies out
    ensures len == len0 + 1 && out[..len] == old(out[..len0]) + [c]
  {
    out[len0] := c;
    len := len0 + 1;
  }

  /** How many digits of the mantissa count. */
  method CountDigits(m: nat) returns (sigfig: nat)
    requires m < HIGH
    ensures sigfig == SigFigs(m, 1, LOW)
  {
    var i := LOW;
    sigfig := 1;
    while i > 0 && m % i != 0
      invariant i >= 0 && SigFigs(m, sigfig, i) == SigFigs(m, 1, LOW)
      decreases i
    {
      sigfig, i := sigfig + 1, i / 10;
    }
  }

  /** A digit, with the point before it when that is its place. */
  method PutDigit(out: array<char>, len0: nat, point: bool, c: char) returns (len: nat)
    requires len0 + 2 <= out.Length
    modifies out
    ensures len == len0 + (if point then 2 else 1)
    ensures out[..len] == old(out[..len0]) + ((if point then ['.'] else []) + [c])
  {
    len := len0;
    if point {
      len := Put(out, len, '.');
    }
    len := Put(out, len, c);
  }

  /** Prints the first sigfig digits with the point in its place. */
  method PutDigits(out: array<char>, len0: nat, frac0: nat, sigfig: nat, vexp0: nat) returns (len: nat)
    requires len0 + 20 <= out.Length && frac0 < HIGH && 1 <= sigfig <= 9
    modifies out
    ensures len0 <= len <= len0 + 18 && out[..len] == old(out[..len0]) + PlainUpTo(DigitsOf(frac0, 9), vexp0, sigfig)
  {
    hide Scale, DigitsOf, Rest, Zeros, Digit, Weight, PlainUpTo, Over, Left;
    ghost var d, before := DigitsOf(frac0, 9), out[..len0];
    len := len0;
    var frac, i, j := frac0, LOW, 0;
    FirstRest(frac0);
    NothingYet(d, vexp0);
    while j < sigfig
      invariant 0 <= j <= sigfig && frac == Rest(frac0, 9 - j) && i == Weight(j) && len0 <= len <= len0 + 2 * j
      invariant out[..len] == before + PlainUpTo(d, vexp0, j)
    {
      PlainNext(d, vexp0, j);
      DigitStep(frac0, j);
      WeightDown(j);
      ghost var text := PlainUpTo(d, vexp0, j);
      len := PutDigit(out, len, vexp0 - j == -1, Digit(Over(frac, i)));
      Regroup(before, text, if vexp0 - j == -1 then ['.'] else [], [d[j]]);
      frac, i, j := Left(frac, i), i / 10, j + 1;
    }
  }

  lemma Regroup(a: seq<char>, b: seq<char>, c: seq<char>, d: seq<char>)
    ensures (a + b) + (c + d) == a + ((b + c) + d)
  {
  }

  lemma NothingYet(d: seq<char>, v: nat)
    ensures PlainUpTo(d, v, 0) == []
  {
  }

  method PutZeros(out: array<char>, len0: nat, n: int) returns (len: nat)
    requires len0 + 10 <= out.Length && n <= 9
    modifies out
    ensures len0 <= len <= len0 + 9 && out[..len] == old(out[..len0]) + Zeros(if n >= 0 then n else 0)
  {
    ghost var before := out[..len0];
    len := len0;
    var left := n;
    ghost var z := 0;
    while left > 0
      invariant z >= 0 && (n >= 0 ==> left == n - z && left >= 0) && (n < 0 ==> z == 0) && len == len0 + z && z <= 9
      invariant out[..len] == before + Zeros(z)
    {
      len := Put(out, len, '0');
      left, z := left - 1, z + 1;
    }
  }

  /** Prints sigfig digits with the point in its place, and zeros up to it. */
  method PutPlain(out: array<char>, len0: nat, frac0: nat, sigfig: nat, vexp0: nat) returns (len: nat)
    requires len0 + 40 <= out.Length && frac0 < HIGH && 1 <= sigfig <= 9 && vexp0 <= 8
    modifies out
    ensures len <= out.Length && out[..len] == old(out[..len0]) + PlainDigits(frac0, sigfig, vexp0)
  {
    hide DigitsOf, Zeros, PlainUpTo, PlainDigits;
    ghost var before := out[..len0];
    len := PutDigits(out, len0, frac0, sigfig, vexp0);
    len := PutZeros(out, len, vexp0 - sigfig + 1);
    PlainWhole(frac0, sigfig, vexp0, if vexp0 + 1 >= sigfig then vexp0 + 1 - sigfig else 0);
  }

  lemma ZerosNone()
    ensures Zeros(0) == []
  {
  }

  lemma PlainWhole(frac: nat, s: nat, v: nat, z: nat)
    requires s <= 9 && v <= 8 && z == (if v + 1 >= s then v + 1 - s else 0)
    ensures PlainUpTo(DigitsOf(frac, 9), v, s) + Zeros(z) == PlainDigits(frac, s, v)
  {
    hide DigitsOf;
    ZerosNone();
  }

  /** What has been printed of an exponent when its last k digits are still to come. */
  function ExponentUpTo(v: nat, k: nat): seq<char> {
    if Drop(v, k) > 0 then Decimals(Drop(v, k)) else if k == 0 then ['0'] else []
  }

  /** Prints an exponent without leading zeros. */
  method PutExponent(out: array<char>, len0: nat, v: nat) returns (len: nat)
    requires len0 + 10 <= out.Length && v < 100000
    modifies out
    ensures len <= out.Length && out[..len] == old(out[..len0]) + Decimals(v)
  {
    hide Scale, Rest, Decimals, Digit, Drop, ExponentUpTo, Over, Left;
    ghost var before := out[..len0];
    len := len0;
    var vexp, i, printed := v, 10000, false;
    ghost var k: nat := 5;
    ExponentStart(v);
    while i > 0
      invariant k <= 5 && i == (if k == 0 then 0 else Scale(1, k - 1)) && vexp == Rest(v, k)
      invariant len0 <= len <= len0 + 5 - k
      invariant k > 0 ==> printed == (Drop(v, k) > 0)
      invariant out[..len] == before + ExponentUpTo(v, k)
      decreases k
    {
      ExponentStep(v, k - 1);
      if vexp >= i || i == 1 || printed {
        printed := true;
        len := Put(out, len, Digit(Over(vexp, i)));
      }
      vexp, i, k := Left(vexp, i), i / 10, k - 1;
    }
    if k > 0 {
      PowerFacts(k - 1);
    }
    ExponentDone(v);
  }

  lemma ExponentDone(v: nat)
    ensures ExponentUpTo(v, 0) == Decimals(v)
  {
  }

  lemma ExponentStart(v: nat)
    requires v < 100000
    ensures Scale(1, 4) == 10000 && Drop(v, 5) == 0 && Rest(v, 5) == v && ExponentUpTo(v, 5) == []
  {
    assert Scale(1, 1) == 10 && Scale(1, 2) == 100 && Scale(1, 3) == 1000;
    DropMore(v, 0);
    DropMore(v, 1);
    DropMore(v, 2);
    DropMore(v, 3);
    DropMore(v, 4);
    ScaleZero(5);
  }

  /** One digit of the exponent. */
  lemma ExponentStep(v: nat, k: nat)
    ensures Scale(1, k) > 0 && (Scale(1, k) == 1 <==> k == 0)
    ensures Scale(1, k) / 10 == (if k == 0 then 0 else Scale(1, k - 1))
    ensures Left(Rest(v, k + 1), Scale(1, k)) == Rest(v, k)
    ensures var put := Rest(v, k + 1) >= Scale(1, k) || k == 0 || Drop(v, k + 1) > 0;
            && (k > 0 ==> put == (Drop(v, k) > 0))
            && ExponentUpTo(v, k)
              == ExponentUpTo(v, k + 1) + (if put then [Digit(Over(Rest(v, k + 1), Scale(1, k)))] else [])
  {
    hide Scale, Rest, Drop;
    NextDigit(v, k);
    DropMore(v, k);
    RestRange(v, k);
    RestRange(v, k + 1);
    PowerFacts(k);
    RestSmall(v, k);
  }

  lemma PowerFacts(k: nat)
    ensures Scale(1, k) > 0 && (Scale(1, k) == 1 <==> k == 0)
    ensures Scale(1, k) / 10 == (if k == 0 then 0 else Scale(1, k - 1))
  {
    ScaleSize(1, k);
    if k > 0 {
      TenthOfScale(k - 1);
    }
  }

  lemma RestSmall(v: nat, k: nat)
    requires Drop(v, k) >= 0 && Scale(1, k) > 0
    ensures Rest(v, k + 1) >= Scale(1, k) <==> Drop(v, k) % 10 > 0
  {
    hide Scale;
    RestRange(v, k);
    DropMore(v, k);
    var u, h := Drop(v, k) % 10, Drop(v, k + 1);
    assert Drop(v, k) == 10 * h + u;
    ScaleSum(10 * h, u, k);
    ScaleTenfold(h, k);
    ScaleLess(1, u, k);
    ScaleZero(k);
  }

  /** The first j digits, with the point after the first. */
  function Mantissa(d: string, j: nat): string
    requires j <= |d|
  {
    if j == 0 then [] else d[..1] + ['.'] + d[1..j]
  }

  lemma MantissaNext(d: string, j: nat)
    requires j < |d|
    ensures Mantissa(d, j + 1) == Mantissa(d, j) + [d[j]] + (if j == 0 then ['.'] else [])
  {
    if j == 0 {
      assert d[1..1] == [];
    } else {
      assert d[1..j + 1] == d[1..j] + [d[j]];
    }
  }

  method PutMantissa(out: array<char>, len0: nat, frac0: nat) returns (len: nat)
    requires len0 + 10 <= out.Length && frac0 < HIGH
    modifies out
    ensures len == len0 + 10 && out[..len] == old(out[..len0]) + Mantissa(DigitsOf(frac0, 9), 9)
  {
    hide Scale, DigitsOf, Rest, Digit, Weight, Over, Left, Mantissa;
    ghost var d, before := DigitsOf(frac0, 9), out[..len0];
    len := len0;
    var frac, i := frac0, LOW;
    ghost var j := 0;
    FirstRest(frac0);
    MantissaNone(d);
    while i > 0
      invariant 0 <= j <= 9 && frac == Rest(frac0, 9 - j) && i == Weight(j)
      invariant len == len0 + j + (if j > 0 then 1 else 0)
      invariant out[..len] == before + Mantissa(d, j)
      decreases 9 - j
    {
      WeightAt(j);
      DigitStep(frac0, j);
      WeightDown(j);
      MantissaNext(d, j);
      len := Put(out, len, Digit(Over(frac, i)));
      if i == LOW {
        len := Put(out, len, '.');
      }
      frac, i, j := Left(frac, i), i / 10, j + 1;
    }
    WeightAt(j);
  }

  lemma MantissaNone(d: string)
    ensures Mantissa(d, 0) == []
  {
  }

  /** A number with an exponent. */
  method PutScientific(out: array<char>, len0: nat, frac0: nat, v: int) returns (len: nat)
    requires len0 + 40 <= out.Length && frac0 < HIGH && -100000 < v < 100000
    modifies out
    ensures len <= out.Length && out[..len] == old(out[..len0]) + Scientific(frac0, v)
  {
    hide Scale, DigitsOf, Digit, Decimals;
    ghost var d := DigitsOf(frac0, 9);
    len := PutMantissa(out, len0, frac0);
    len := Put(out, len, 'e');
    var vexp := v;
    if v < 0 {
      len := Put(out, len, '-');
      vexp := -v;
    } else {
      len := Put(out, len, '+');
    }
    len := PutExponent(out, len, vexp);
    assert d[1..9] == d[1..];
    assert Scientific(frac0, v) == d[..1] + ['.'] + d[1..] + ['e'] + ([if v < 0 then '-' else '+'] + Decimals(vexp));
  }

  lemma WeightAt(j: nat)
    requires j <= 9
    ensures (Weight(j) == LOW <==> j == 0) && (Weight(j) > 0 <==> j < 9)
  {
    TenPowers();
    if j < 9 {
      ScaleSize(1, 8 - j);
      if 0 < j {
        ScaleTwice(1, 8 - j, j);
        ScaleSize(Scale(1, 8 - j), j);
      }
    }
  }

  /** Prints a number into the buffer and returns how long the text is. */
  method ToCharArray(x: Num, scientific: bool, out: array<char>) returns (len: nat)
    requires Valid(x) && out.Length >= 64
    modifies out
    ensures len <= out.Length && out[..len] == Print(x, scientific)
  {
    hide Scale, DigitsOf, Zeros, PlainDigits, Scientific, SigFigs;
    len := 0;
    if x.m < 0 {
      len := Put(out, len, '-');
    }
    var frac, vexp := Abs(x.m), x.e + 8;
    if !scientific {
      var sigfig := CountDigits(frac);
      ghost var q := SigFigsAre(frac);
      if vexp == -1 && sigfig == 9 {
        len := Put(out, len, '0');
        len := Put(out, len, '.');
        vexp := 8;
      }
      if vexp <= 8 && vexp >= -9 + sigfig {
        ghost var z: nat := 0;
        ghost var frac0, sigfig0, vexp0 := frac, sigfig, vexp;
        while vexp < 0
          invariant 0 <= frac < HIGH && z >= 0 && vexp == vexp0 + z && sigfig == sigfig0 + z && (vexp0 >= 0 ==> z == 0)
          invariant (vexp0 < 0 ==> vexp <= 0)
          invariant Drop(frac, if vexp < 0 then -vexp else 0) == Drop(frac0, if vexp0 < 0 then -vexp0 else 0)
        {
          frac, vexp, sigfig, z := frac / 10, vexp + 1, sigfig + 1, z + 1;
        }
        ghost var before := out[..len];
        len := PutPlain(out, len, frac, sigfig, vexp);
        assert out[..len] == Print(x, scientific);
        return;
      }
    }
    len := PutScientific(out, len, frac, vexp);
  }

  /** Parses a trimmed text. */
  method FromString(text: seq<char>) returns (r: Num)
    ensures r == Parse(text)
  {
    hide Add, Mul, Make;
    var p := Start();
    var i := 0;
    while p.error == NoError && i < |text|
      invariant 0 <= i <= |text| && p == Feed(Start(), text[..i])
      decreases |text| - i
    {
      assert text[..i + 1][..i] == text[..i];
      p := Step(p, text[i]);
      i := i + 1;
    }
    DecimalReading.FeedError(p, text[i..]);
    FeedJoin(Start(), text[..i], text[i..]);
    assert text[..i] + text[i..] == text;
    r := Finish(p);
  }
}
