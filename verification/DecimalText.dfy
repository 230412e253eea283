/** Printing and parsing of hiptop/rpn/hipfloat.java: what is printed reads back as the same number. */
module DecimalText {
  import opened Decimal
  import opened DecimalOps

  function Digit(d: int): char { if 0 <= d <= 9 then ('0' as int + d) as char else '0' }

  /** The last k decimal digits of n. */
  function DigitsOf(n: nat, k: nat): (s: seq<char>)
    ensures |s| == k
  {
    if k == 0 then [] else DigitsOf(n / 10, k - 1) + [Digit(n % 10)]
  }

  /** The digits of n without leading zeros. */
  function Decimals(n: nat): (s: seq<char>)
    ensures |s| >= 1
  {
    if n < 10 then [Digit(n)] else Decimals(n / 10) + [Digit(n % 10)]
  }

  function Zeros(k: nat): (s: seq<char>)
    ensures |s| == k
  {
    if k == 0 then [] else Zeros(k - 1) + ['0']
  }

  /** How many of a mantissa's nine digits count: those up to the last that is not zero, and one at least. */
  function SigFigs(m: nat, s: nat, i: nat): nat
    decreases i
  {
    if i > 0 && m % i != 0 then SigFigs(m, s + 1, i / 10) else s
  }

  /** The first sigfig digits of frac, with the point after the digit of weight one, and zeros up to it. */
  function PlainDigits(frac: nat, sigfig: nat, vexp: nat): seq<char> {
    var d := DigitsOf(frac, 9);
    if sigfig <= 9 && sigfig > vexp + 1 then d[..vexp + 1] + ['.'] + d[vexp + 1..sigfig]
    else if sigfig <= vexp + 1 && sigfig <= 9 then d[..sigfig] + Zeros(vexp + 1 - sigfig)
    else d
  }

  function Scientific(frac: nat, vexp: int): seq<char> {
    var d := DigitsOf(frac, 9);
    d[..1] + ['.'] + d[1..] + ['e'] + (if vexp < 0 then ['-'] + Decimals(-vexp) else ['+'] + Decimals(vexp))
  }

  /** All but the sign; plain when that is wanted and nine digits do. */
  function Unsigned(frac: nat, exponent: int, scientific: bool): seq<char> {
    var vexp, sigfig := exponent + 8, SigFigs(frac, 1, LOW);
    if scientific then Scientific(frac, vexp)
    else if vexp == -1 && sigfig == 9 then ['0', '.'] + PlainDigits(frac, 9, 8)
    else if 0 <= vexp <= 8 then PlainDigits(frac, sigfig, vexp)
    else if -9 + sigfig <= vexp < 0 then PlainDigits(Abs(Drop(frac, -vexp)), sigfig - vexp, 0)
    else Scientific(frac, vexp)
  }

  function Print(x: Num, scientific: bool): seq<char>
    requires x.Num?
  {
    (if x.m < 0 then ['-'] else []) + Unsigned(Abs(x.m), x.e, scientific)
  }

  /* Parsing. */

  datatype Error = NoError | NotNumber | TooBig

  datatype Parser = Parser(state: int, neg: bool, expneg: bool, exp: int, dot: int, work: Num, error: Error)

  function Start(): Parser { Parser(0, false, false, 0, 0, Num(0, -8), NoError) }

  function DigitOf(c: char): int { c as int - '0' as int }

  predicate IsDigit(c: char) { '0' <= c <= '9' }

  /** A character of the mantissa. */
  function MantissaChar(p: Parser, c: char): Parser {
    if IsDigit(c) then
      if p.dot == 0 then p.(work := Add(Mul(p.work, Make(10, 0, true)), Make(DigitOf(c), 0, true)))
      else p.(work := Add(p.work, Make(DigitOf(c), p.dot, true)), dot := p.dot - 1)
    else if c == '.' && p.dot == 0 then p.(dot := -1)
    else if c == 'e' || c == 'E' then p.(state := 2)
    else p.(error := NotNumber)
  }

  /** A character of the exponent. */
  function ExponentChar(p: Parser, c: char): Parser {
    if IsDigit(c) then
      var exp := p.exp * 10 + DigitOf(c);
      p.(exp := exp, error := if exp > 10000 then TooBig else p.error)
    else p.(error := NotNumber)
  }

  function Step(p: Parser, c: char): Parser {
    if p.error != NoError then p
    else if p.state == 0 then
      if c == '-' then p.(state := 1, neg := true)
      else if c == '+' then p.(state := 1)
      else MantissaChar(p.(state := 1), c)
    else if p.state == 1 then MantissaChar(p, c)
    else if p.state == 2 then
      if c == '-' then p.(state := 3, expneg := true)
      else if c == '+' then p.(state := 3)
      else ExponentChar(p.(state := 3), c)
    else ExponentChar(p, c)
  }

  function Feed(p: Parser, s: seq<char>): Parser {
    if s == [] then p else Step(Feed(p, s[..|s| - 1]), s[|s| - 1])
  }

  function Finish(p: Parser): Num {
    if p.error == TooBig then Overflow
    else if p.error == NotNumber then NotANumber
    else
      var work := if p.neg then Neg(p.work) else p.work;
      var exp := if p.expneg then -p.exp else p.exp;
      if exp != 0 then Mul(work, Make(1, exp, true)) else work
  }

  function Parse(s: seq<char>): Num { Finish(Feed(Start(), s)) }

  lemma {:induction false} FeedJoin(p: Parser, a: seq<char>, b: seq<char>)
    ensures Feed(p, a + b) == Feed(Feed(p, a), b)
  {
    if b == [] {
      assert a + b == a;
    } else {
      assert (a + b)[..|a + b| - 1] == a + b[..|b| - 1];
      FeedJoin(p, a, b[..|b| - 1]);
    }
  }

  lemma FeedOne(p: Parser, c: char)
    ensures Feed(p, [c]) == Step(p, c)
  {
    assert [c][..0] == [];
  }

  /* Digits and their value. */

  /** The number n with the digits of s written after it. */
  function Append(n: nat, s: seq<char>): nat
    requires forall i :: 0 <= i < |s| ==> IsDigit(s[i])
  {
    if s == [] then n
    else
      assert IsDigit(s[|s| - 1]);
      10 * Append(n, s[..|s| - 1]) + DigitOf(s[|s| - 1])
  }

  lemma {:induction false} AppendJoin(n: nat, a: seq<char>, b: seq<char>)
    requires (forall i :: 0 <= i < |a| ==> IsDigit(a[i])) && forall i :: 0 <= i < |b| ==> IsDigit(b[i])
    ensures Append(n, a + b) == Append(Append(n, a), b)
  {
    if b == [] {
      assert a + b == a;
    } else {
      assert (a + b)[..|a + b| - 1] == a + b[..|b| - 1];
      AppendJoin(n, a, b[..|b| - 1]);
    }
  }

  lemma {:induction false} DigitsAre(n: nat, k: nat)
    ensures forall i :: 0 <= i < k ==> IsDigit(DigitsOf(n, k)[i])
  {
    if k > 0 {
      DigitsAre(n / 10, k - 1);
    }
  }

  lemma {:induction false} DigitsValue(n: nat, k: nat)
    requires n < Scale(1, k)
    ensures (forall i :: 0 <= i < k ==> IsDigit(DigitsOf(n, k)[i])) && Append(0, DigitsOf(n, k)) == n
  {
    DigitsAre(n, k);
    if k > 0 {
      DigitsValue(n / 10, k - 1);
      assert DigitsOf(n, k)[..k - 1] == DigitsOf(n / 10, k - 1);
    }
  }

  lemma {:induction false} DigitsPrefix(n: nat, k: nat, j: nat)
    requires j <= k
    ensures Drop(n, k - j) >= 0 && DigitsOf(n, k)[..j] == DigitsOf(Drop(n, k - j), j)
    decreases k
  {
    if j < k {
      DigitsPrefix(n / 10, k - 1, j);
      assert DigitsOf(n, k)[..j] == DigitsOf(n / 10, k - 1)[..j];
    }
  }

  lemma {:induction false} DecimalsValue(n: nat)
    ensures (forall i :: 0 <= i < |Decimals(n)| ==> IsDigit(Decimals(n)[i])) && Append(0, Decimals(n)) == n
  {
    if n < 10 {
      assert Decimals(n)[..0] == [];
    } else {
      DecimalsValue(n / 10);
      assert Decimals(n)[..|Decimals(n)| - 1] == Decimals(n / 10);
    }
  }

  lemma {:induction false} ZerosValue(n: nat, k: nat)
    ensures (forall i :: 0 <= i < k ==> IsDigit(Zeros(k)[i])) && Append(n, Zeros(k)) == Scale(n, k)
  {
    if k > 0 {
      ZerosValue(n, k - 1);
      assert Zeros(k)[..k - 1] == Zeros(k - 1);
    }
  }

  /* What parsing computes is exact. */

  /** The number n times ten to the e, in the form the arithmetic keeps it in. */
  function Canon(n: int, e: int): Num { Make(n, e, true) }

  lemma CanonForm(n: int, e: int) returns (j: nat)
    requires 0 < n < HIGH && -100 <= e <= 100
    ensures Canon(n, e) == Num(Scale(n, j), e - j) && LOW <= Scale(n, j) < HIGH && Valid(Canon(n, e)) && j <= 8
  {
    hide Lift, Shrink, Grow;
    NoLift(n, e);
    NoShrink(n, e, true);
    GrowScales(n, e);
    j := e - Grow(n, e).1;
    ScaleLow(n, j);
    GrowShort(n, e);
  }

  /** Nine digits are reached in eight steps. */
  lemma {:induction false} GrowShort(n: int, e: int)
    requires 0 < n < HIGH && e >= -1000
    ensures Grow(n, e).1 >= e - 8 && Grow(n, e).0 >= LOW
  {
    TenPowers();
    ScaleLess(1, n, 8);
    GrowFrom(n, e, 8);
  }

  lemma {:induction false} GrowFrom(n: int, e: int, k: nat)
    requires 0 < n && e - k > MIN_EXP && Scale(n, k) >= LOW
    ensures Grow(n, e).1 >= e - k && Grow(n, e).0 >= LOW
    decreases k
  {
    if n < LOW {
      ScaleTwice(n, 1, k - 1);
      assert Scale(n, 1) == 10 * Scale(n, 0);
      GrowFrom(n * 10, e - 1, k - 1);
    }
  }

  lemma ScaleLow(n: int, j: nat)
    ensures n > 0 ==> Scale(n, j) > 0
  {
    ScaleSize(n, j);
  }

  lemma CanonZero(e: int)
    requires e >= MIN_EXP
    ensures Canon(0, e) == Num(0, -8)
  {
  }

  /** Times ten, exactly. */
  lemma MulTen(n: int)
    requires 0 <= n && 10 * n < HIGH
    ensures Mul(Canon(n, 0), Make(10, 0, true)) == Canon(10 * n, 0)
  {
    var t := CanonForm(10, 0);
    TenIs(t);
    if n == 0 {
      CanonZero(0);
      MakeSign(0, -15, false);
    } else {
      hide Make, Scale;
      var j := CanonForm(n, 0);
      var i := CanonForm(10 * n, 0);
      TimesLow(Scale(n, j));
      ShiftedTen(n, j, i);
    }
  }

  lemma ShiftedTen(n: int, j: nat, i: nat)
    requires n > 0 && LOW <= Scale(10 * n, i) < HIGH && i <= 8 && j <= 8 && LOW <= Scale(n, j) < HIGH
    ensures Make(Scale(Scale(n, j), 8), -7 - j, false) == Num(Scale(10 * n, i), 0 - i)
  {
    hide Make, Scale;
    ScaleTwice(n, j, 8);
    ScaleTenfold(n, i);
    TenfoldSooner(n, i, j);
    ScaleTwice(n, i + 1, j + 7 - i);
    MakeExact(Scale(Scale(n, j), 8), -7 - j, Scale(10 * n, i), 0 - i, false);
  }

  /** Ten times a number needs one zero less, unless it needed none. */
  lemma TenfoldSooner(n: int, i: nat, j: nat)
    requires n > 0 && LOW <= Scale(10 * n, i) < HIGH && LOW <= Scale(n, j) < HIGH
    ensures i + 1 == j
  {
    ScaleTenfold(n, i);
    ScaleCompare(n, i + 1, j);
  }

  lemma TenIs(t: nat)
    requires Canon(10, 0) == Num(Scale(10, t), 0 - t) && LOW <= Scale(10, t) < HIGH
    ensures Canon(10, 0) == Num(LOW, -7)
  {
    assert Scale(10, 7) == LOW by {
      TenPowers();
    }
    ScaleCompare(10, t, 7);
  }

  lemma TenPowers()
    ensures Scale(10, 7) == LOW && Scale(1, 8) == LOW && Scale(1, 9) == HIGH
  {
    var a := Scale(10, 3);
    assert Scale(10, 1) == 100 && Scale(10, 2) == 1000 && a == 10000;
    assert Scale(10, 4) == 100000 && Scale(10, 5) == 1000000 && Scale(10, 6) == 10000000;
    ScaleTwice(1, 1, 7);
    assert Scale(1, 1) == 10;
    assert Scale(1, 9) == 10 * Scale(1, 8);
  }

  /** Only one scaling of a number has nine digits. */
  lemma {:induction false} ScaleCompare(n: int, j: nat, k: nat)
    requires n > 0 && LOW <= Scale(n, j) < HIGH && LOW <= Scale(n, k) < HIGH
    ensures j == k
  {
    if j < k {
      ScaleTwice(n, j, k - j);
      ScaleSize(Scale(n, j), k - j);
    } else if k < j {
      ScaleTwice(n, k, j - k);
      ScaleSize(Scale(n, k), j - k);
    }
  }

  lemma TimesLow(x: int)
    ensures x * LOW == Scale(x, 8)
  {
    assert Scale(x, 1) == 10 * x && Scale(x, 2) == 100 * x && Scale(x, 3) == 1000 * x && Scale(x, 4) == 10000 * x;
    assert Scale(x, 5) == 100000 * x && Scale(x, 6) == 1000000 * x && Scale(x, 7) == 10000000 * x;
  }

  lemma ScaleTenfold(n: int, i: nat)
    ensures Scale(10 * n, i) == Scale(n, i + 1)
  {
    ScaleTwice(n, 1, i);
    assert Scale(n, 1) == 10 * Scale(n, 0);
  }

  /** A digit after the last place of a number, exactly. */
  lemma AddDigit(n: int, d: int, e: int)
    requires 0 <= n && 0 <= d <= 9 && 10 * n + d < HIGH && -20 <= e <= 0
    ensures Add(Canon(10 * n, e), Canon(d, e)) == Canon(10 * n + d, e)
  {
    hide Make, Scale, Align;
    if n == 0 {
      CanonZero(e);
    } else if d == 0 {
      CanonZero(e);
      var j := CanonForm(10 * n, e);
    } else {
      var j := CanonForm(10 * n, e);
      var c := CanonForm(d, e);
      DigitScale(d, c);
      TensScale(n, j);
      AlignDigit(d, j);
      ScaleSum(10 * n, d, j);
      SumRoom(n, d, j);
      ScaleSize(d, j);
      SumKept(Scale(10 * n + d, j), e - j);
      var i := CanonForm(10 * n + d, e);
      ScaleCompare(10 * n + d, j, i);
    }
  }

  lemma DigitScale(d: int, c: nat)
    requires 1 <= d <= 9 && LOW <= Scale(d, c) < HIGH
    ensures c == 8
  {
    TimesLow(d);
    ScaleCompare(d, c, 8);
  }

  lemma TensScale(n: int, j: nat)
    requires n > 0 && LOW <= Scale(10 * n, j) < HIGH
    ensures j <= 7
  {
    if j >= 8 {
      ScaleTwice(10 * n, 8, j - 8);
      TimesLow(10 * n);
      ScaleSize(Scale(10 * n, 8), j - 8);
    }
  }

  /** Lining a digit up under a number with j zeros at its end drops only zeros. */
  lemma AlignDigit(d: int, j: nat)
    requires 1 <= d <= 9 && j <= 7
    ensures Align(Scale(d, 8), 8 - j) == Scale(d, j)
  {
    hide Scale;
    ScaleTwice(d, j + 1, 7 - j);
    ScaleSize(d, j + 1);
    DropScaled(Scale(d, j + 1), 7 - j);
    ScaleStep(d, j);
    TenTimes(Scale(d, j));
  }

  lemma SumRoom(n: int, d: int, j: nat)
    requires n > 0 && 0 <= d <= 9 && 10 * n + d < HIGH && LOW <= Scale(10 * n, j) < HIGH && j <= 8
    ensures LOW <= Scale(10 * n + d, j) < HIGH
  {
    hide Scale;
    TenPowers();
    ScaleLess(10 * n, 10 * n + d, j);
    ScaleTenfold(n, j);
    ScaleTwice(1, 8 - j, j + 1);
    ScaleLess(n, Scale(1, 8 - j), j + 1);
    ScaleLess(n + 1, Scale(1, 8 - j), j + 1);
    ScaleTenfold(n + 1, j);
    ScaleLess(10 * n + d, 10 * (n + 1), j);
  }

  /* Feeding what was printed. */

  /** Before the exponent, and without a point so far, the number is n. */
  ghost predicate Whole(p: Parser, n: nat) {
    p.error == NoError && p.state == 1 && p.dot == 0 && p.work == Canon(n, 0) && p.exp == 0 && !p.expneg
  }

  /** After f digits behind the point the number is n, taken f places down. */
  ghost predicate Fraction(p: Parser, n: nat, f: nat) {
    p.error == NoError && p.state == 1 && p.dot == -1 - f && p.work == Canon(n, 0 - f) && p.exp == 0 && !p.expneg
  }

  ghost predicate AllDigits(s: seq<char>) { forall i :: 0 <= i < |s| ==> IsDigit(s[i]) }

  lemma {:induction false} AppendGrows(n: nat, s: seq<char>)
    requires AllDigits(s)
    ensures Append(n, s) >= n
  {
    if s != [] {
      AppendGrows(n, s[..|s| - 1]);
    }
  }

  /** Digits without a point: the number grows by them. */
  lemma {:induction false} FeedWhole(p: Parser, n: nat, s: seq<char>)
    requires Whole(p, n) && AllDigits(s) && Append(n, s) < HIGH
    ensures Whole(Feed(p, s), Append(n, s)) && Feed(p, s).neg == p.neg
  {
    hide Make, Mul, Add;
    if s != [] {
      var front, d := s[..|s| - 1], DigitOf(s[|s| - 1]);
      assert IsDigit(s[|s| - 1]);
      FeedWhole(p, n, front);
      var m := Append(n, front);
      MulTen(m);
      AddDigit(m, d, 0);
    }
  }

  /** Digits behind the point. */
  lemma {:induction false} FeedFraction(p: Parser, n: nat, f: nat, s: seq<char>)
    requires Fraction(p, n, f) && AllDigits(s) && Append(n, s) < HIGH && f + |s| <= 10
    ensures Fraction(Feed(p, s), Append(n, s), f + |s|) && Feed(p, s).neg == p.neg
  {
    hide Make, Mul, Add;
    if s != [] {
      var front, d := s[..|s| - 1], DigitOf(s[|s| - 1]);
      assert IsDigit(s[|s| - 1]);
      FeedFraction(p, n, f, front);
      var m, k := Append(n, front), f + |front|;
      CanonTens(m, k);
      AddDigit(m, d, 0 - k - 1);
    }
  }

  /** A number may be written with one more zero. */
  lemma CanonTens(n: int, k: nat)
    requires 0 <= n && 10 * n < HIGH && k <= 20
    ensures Canon(n, 0 - k) == Canon(10 * n, 0 - k - 1)
  {
    if n == 0 {
      CanonZero(0 - k);
      CanonZero(0 - k - 1);
    } else {
      hide Make, Scale;
      var j := CanonForm(10 * n, 0 - k - 1);
      ScaleTenfold(n, j);
      MakeExact(n, 0 - k, Scale(10 * n, j), 0 - k - 1 - j, true);
    }
  }

  /** The sign, if there is one, and then a digit that counts as any other. */
  lemma FeedSign(neg: bool, c: char, rest: seq<char>)
    requires IsDigit(c)
    ensures var p := Parser(1, neg, false, 0, 0, Num(0, -8), NoError);
            Whole(p, 0) && Feed(Start(), (if neg then ['-'] else []) + ([c] + rest)) == Feed(p, [c] + rest)
  {
    hide Make, Mul, Add;
    CanonZero(0);
    var p := Parser(1, neg, false, 0, 0, Num(0, -8), NoError);
    FeedOne(Start(), '-');
    FeedOne(Start(), c);
    FeedOne(p, c);
    FeedJoin(p, [c], rest);
    FeedJoin(Start(), [c], rest);
    if neg {
      FeedJoin(Start(), ['-'], [c] + rest);
      FeedJoin(Feed(Start(), ['-']), [c], rest);
    } else {
      assert [] + ([c] + rest) == [c] + rest;
    }
  }

  lemma FeedPoint(p: Parser, n: nat)
    requires Whole(p, n)
    ensures Fraction(Feed(p, ['.']), n, 0) && Feed(p, ['.']).neg == p.neg
  {
    hide Make, Mul, Add;
    FeedOne(p, '.');
  }

  /** Whole digits, and digits behind a point. */
  lemma FeedDecimal(p: Parser, a: seq<char>, b: seq<char>)
    requires Whole(p, 0) && AllDigits(a) && AllDigits(b) && Append(0, a + b) < HIGH && |b| <= 10
    ensures AllDigits(a + b) && Fraction(Feed(p, a + ['.'] + b), Append(0, a + b), |b|)
    ensures Feed(p, a + ['.'] + b).neg == p.neg
  {
    hide Make, Mul, Add, Append, Feed, Step;
    AppendJoin(0, a, b);
    AppendGrows(Append(0, a), b);
    FeedWhole(p, 0, a);
    FeedPoint(Feed(p, a), Append(0, a));
    FeedJoin(p, a, ['.']);
    FeedFraction(Feed(p, a + ['.']), Append(0, a), 0, b);
    FeedJoin(p, a + ['.'], b);
  }

  /** The end of a number without exponent: n times ten to the e is frac times ten to the x. */
  lemma FinishPlain(p: Parser, n: int, e: int, frac: int, x: int)
    requires p.error == NoError && p.exp == 0 && p.work == Canon(n, e)
    requires frac != 0 && frac > 0 && Valid(Num(frac, x)) && Same(n, e, frac, x)
    ensures Finish(p) == Num(if p.neg then -frac else frac, x)
  {
    hide Make, Scale;
    MakeExact(n, e, frac, x, true);
    if p.neg {
      ScaleNone(-frac);
      MakeExact(-frac, x, -frac, x, true);
    }
  }

  /* Significant digits. */

  lemma {:induction false} ScaleTimes(q: int, k: nat)
    ensures Scale(q, k) == q * Scale(1, k)
  {
    if k > 0 {
      ScaleTimes(q, k - 1);
      Reorder(q, Scale(1, k - 1));
    }
  }

  lemma Reorder(a: int, b: int)
    ensures 10 * (a * b) == a * (10 * b)
  {
  }

  lemma TenthOfScale(k: nat)
    ensures Scale(1, k + 1) / 10 == Scale(1, k) && Scale(1, k) > 0
  {
    ScaleSize(1, k);
  }

  lemma {:induction false} SigFigsWithin(m: nat, s: nat, k: nat)
    requires s + k == 9
    ensures Scale(1, k) > 0
    ensures s <= SigFigs(m, s, Scale(1, k)) <= 9 && Scale(1, 9 - SigFigs(m, s, Scale(1, k))) > 0
    ensures m % Scale(1, 9 - SigFigs(m, s, Scale(1, k))) == 0
    decreases k
  {
    ScaleSize(1, k);
    if m % Scale(1, k) != 0 {
      assert k > 0;
      TenthOfScale(k - 1);
      SigFigsWithin(m, s + 1, k - 1);
    }
  }

  /** A mantissa is its significant digits with zeros after them. */
  lemma SigFigsAre(m: nat) returns (q: nat)
    requires m < HIGH
    ensures 1 <= SigFigs(m, 1, LOW) <= 9 && m == Scale(q, 9 - SigFigs(m, 1, LOW)) && q < Scale(1, SigFigs(m, 1, LOW))
  {
    hide SigFigs, Scale;
    TenPowers();
    SigFigsWithin(m, 1, 8);
    var s := SigFigs(m, 1, LOW);
    q := Quotient(m, Scale(1, 9 - s));
    ScaleTimes(q, 9 - s);
    FewDigits(q, s);
  }

  lemma Quotient(m: nat, p: int) returns (q: nat)
    requires p > 0 && m % p == 0
    ensures m == q * p
  {
    q := m / p;
  }

  lemma FewDigits(q: nat, s: nat)
    requires s <= 9 && Scale(q, 9 - s) < HIGH
    ensures q < Scale(1, s)
  {
    TenPowers();
    ScaleTwice(1, s, 9 - s);
    ScaleLess(q, Scale(1, s), 9 - s);
  }

  /* Plain numbers. */

  /** The first s digits of a mantissa that ends in zeros. */
  lemma LeadingDigits(frac: nat, q: nat, s: nat)
    requires s <= 9 && frac == Scale(q, 9 - s) < HIGH
    ensures DigitsOf(frac, 9)[..s] == DigitsOf(q, s) && AllDigits(DigitsOf(frac, 9)[..s])
    ensures Append(0, DigitsOf(frac, 9)[..s]) == q
  {
    hide Scale;
    DigitsPrefix(frac, 9, s);
    DropScaled(q, 9 - s);
    FewDigits(q, s);
    DigitsValue(q, s);
  }

  /** A parser that starts with this sign. */
  function Signed(neg: bool): Parser { Parser(1, neg, false, 0, 0, Num(0, -8), NoError) }

  lemma SignRead(neg: bool, s: seq<char>)
    requires s != [] && IsDigit(s[0])
    ensures Whole(Signed(neg), 0) && Feed(Start(), (if neg then ['-'] else []) + s) == Feed(Signed(neg), s)
  {
    FeedSign(neg, s[0], s[1..]);
    assert s == [s[0]] + s[1..];
  }

  /** Digits with a point among them read as their value. */
  lemma ReadPoint(neg: bool, frac: nat, q: nat, s: nat, v: nat)
    requires s <= 9 && s > v + 1 && frac == Scale(q, 9 - s) < HIGH
    ensures var p := Feed(Start(), (if neg then ['-'] else []) + PlainDigits(frac, s, v));
            p.error == NoError && p.exp == 0 && p.work == Canon(q, 0 - (s - v - 1)) && p.neg == neg
  {
    hide Make, Mul, Add, Feed, Step, DigitsOf, Append, Scale;
    LeadingDigits(frac, q, s);
    var d := DigitsOf(frac, 9);
    var a, b := d[..v + 1], d[v + 1..s];
    assert a + b == d[..s];
    assert AllDigits(a) && AllDigits(b) by {
      SplitDigits(d[..s], a, b);
    }
    FewDigits(q, s);
    ScaleNinth(q, s);
    SignRead(neg, a + ['.'] + b);
    FeedDecimal(Signed(neg), a, b);
  }

  lemma SplitDigits(s: seq<char>, a: seq<char>, b: seq<char>)
    requires AllDigits(s) && s == a + b
    ensures AllDigits(a) && AllDigits(b) && (|a| > 0 ==> IsDigit((a + b)[0]))
  {
    forall i | 0 <= i < |a| ensures IsDigit(a[i]) {
      assert a[i] == s[i];
    }
    forall i | 0 <= i < |b| ensures IsDigit(b[i]) {
      assert b[i] == s[|a| + i];
    }
  }

  lemma ScaleNinth(q: nat, s: nat)
    requires s <= 9 && q < Scale(1, s)
    ensures q < HIGH
  {
    TenPowers();
    ScaleTwice(1, s, 9 - s);
    ScaleSize(Scale(1, s), 9 - s);
  }

  /** Digits without a point read as their value. */
  lemma ReadWhole(neg: bool, frac: nat, q: nat, s: nat, v: nat)
    requires 1 <= s <= 9 && s <= v + 1 <= 9 && frac == Scale(q, 9 - s) < HIGH
    ensures var p := Feed(Start(), (if neg then ['-'] else []) + PlainDigits(frac, s, v));
            p.error == NoError && p.exp == 0 && p.work == Canon(Scale(q, v + 1 - s), 0) && p.neg == neg
  {
    hide Make, Mul, Add, Feed, Step, DigitsOf, Append, Scale, Zeros;
    LeadingDigits(frac, q, s);
    var d, z := DigitsOf(frac, 9)[..s], Zeros(v + 1 - s);
    ZerosValue(q, v + 1 - s);
    AppendJoin(0, d, z);
    ScaleTwice(q, v + 1 - s, 8 - v);
    ScaleSize(q, v + 1 - s);
    ScaleSize(Scale(q, v + 1 - s), 8 - v);
    ScaleNonneg(q, v + 1 - s);
    SignRead(neg, d + z);
    FeedWhole(Signed(neg), 0, d + z);
  }

  lemma ScaleNonneg(q: int, k: nat)
    requires q >= 0
    ensures Scale(q, k) >= 0
  {
    ScaleSize(q, k);
    if q == 0 {
      ScaleZero(k);
    }
  }

  lemma {:induction false} ScaleZero(k: nat)
    ensures Scale(0, k) == 0
  {
    if k > 0 {
      ScaleZero(k - 1);
    }
  }
}
