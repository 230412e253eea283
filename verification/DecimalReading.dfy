/** What hipfloat.fromString reads: signs, a point and an exponent mean what they mean in writing. */
module DecimalReading {
  import opened Decimal
  import opened DecimalOps
  import opened DecimalText
  import opened DecimalRoundTrip

  /* Ways to write the same. */

  ghost predicate NoSign(s: seq<char>) { s != [] ==> s[0] != '+' && s[0] != '-' }

  /** Two parsers that differ at most in that one may still see a sign. */
  ghost predicate Alike(p: Parser, q: Parser, first: int) {
    p == q || (p.state == first && q == p.(state := first + 1))
  }

  lemma StepAlike(p: Parser, q: Parser, first: int, c: char)
    requires Alike(p, q, first) && (first == 0 || first == 2) && (p == q || (c != '+' && c != '-'))
    ensures Step(p, c) == Step(q, c) || (Alike(Step(p, c), Step(q, c), first) && p.error != NoError)
  {
    hide Make, Mul, Add, MantissaChar, ExponentChar;
  }

  /** Only the first character could be a sign to one and not to the other. */
  lemma {:induction false} FeedAlike(p: Parser, q: Parser, first: int, s: seq<char>)
    requires Alike(p, q, first) && NoSign(s) && (first == 0 || first == 2)
    ensures Alike(Feed(p, s), Feed(q, s), first) && Finish(Feed(p, s)) == Finish(Feed(q, s))
    ensures s != [] ==> Feed(p, s) == Feed(q, s) || Feed(p, s).error != NoError
  {
    hide Make, Mul, Add, Step;
    if s != [] {
      var front := s[..|s| - 1];
      FeedAlike(p, q, first, front);
      if Feed(p, front).error != NoError {
        ErrorStays(Feed(p, front), s[|s| - 1]);
        ErrorStays(Feed(q, front), s[|s| - 1]);
      } else {
        assert front == [] ==> Feed(p, front) == p && Feed(q, front) == q;
        StepAlike(Feed(p, front), Feed(q, front), first, s[|s| - 1]);
      }
    }
  }

  lemma ErrorStays(p: Parser, c: char)
    requires p.error != NoError
    ensures Step(p, c) == p
  {
  }

  /** A plus in front changes nothing. */
  lemma PlusRead(s: seq<char>)
    requires NoSign(s)
    ensures Parse(['+'] + s) == Parse(s)
  {
    hide Make, Mul, Add;
    FeedOne(Start(), '+');
    FeedJoin(Start(), ['+'], s);
    FeedAlike(Start(), Signed(false), 0, s);
  }

  lemma PlusAlike(p: Parser)
    ensures Alike(Step(p, 'e'), Step(Step(p, 'e'), '+'), 2)
  {
    hide Make, Mul, Add;
  }

  /** Nor does one in front of the exponent. */
  lemma ExponentPlusRead(a: seq<char>, d: seq<char>)
    requires NoSign(d)
    ensures Parse(a + ['e'] + d) == Parse(a + ['e', '+'] + d)
  {
    hide Make, Mul, Add, Feed, Step, Finish;
    var p := Feed(Start(), a);
    assert a + ['e', '+'] == a + ['e'] + ['+'];
    FeedJoin(Start(), a, ['e']);
    FeedJoin(Start(), a + ['e'], ['+']);
    FeedJoin(Start(), a + ['e'], d);
    FeedJoin(Start(), a + ['e', '+'], d);
    FeedOne(p, 'e');
    FeedOne(Step(p, 'e'), '+');
    PlusAlike(p);
    FeedAlike(Step(p, 'e'), Step(Step(p, 'e'), '+'), 2, d);
  }

  lemma CapitalStep(p: Parser)
    ensures Step(p, 'E') == Step(p, 'e')
  {
    hide Make, Mul, Add;
  }

  /** The exponent's letter may be a capital. */
  lemma CapitalRead(a: seq<char>, d: seq<char>)
    ensures Parse(a + ['E'] + d) == Parse(a + ['e'] + d)
  {
    hide Make, Mul, Add, Feed, Step, Finish;
    FeedJoin(Start(), a, ['e']);
    FeedJoin(Start(), a, ['E']);
    FeedJoin(Start(), a + ['e'], d);
    FeedJoin(Start(), a + ['E'], d);
    FeedOne(Feed(Start(), a), 'e');
    FeedOne(Feed(Start(), a), 'E');
    CapitalStep(Feed(Start(), a));
  }

  /* The value of a text. */

  /** A number in writing: a sign, digits, a point and digits behind it, and an exponent with its letter and sign. */
  datatype Text = Text(sign: seq<char>, whole: seq<char>, point: seq<char>, fraction: seq<char>, mark: seq<char>,
                       exponent: seq<char>)

  ghost predicate WellWritten(t: Text) {
    && t.sign in {[], ['+'], ['-']} && t.point in {[], ['.']}
    && (t.mark == [] || IsMark(t.mark))
    && AllDigits(t.whole) && AllDigits(t.fraction) && AllDigits(t.exponent)
    && (t.point == [] ==> t.fraction == []) && (t.mark == [] ==> t.exponent == [])
  }

  function Chars(t: Text): seq<char> { t.sign + (t.whole + t.point + t.fraction + (t.mark + t.exponent)) }

  /** The number that the digits of the mantissa write. */
  ghost function Mantissa(t: Text): nat
    requires WellWritten(t)
  {
    SplitJoin(t.whole, t.fraction);
    Append(0, t.whole + t.fraction)
  }

  ghost function Exponent(t: Text): int
    requires WellWritten(t)
  {
    if '-' in t.mark then 0 - Append(0, t.exponent) else Append(0, t.exponent)
  }

  lemma SplitJoin(a: seq<char>, b: seq<char>)
    requires AllDigits(a) && AllDigits(b)
    ensures AllDigits(a + b)
  {
  }

  /** After the mantissa the parser holds its value, and nothing of an exponent. */
  ghost predicate MantissaRead(p: Parser, neg: bool, work: Num) {
    p.error == NoError && p.state == 1 && p.neg == neg && p.exp == 0 && !p.expneg && p.work == work
  }

  lemma ReadMantissa(t: Text)
    requires WellWritten(t) && Mantissa(t) < HIGH && |t.fraction| <= 10
    ensures var neg := t.sign == ['-'];
            MantissaRead(Feed(Signed(neg), t.whole + t.point + t.fraction), neg, Canon(Mantissa(t), 0 - |t.fraction|))
  {
    hide Make, Mul, Add, Append, Feed, Step;
    var neg := t.sign == ['-'];
    CanonZero(0);
    if t.point == [] {
      assert t.whole + t.point + t.fraction == t.whole == t.whole + t.fraction;
      FeedWhole(Signed(neg), 0, t.whole);
    } else {
      FeedDecimal(Signed(neg), t.whole, t.fraction);
    }
  }

  /** The sign in front has been read. */
  lemma ReadSign(t: Text)
    requires WellWritten(t)
    ensures var rest := t.whole + t.point + t.fraction + (t.mark + t.exponent);
            Parse(Chars(t)) == Finish(Feed(Signed(t.sign == ['-']), rest))
  {
    hide Make, Mul, Add;
    var rest := t.whole + t.point + t.fraction + (t.mark + t.exponent);
    FeedJoin(Start(), t.sign, rest);
    FeedOne(Start(), '+');
    FeedOne(Start(), '-');
    if t.sign == [] {
      FeedAlike(Start(), Signed(false), 0, rest);
    }
  }

  ghost predicate IsMark(mark: seq<char>) {
    mark in {['e'], ['E'], ['e', '+'], ['E', '+'], ['e', '-'], ['E', '-']}
  }

  lemma FeedMark(p: Parser, mark: seq<char>)
    requires p.error == NoError && p.state == 1 && IsMark(mark)
    ensures Feed(p, mark) ==
      if |mark| == 1 then p.(state := 2) else p.(state := 3, expneg := if '-' in mark then true else p.expneg)
  {
    hide Make, Mul, Add, Feed;
    FeedOne(p, mark[0]);
    if |mark| == 2 {
      assert mark == [mark[0]] + [mark[1]];
      FeedJoin(p, [mark[0]], [mark[1]]);
      FeedOne(Feed(p, [mark[0]]), mark[1]);
    } else {
      assert mark == [mark[0]];
    }
  }

  /** The letter and the sign of the exponent have been read, and its digits come next. */
  lemma ReadMark(p: Parser, neg: bool, work: Num, t: Text)
    requires WellWritten(t) && MantissaRead(p, neg, work) && t.mark != []
    ensures var q := p.(state := 3, expneg := '-' in t.mark);
            && InExponent(q, 3, neg, '-' in t.mark, 0, work)
            && Finish(Feed(p, t.mark + t.exponent)) == Finish(Feed(q, t.exponent))
  {
    hide Make, Mul, Add, Finish, Step, Feed;
    FeedJoin(p, t.mark, t.exponent);
    FeedMark(p, t.mark);
    if |t.mark| == 1 {
      FeedAlike(p.(state := 2), p.(state := 3), 2, t.exponent);
    }
  }

  /** All of a text but the last step. */
  lemma ReadText(t: Text) returns (p: Parser)
    requires WellWritten(t) && Mantissa(t) < HIGH && |t.fraction| <= 10 && Append(0, t.exponent) <= 10000
    ensures Parse(Chars(t)) == Finish(p) && p.error == NoError && p.neg == (t.sign == ['-'])
    ensures p.work == Canon(Mantissa(t), 0 - |t.fraction|)
    ensures (if p.expneg then 0 - p.exp else p.exp) == Exponent(t)
  {
    hide Make, Mul, Add, Feed, Step, Finish, Parse;
    var neg, work := t.sign == ['-'], Canon(Mantissa(t), 0 - |t.fraction|);
    ReadSign(t);
    ReadMantissa(t);
    FeedJoin(Signed(neg), t.whole + t.point + t.fraction, t.mark + t.exponent);
    p := Feed(Signed(neg), t.whole + t.point + t.fraction);
    if t.mark == [] {
      FeedNothing(p, t.mark + t.exponent);
    } else {
      ReadMark(p, neg, work, t);
      var q := p.(state := 3, expneg := '-' in t.mark);
      FeedExponent(q, neg, '-' in t.mark, 0, work, t.exponent);
      p := Feed(q, t.exponent);
    }
  }

  lemma FeedNothing(p: Parser, s: seq<char>)
    requires s == []
    ensures Feed(p, s) == p
  {
  }

  /** The power of ten that an exponent asks for. */
  lemma Power(v: int) returns (i: nat)
    requires -10000 <= v <= 9999
    ensures 7 <= i <= 8 && Make(1, v, true) == Num(Scale(1, i), v - i)
  {
    hide Make, Scale;
    TenPowers();
    i := if v == -10000 then 7 else 8;
    ScaleTwice(1, i, 8 - i);
    MillionPower();
    MakeExact(1, v, Scale(1, i), v - i, true);
  }

  lemma MillionPower()
    ensures Scale(1, 7) == 10_000_000
  {
    assert Scale(1, 4) == 10000;
    ScaleTwice(1, 4, 3);
    assert Scale(10000, 3) == 10_000_000;
  }

  lemma FinishPower(p: Parser, n: nat, e: int, v: int, frac: int, x: int)
    requires p.error == NoError && p.work == Canon(n, e) && v == (if p.expneg then 0 - p.exp else p.exp)
    requires 0 < n < HIGH && -100 <= e <= 0 && -10000 <= v <= 9999
    requires frac > 0 && Valid(Num(frac, x)) && Same(n, e + v, frac, x)
    ensures Finish(p) == Num(WithSign(p.neg, frac), x)
  {
    hide Make, Scale;
    if v == 0 {
      FinishPlain(p, n, e, frac, x);
    } else {
      var j := CanonForm(n, e);
      var m := Scale(n, j);
      var k := WithSign(p.neg, m);
      SignedKept(k, e - j);
      var i := Power(v);
      ScaleTimes(k, i);
      SamePower(p.neg, n, j, i, e + v, frac, x);
      MakeExact(Scale(k, i), e - j + (v - i), WithSign(p.neg, frac), x, false);
    }
  }

  lemma SignedKept(k: int, e: int)
    requires LOW <= Abs(k) < HIGH && MIN_EXP <= e <= MAX_EXP
    ensures Make(k, e, true) == Num(k, e)
  {
    hide Make;
    ScaleNone(k);
    MakeExact(k, e, k, e, true);
  }

  /** The zeros that were added come off the exponent. */
  lemma SamePower(neg: bool, n: nat, j: nat, i: nat, e: int, frac: int, x: int)
    requires Same(n, e, frac, x)
    ensures Same(Scale(WithSign(neg, Scale(n, j)), i), e - j - i, WithSign(neg, frac), x)
  {
    hide Scale;
    ScaleNeg(Scale(n, j), i);
    ScaleTwice(n, j, i);
    var k := j + i;
    if x >= e {
      ScaleTwice(frac, x - e, k);
      ScaleNeg(frac, x - e + k);
    } else {
      var d := e - x;
      if d <= k {
        ScaleTwice(n, d, k - d);
        ScaleNeg(frac, k - d);
      } else {
        ScaleTwice(n, k, d - k);
        ScaleNeg(Scale(n, k), d - k);
      }
    }
  }

  /**
   A text whose digits make a number below ten to the ninth reads as what it writes, when that can be represented and
   the exponent is within ten thousand, which itself is too big.
   */
  lemma TextRead(t: Text, frac: int, x: int)
    requires WellWritten(t) && Mantissa(t) < HIGH && |t.fraction| <= 10 && -10000 <= Exponent(t) <= 9999
    requires frac > 0 && Valid(Num(frac, x)) && Same(Mantissa(t), Exponent(t) - |t.fraction|, frac, x)
    ensures Parse(Chars(t)) == Num(WithSign(t.sign == ['-'], frac), x)
  {
    hide Make, Scale, Mantissa, Append, Finish, Parse, Chars;
    var p := ReadText(t);
    PositiveSame(Mantissa(t), Exponent(t) - |t.fraction|, frac, x);
    FinishPower(p, Mantissa(t), 0 - |t.fraction|, Exponent(t), frac, x);
  }

  lemma PositiveSame(n: int, e: int, frac: int, x: int)
    requires frac > 0 && Same(n, e, frac, x)
    ensures n > 0
  {
    if x >= e {
      ScaleSize(frac, x - e);
    } else {
      ScaleSize(n, e - x);
    }
  }

  /** A zero, however written, reads as zero. */
  lemma ZeroRead(t: Text)
    requires WellWritten(t) && Mantissa(t) == 0 && |t.fraction| <= 10 && -10000 <= Exponent(t) <= 9999
    ensures Parse(Chars(t)) == Num(0, -8)
  {
    hide Make, Scale, Mantissa, Append, Parse, Chars;
    var p := ReadText(t);
    CanonZero(0 - |t.fraction|);
    CanonZero(-8);
    var i := Power(Exponent(t));
    ZeroTimes(Scale(1, i), Exponent(t) - i - 8);
  }

  lemma ZeroTimes(m: int, e: int)
    ensures Make(0 * m, e, false) == Num(0, -8)
  {
  }

  /** Once an exponent has passed ten thousand the number is too big, whatever its sign. */
  lemma {:induction false} FeedHuge(p: Parser, neg: bool, expneg: bool, work: Num, s: seq<char>)
    requires InExponent(p, 3, neg, expneg, 0, work) && AllDigits(s) && Append(0, s) > 10000
    ensures Feed(p, s).error == TooBig
  {
    hide Make, Mul, Add;
    if s != [] {
      assert IsDigit(s[|s| - 1]);
      var front := s[..|s| - 1];
      if Append(0, front) > 10000 {
        FeedHuge(p, neg, expneg, work, front);
      } else {
        FeedExponent(p, neg, expneg, 0, work, front);
      }
    }
  }

  /** The power of ten for an exponent of ten thousand is out of range itself. */
  lemma HugePower()
    ensures Make(1, 10000, true) == Overflow
  {
    hide Lift, Shrink, Grow, Scale;
    TenPowers();
    NoLift(1, 10000);
    NoShrink(1, 10000, true);
    GrowExact(1, 8, 10000);
  }

  lemma AppendNone(n: nat, s: seq<char>)
    requires AllDigits(s)
    ensures s == [] ==> Append(n, s) == n
  {
  }

  lemma CanonNum(n: nat, e: int)
    requires n < HIGH && -100 <= e <= 0
    ensures Canon(n, e).Num? && Neg(Canon(n, e)).Num?
  {
    hide Make, Scale;
    if n == 0 {
      CanonZero(e);
      CanonZero(-8);
    } else {
      var j := CanonForm(n, e);
      SignedKept(0 - Scale(n, j), e - j);
    }
  }

  /** An exponent of ten thousand, or of more with either sign, overflows, be the value in range or not. */
  lemma ExponentTooBig(t: Text)
    requires WellWritten(t) && Mantissa(t) < HIGH && |t.fraction| <= 10
    requires Append(0, t.exponent) > 10000 || Exponent(t) == 10000
    ensures Parse(Chars(t)) == Overflow
  {
    hide Make, Add, Append, Feed, Step, Parse;
    if Append(0, t.exponent) > 10000 {
      var neg, work := t.sign == ['-'], Canon(Mantissa(t), 0 - |t.fraction|);
      ReadSign(t);
      ReadMantissa(t);
      FeedJoin(Signed(neg), t.whole + t.point + t.fraction, t.mark + t.exponent);
      var p := Feed(Signed(neg), t.whole + t.point + t.fraction);
      AppendNone(0, t.exponent);
      ReadMark(p, neg, work, t);
      FeedHuge(p.(state := 3, expneg := '-' in t.mark), neg, '-' in t.mark, work, t.exponent);
    } else {
      var p := ReadText(t);
      HugePower();
      CanonNum(Mantissa(t), 0 - |t.fraction|);
    }
  }

  /* What is not a number. */

  /** Once there is an error nothing changes. */
  lemma {:induction false} FeedError(p: Parser, s: seq<char>)
    requires p.error != NoError || s == []
    ensures Feed(p, s) == p
  {
    if s != [] {
      FeedError(p, s[..|s| - 1]);
    }
  }

  lemma JunkStep(p: Parser, c: char)
    requires !IsDigit(c) && c !in {'+', '-', '.', 'e', 'E'}
    ensures if p.error == NoError then Step(p, c).error == NotNumber else Step(p, c) == p
  {
    hide Make, Mul, Add;
  }

  /** A text with any other character is refused, unless its exponent has been by then. */
  lemma JunkRefused(a: seq<char>, c: char, b: seq<char>)
    requires !IsDigit(c) && c !in {'+', '-', '.', 'e', 'E'}
    ensures Feed(Start(), a).error == NoError ==> Parse(a + [c] + b) == NotANumber
    ensures Feed(Start(), a).error != NoError ==> Parse(a + [c] + b) == Parse(a)
  {
    hide Make, Mul, Add, Feed, Step;
    FeedJoin(Start(), a, [c]);
    FeedJoin(Start(), a + [c], b);
    FeedOne(Feed(Start(), a), c);
    JunkStep(Feed(Start(), a), c);
    FeedError(Step(Feed(Start(), a), c), b);
  }

  lemma PointAgain(p: Parser, n: nat, f: nat)
    requires Fraction(p, n, f)
    ensures Step(p, '.').error == NotNumber
  {
    hide Make, Mul, Add;
  }

  /** So is one with a second point. */
  lemma SecondPointRefused(a: seq<char>, b: seq<char>, rest: seq<char>)
    requires AllDigits(a) && AllDigits(b) && |a| + |b| <= 9
    ensures Parse(a + ['.'] + b + (['.'] + rest)) == NotANumber
  {
    hide Make, Mul, Add, Append, Feed, Step;
    SplitJoin(a, b);
    NineDigits(a + b);
    CanonZero(0);
    FeedDecimal(Signed(false), a, b);
    var p := Feed(Signed(false), a + ['.'] + b);
    FeedAlike(Start(), Signed(false), 0, a + ['.'] + b + (['.'] + rest));
    FeedJoin(Signed(false), a + ['.'] + b, ['.'] + rest);
    FeedJoin(p, ['.'], rest);
    FeedOne(p, '.');
    PointAgain(p, Append(0, a + b), |b|);
    FeedError(Step(p, '.'), rest);
  }

  lemma {:induction false} NineDigits(s: seq<char>)
    requires AllDigits(s)
    ensures Scale(1, |s|) > Append(0, s) && (|s| <= 9 ==> Append(0, s) < HIGH)
  {
    if s != [] {
      NineDigits(s[..|s| - 1]);
      assert IsDigit(s[|s| - 1]);
    }
    if |s| <= 9 {
      TenPowers();
      ScaleTwice(1, |s|, 9 - |s|);
      ScaleSize(Scale(1, |s|), 9 - |s|);
    }
  }
}
