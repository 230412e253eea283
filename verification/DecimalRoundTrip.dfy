/** Parsing undoes printing, for every number in range and either way of printing. */
module DecimalRoundTrip {
  import opened Decimal
  import opened DecimalOps
  import opened DecimalText

  function Sign(neg: bool): seq<char> { if neg then ['-'] else [] }
  function WithSign(neg: bool, n: int): int { if neg then -n else n }

  /** n times ten to the e is frac times ten to the x, so what was read is what was printed. */
  lemma SameValue(n: int, q: int, s: nat, e: int, x: int)
    requires s <= 9 && e - x == 9 - s && n == q
    ensures Same(n, e, Scale(q, 9 - s), x)
  {
    if e == x {
      ScaleNone(q);
    }
  }

  /** Digits at least up to the point: frac is q with zeros after its s digits. */
  lemma PlainBack(neg: bool, frac: nat, s: nat, v: nat, q: nat)
    requires 1 <= s <= 9 && v <= 8 && frac == Scale(q, 9 - s) && LOW <= frac < HIGH
    ensures Parse(Sign(neg) + PlainDigits(frac, s, v)) == Num(WithSign(neg, frac), v - 8)
  {
    hide Make, Mul, Add, Feed, Step, PlainDigits, Finish, Scale;
    var p := Feed(Start(), Sign(neg) + PlainDigits(frac, s, v));
    if s > v + 1 {
      ReadPoint(neg, frac, q, s, v);
      SameValue(q, q, s, 0 - (s - v - 1), v - 8);
      FinishPlain(p, q, 0 - (s - v - 1), frac, v - 8);
    } else {
      ReadWhole(neg, frac, q, s, v);
      ScaleTwice(q, v + 1 - s, 8 - v);
      ScaleNone(Scale(q, v + 1 - s));
      FinishPlain(p, Scale(q, v + 1 - s), 0, frac, v - 8);
    }
  }

  /** A number below one, with zeros behind the point: its digits are moved down by z places. */
  lemma SmallBack(neg: bool, frac: nat, s: nat, z: nat, q: nat)
    requires 1 <= s && s + z <= 9 && 1 <= z && frac == Scale(q, 9 - s) && LOW <= frac < HIGH
    ensures Drop(frac, z) >= 0
    ensures Parse(Sign(neg) + PlainDigits(Drop(frac, z), s + z, 0)) == Num(WithSign(neg, frac), 0 - 8 - z)
  {
    hide Make, Mul, Add, Feed, Step, PlainDigits, Finish, Scale, Drop;
    var part := Scale(q, 9 - s - z);
    ScaleTwice(q, 9 - s - z, z);
    ScaleNonneg(q, 9 - s - z);
    DropScaled(part, z);
    ScaleSize(part, z);
    var p := Feed(Start(), Sign(neg) + PlainDigits(part, s + z, 0));
    ReadPoint(neg, part, q, s + z, 0);
    SameValue(q, q, s, 0 - (s + z - 1), 0 - 8 - z);
    FinishPlain(p, q, 0 - (s + z - 1), frac, 0 - 8 - z);
  }

  /** Nine digits behind the point. */
  lemma NineBack(neg: bool, frac: nat)
    requires LOW <= frac < HIGH
    ensures Parse(Sign(neg) + (['0', '.'] + PlainDigits(frac, 9, 8))) == Num(WithSign(neg, frac), -9)
  {
    hide Make, Mul, Add, Feed, Step, Finish, Scale, DigitsOf, Append;
    var d := DigitsOf(frac, 9);
    ScaleNone(frac);
    LeadingDigits(frac, frac, 9);
    assert d[..9] == d;
    assert PlainDigits(frac, 9, 8) == d by {
      NoZeros();
    }
    var p := Feed(Start(), Sign(neg) + (['0', '.'] + d));
    ZeroFirst(d, frac);
    SignRead(neg, ['0'] + ['.'] + d);
    assert ['0', '.'] + d == ['0'] + ['.'] + d;
    FeedDecimal(Signed(neg), ['0'], d);
    FinishPlain(p, frac, -9, frac, -9);
  }

  lemma NoZeros()
    ensures Zeros(0) == []
  {
  }

  lemma ZeroFirst(d: seq<char>, n: nat)
    requires AllDigits(d) && Append(0, d) == n
    ensures AllDigits(['0'] + d) && AllDigits(['0']) && Append(0, ['0'] + d) == n
  {
    AppendJoin(0, ['0'], d);
    assert ['0'][..0] == [];
  }

  /* With an exponent. */

  ghost predicate InExponent(p: Parser, state: int, neg: bool, expneg: bool, exp: nat, work: Num) {
    p.error == NoError && p.state == state && p.neg == neg && p.expneg == expneg && p.exp == exp && p.work == work
  }

  lemma {:induction false} FeedExponent(p: Parser, neg: bool, expneg: bool, n: nat, work: Num, s: seq<char>)
    requires InExponent(p, 3, neg, expneg, n, work) && AllDigits(s) && Append(n, s) <= 10000
    ensures InExponent(Feed(p, s), 3, neg, expneg, Append(n, s), work)
  {
    if s != [] {
      assert IsDigit(s[|s| - 1]);
      FeedExponent(p, neg, expneg, n, work, s[..|s| - 1]);
    }
  }

  /** The whole text of a number with an exponent. */
  lemma ReadScientific(neg: bool, frac: nat, v: int)
    requires frac < HIGH && -10000 <= v <= 10000
    ensures InExponent(Feed(Start(), Sign(neg) + Scientific(frac, v)), 3, neg, v < 0, Abs(v), Canon(frac, -8))
  {
    hide Make, Mul, Add, Feed, Step, Scale, DigitsOf, Append, Decimals;
    var d := DigitsOf(frac, 9);
    ScaleNone(frac);
    LeadingDigits(frac, frac, 9);
    assert d[..9] == d && d[..1] + d[1..] == d;
    SplitDigits(d, d[..1], d[1..]);
    var mantissa, exponent := d[..1] + ['.'] + d[1..], (if v < 0 then ['-'] + Decimals(-v) else ['+'] + Decimals(v));
    assert Scientific(frac, v) == mantissa + (['e'] + exponent);
    SignRead(neg, mantissa + (['e'] + exponent));
    FeedDecimal(Signed(neg), d[..1], d[1..]);
    FeedJoin(Signed(neg), mantissa, ['e'] + exponent);
    ReadExponent(Feed(Signed(neg), mantissa), neg, frac, v);
  }

  lemma ReadExponent(p: Parser, neg: bool, frac: nat, v: int)
    requires Fraction(p, frac, 8) && p.neg == neg && -10000 <= v <= 10000
    ensures var text := ['e'] + (if v < 0 then ['-'] + Decimals(-v) else ['+'] + Decimals(v));
      InExponent(Feed(p, text), 3, neg, v < 0, Abs(v), Canon(frac, -8))
  {
    hide Make, Mul, Add, Append, Decimals;
    var sign, digits := if v < 0 then ['-'] else ['+'], Decimals(Abs(v));
    assert ['e'] + (if v < 0 then ['-'] + Decimals(-v) else ['+'] + Decimals(v)) == ['e'] + (sign + digits);
    FeedJoin(p, ['e'], sign + digits);
    FeedOne(p, 'e');
    var p1 := Feed(p, ['e']);
    FeedJoin(p1, sign, digits);
    FeedOne(p1, '-');
    FeedOne(p1, '+');
    DecimalsValue(Abs(v));
    FeedExponent(Feed(p1, sign), neg, v < 0, 0, Canon(frac, -8), digits);
  }

  lemma ScaleNeg(x: int, k: nat)
    ensures Scale(-x, k) == -Scale(x, k)
  {
    ScaleSum(x, -x, k);
    ScaleZero(k);
  }

  /** A power of ten as a number. */
  lemma PowerOfTen(v: int)
    requires -9999 <= v <= 9999
    ensures Make(1, v, true) == Num(LOW, v - 8)
  {
    hide Make;
    TenPowers();
    MakeExact(1, v, LOW, v - 8, true);
  }

  /** Multiplying by the power of ten gives the number that was printed. */
  lemma FinishScientific(p: Parser, neg: bool, frac: nat, v: int)
    requires InExponent(p, 3, neg, v < 0, Abs(v), Canon(frac, -8)) && frac > 0
    requires Valid(Num(frac, v - 8))
    ensures Finish(p) == Num(WithSign(neg, frac), v - 8)
  {
    hide Make, Scale;
    if v == 0 {
      ScaleNone(frac);
      FinishPlain(p, frac, -8, frac, -8);
    } else {
      var j := CanonForm(frac, -8);
      var m := WithSign(neg, frac);
      ScaleNeg(frac, j);
      ScaleNone(Scale(m, j));
      var e: int := -8;
      MakeExact(Scale(m, j), e - j, Scale(m, j), e - j, true);
      PowerOfTen(v);
      TimesLow(Scale(m, j));
      ScaleTwice(m, j, 8);
      MakeExact(Scale(m, j + 8), v - 16 - j, m, v - 8, false);
    }
  }

  /** Zero reads back either way. */
  lemma ZeroBack(scientific: bool)
    ensures Parse(Print(Num(0, -8), scientific)) == Num(0, -8)
  {
    hide Make, Mul, Add, Feed, Step, Scale;
    CanonZero(-8);
    CanonZero(0);
    if scientific {
      ReadScientific(false, 0, 0);
      assert Print(Num(0, -8), true) == Sign(false) + Scientific(0, 0);
    } else {
      ZeroPlain();
      ScaleZero(8);
      ScaleZero(0);
      ReadWhole(false, 0, 0, 1, 0);
      assert Print(Num(0, -8), false) == Sign(false) + PlainDigits(0, 1, 0);
    }
  }

  lemma ZeroPlain()
    ensures SigFigs(0, 1, LOW) == 1
  {
  }

  /** Every number in range reads back as it was printed: mantissa, exponent and sign. */
  lemma RoundTrip(x: Num, scientific: bool)
    requires Valid(x)
    ensures Parse(Print(x, scientific)) == x
  {
    hide Make, Mul, Add, Feed, Step, Scale, Finish, Scientific, PlainDigits, SigFigs, Parse, Drop;
    if x.m == 0 {
      ZeroBack(scientific);
    } else {
      var frac, neg, v := Abs(x.m), x.m < 0, x.e + 8;
      var s := SigFigs(frac, 1, LOW);
      var q := SigFigsAre(frac);
      if !scientific && v == -1 && s == 9 {
        NineBack(neg, frac);
      } else if !scientific && 0 <= v <= 8 {
        PlainBack(neg, frac, s, v, q);
      } else if !scientific && -9 + s <= v < 0 {
        SmallBack(neg, frac, s, -v, q);
      } else {
        ScientificBack(neg, frac, v);
      }
    }
  }

  lemma ScientificBack(neg: bool, frac: nat, v: int)
    requires frac > 0 && Valid(Num(frac, v - 8))
    ensures Parse(Sign(neg) + Scientific(frac, v)) == Num(WithSign(neg, frac), v - 8)
  {
    hide Make, Mul, Add, Feed, Step, Scale, Finish, Scientific;
    ReadScientific(neg, frac, v);
    FinishScientific(Feed(Start(), Sign(neg) + Scientific(frac, v)), neg, frac, v);
  }

  /* Which form is chosen. */

  lemma Within(t: int, p: int)
    requires 0 <= t * p < p
    ensures t == 0
  {
  }

  lemma MultipleOf(m: nat, q: int, p: int)
    requires p > 0 && m == q * p
    ensures m % p == 0
  {
    var d, r := m / p, m % p;
    assert m == d * p + r && 0 <= r < p;
    assert (q - d) * p == q * p - d * p;
    Within(q - d, p);
  }

  lemma {:induction false} SigFigsLeast(m: nat, s: nat, j: nat, k: nat)
    requires s + j == 9 && k <= j && Scale(1, k) > 0 && m % Scale(1, k) == 0
    ensures Scale(1, j) > 0 && SigFigs(m, s, Scale(1, j)) <= 9 - k
    decreases j
  {
    ScaleSize(1, j);
    if j > k {
      TenthOfScale(j - 1);
      SigFigsLeast(m, s + 1, j - 1, k);
    }
  }

  /** A mantissa ends in k zeros just when at most the other digits are significant. */
  lemma ZerosAtEnd(m: nat, k: nat)
    requires 0 < m < HIGH
    ensures Scale(1, k) > 0 && (m % Scale(1, k) == 0 <==> SigFigs(m, 1, LOW) <= 9 - k)
  {
    hide Scale, SigFigs;
    ScaleSize(1, k);
    TenPowers();
    var s := SigFigs(m, 1, LOW);
    var q := SigFigsAre(m);
    if k >= 9 {
      ScaleTwice(1, 9, k - 9);
      ScaleSize(HIGH, k - 9);
      SmallRest(m, Scale(1, k));
    } else {
      if m % Scale(1, k) == 0 {
        SigFigsLeast(m, 1, 8, k);
      }
      if s <= 9 - k {
        ScaleTwice(q, 9 - s - k, k);
        ScaleTimes(Scale(q, 9 - s - k), k);
        MultipleOf(m, Scale(q, 9 - s - k), Scale(1, k));
      }
    }
  }

  lemma SmallRest(m: nat, p: int)
    requires 0 < m < p
    ensures m % p != 0
  {
  }

  lemma PlainHasNoE(frac: nat, sigfig: nat, vexp: nat)
    ensures 'e' !in PlainDigits(frac, sigfig, vexp)
  {
    hide DigitsOf, Zeros;
    DigitsAre(frac, 9);
    ZerosValue(0, if sigfig <= vexp + 1 then vexp + 1 - sigfig else 0);
  }

  /** Small enough for nine digits in front of the point, and with few enough behind it. */
  ghost predicate PlainFits(x: Num)
    requires x.Num?
  {
    ScaleSize(1, Abs(-8 - x.e));
    x.e <= 0 && (x.e >= -9 || Abs(x.m) % Scale(1, Abs(-8 - x.e)) == 0)
  }

  /**
   A number is printed with an exponent only when that is asked for or when it is 10^9 or more, or has digits further
   down than the eighth place behind the point, or the ninth if it is at least a tenth.
   */
  lemma PrintForm(x: Num, scientific: bool)
    requires Valid(x) && x.m != 0
    ensures 'e' in Print(x, scientific) <==> scientific || !PlainFits(x)
  {
    hide Scale, SigFigs, PlainDigits, DigitsOf, Decimals;
    var frac, v := Abs(x.m), x.e + 8;
    var s := SigFigs(frac, 1, LOW);
    ScaleNone(1);
    ZerosAtEnd(frac, 0);
    ZerosAtEnd(frac, 1);
    if v < 0 {
      ZerosAtEnd(frac, Abs(-8 - x.e));
    }
    PlainHasNoE(frac, 9, 8);
    if 0 <= v <= 8 {
      PlainHasNoE(frac, s, v);
    }
    if -9 + s <= v < 0 {
      PlainHasNoE(Abs(Drop(frac, -v)), s - v, 0);
    }
  }
}
