/** Multiplication and addition of hiptop/rpn/hipfloat.java, and how far their results may be off. */
module DecimalOps {
  import opened Decimal

  predicate Bad(x: Num) { !x.Num? }

  /** Drops k digits. */
  function Drop(m: int, k: nat): int
    decreases k
  {
    if k == 0 then m else Drop(Tenth(m), k - 1)
  }

  /** The mantissa at an exponent that is d higher; the last digit dropped rounds. */
  function Align(m: int, d: nat): int {
    if d == 0 then m else RoundedTenth(Drop(m, d - 1), true)
  }

  function Mul(x: Num, y: Num): Num {
    if Bad(x) then x else if Bad(y) then y else Make(x.m * y.m, x.e + y.e, false)
  }

  function Add(x: Num, y: Num): Num {
    if Bad(x) then x
    else if Bad(y) then y
    else if x.m == 0 then y
    else if y.m == 0 then x
    else if y.e > x.e then Make(y.m + Align(x.m, y.e - x.e), y.e, true)
    else Make(x.m + Align(y.m, x.e - y.e), x.e, true)
  }

  function Neg(x: Num): Num {
    if Bad(x) then x else Make(-x.m, x.e, true)
  }

  ghost predicate NotNegative(x: Num) { Valid(x) && x.m >= 0 }

  lemma MulMonotone(a: int, b: int, c: int)
    requires 0 <= a && b <= c
    ensures a * b <= a * c
  {
  }

  lemma ProductSize(a: int, b: int)
    requires 0 <= a < HIGH && 0 <= b < HIGH
    ensures 0 <= a * b < HIGH * HIGH && (a * b == 0 <==> a == 0 || b == 0)
  {
    MulMonotone(a, b, HIGH);
    MulMonotone(a, 0, b);
    if b > 0 {
      MulMonotone(a, 1, b);
    }
  }

  /**
   The product of two numbers that are not negative, in long arithmetic that cannot overflow, is the
   exact one rounded half up to nine digits, unless it drops to the least exponent.
   */
  lemma MulNearest(x: Num, y: Num)
    requires NotNegative(x) && NotNegative(y) && Mul(x, y).Num?
    requires x.e + y.e >= MIN_EXP || Mul(x, y).e > MIN_EXP
    ensures 0 <= x.m * y.m < 0x7fff_ffff_ffff_ffff - 10 && NotNegative(Mul(x, y))
    ensures x.m * y.m == 0 ==> Mul(x, y) == Num(0, -8)
    ensures x.m * y.m != 0 && Mul(x, y).m != 0 ==> Nearest(x.m * y.m, x.e + y.e, Mul(x, y).m, Mul(x, y).e)
    ensures x.m * y.m != 0 && x.e + y.e >= MIN_EXP ==> Mul(x, y).m != 0
  {
    hide Nearest;
    ProductSize(x.m, y.m);
    MakeNearest(x.m * y.m, x.e + y.e);
    MakeSign(x.m * y.m, x.e + y.e, false);
  }

  /** A mantissa that is not negative stays so. */
  lemma MakeSign(m: int, e: int, ints: bool)
    requires m >= 0
    ensures Make(m, e, ints).Num? ==> Make(m, e, ints).m >= 0
    ensures m == 0 ==> Make(m, e, ints) == Num(0, -8)
  {
    hide Lift, Shrink, Grow;
    LiftAway(m, e);
    ShrinkSign(Lift(m, e).0, Lift(m, e).1, ints);
    if Shrink(Lift(m, e).0, Lift(m, e).1, ints).0 > 0 {
      GrowScales(Shrink(Lift(m, e).0, Lift(m, e).1, ints).0, Shrink(Lift(m, e).0, Lift(m, e).1, ints).1);
    } else {
      GrowZero(Shrink(Lift(m, e).0, Lift(m, e).1, ints).1);
    }
  }

  lemma {:induction false} GrowZero(e: int)
    ensures Grow(0, e).0 == 0
    decreases e - MIN_EXP
  {
    if e > MIN_EXP {
      GrowZero(e - 1);
    }
  }

  lemma {:induction false} ShrinkSign(m: int, e: int, ints: bool)
    requires m >= 0
    ensures Shrink(m, e, ints).0 >= 0
    decreases MAX_EXP - e
  {
    if m >= HIGH && e < MAX_EXP {
      ShrinkSign(RoundedTenth(m, ints || m < 10 * HIGH), e + 1, ints);
    }
  }

  lemma RoundOne(m: int)
    requires m >= 0
    ensures HalfUp(m, 1, RoundedTenth(m, true)) && RoundedTenth(m, true) >= 0 && 10 * RoundedTenth(m, true) <= m + 5
  {
    var a, d := m / 10, m % 10;
    assert m == 10 * a + d;
    var r := RoundedTenth(m, true);
    assert r == if d >= 5 then a + 1 else a;
    ScaleStep(2 * r - 1, 0);
    ScaleStep(2 * r + 1, 0);
  }

  lemma {:induction false} AlignHalfUp(m: int, d: nat)
    requires 0 <= m < HIGH
    ensures HalfUp(m, d, Align(m, d)) && 0 <= Align(m, d) <= m
  {
    if d > 0 {
      if d == 1 {
        RoundOne(m);
      } else {
        AlignHalfUp(m / 10, d - 1);
        assert Drop(m, d - 1) == Drop(m / 10, d - 2);
        HalfUpDigit(m, d - 1, Align(m, d));
      }
      AlignSmall(m, d);
    }
  }

  lemma {:induction false} AlignSmall(m: int, d: nat)
    requires 0 <= m && d > 0
    ensures 0 <= Align(m, d) && 10 * Align(m, d) <= m + 5
  {
    if d == 1 {
      RoundOne(m);
    } else {
      AlignSmall(m / 10, d - 1);
      assert Drop(m, d - 1) == Drop(m / 10, d - 2);
    }
  }

  /** Rounding is off by at most half a unit. */
  lemma HalfUnit(m: int, k: nat, r: int)
    requires HalfUp(m, k, r)
    ensures -Scale(1, k) <= 2 * Scale(r, k) - 2 * m <= Scale(1, k)
  {
    hide Scale;
    ScaleNone(r);
    ScaleNone(1);
    ScaleSum(r, r, k);
    ScaleSum(2 * r - 1, 1, k);
    ScaleSum(2 * r, 1, k);
  }

  /** How far r at exponent f is off the sum of two numbers, in units of their lower exponent. */
  function ErrorOf(x: Num, y: Num, r: Num): int
    requires x.Num? && y.Num? && r.Num? && r.e >= x.e && r.e >= y.e
  {
    var low := if x.e < y.e then x.e else y.e;
    Scale(r.m, r.e - low) - Scale(x.m, x.e - low) - Scale(y.m, y.e - low)
  }

  function Unit(x: Num, y: Num, r: Num): int
    requires x.Num? && y.Num? && r.Num? && r.e >= x.e && r.e >= y.e
  {
    Scale(1, r.e - (if x.e < y.e then x.e else y.e))
  }

  /** The sum of two numbers that are not negative is within 11/20 of a unit in its last place. */
  lemma AddClose(x: Num, y: Num)
    requires NotNegative(x) && NotNegative(y) && x.m != 0 && y.m != 0 && Add(x, y).Num?
    ensures NotNegative(Add(x, y)) && Add(x, y).e >= x.e && Add(x, y).e >= y.e
    ensures -11 * Unit(x, y, Add(x, y)) <= 20 * ErrorOf(x, y, Add(x, y)) <= 11 * Unit(x, y, Add(x, y))
  {
    if y.e > x.e {
      AddOrdered(y, x);
    } else {
      AddOrdered(x, y);
    }
    hide Scale, Make, Align;
  }

  lemma AddOrdered(x: Num, y: Num)
    requires NotNegative(x) && NotNegative(y) && x.m != 0 && y.m != 0 && x.e >= y.e
    requires Make(x.m + Align(y.m, x.e - y.e), x.e, true).Num?
    ensures var r := Make(x.m + Align(y.m, x.e - y.e), x.e, true);
            && NotNegative(r) && r.e >= x.e
            && -11 * Unit(x, y, r) <= 20 * ErrorOf(x, y, r) <= 11 * Unit(x, y, r)
    ensures x.m + Align(y.m, x.e - y.e) + 10 < 0x7fff_ffff
  {
    hide Scale, Align, HalfUp, Make;
    var d := x.e - y.e;
    var a := Align(y.m, d);
    AlignHalfUp(y.m, d);
    HalfUnit(y.m, d, a);
    ScaleSum(x.m, a, d);
    ScaleNone(y.m);
    ScaleSize(1, d);
    SumMade(x.m + a, x.e);
    var r := Make(x.m + a, x.e, true);
    if x.m + a >= HIGH {
      ScaleBound(r.m, x.m + a, d);
      ScaleUp(1, d);
    }
  }

  lemma ScaleUp(v: int, d: nat)
    ensures Scale(v, d + 1) == 10 * Scale(v, d)
  {
  }

  /** Ten times r is within five of s, and so it is at any scale. */
  lemma ScaleBound(r: int, s: int, d: nat)
    requires -5 <= 10 * r - s <= 5
    ensures -5 * Scale(1, d) <= Scale(r, d + 1) - Scale(s, d) <= 5 * Scale(1, d)
  {
    ScaleTwice(r, 1, d);
    assert Scale(r, 1) == 10 * Scale(r, 0) == 10 * r;
    ScaleSum(s, 10 * r - s, d);
    ScaleLess(-5, 10 * r - s, d);
    ScaleLess(10 * r - s, 5, d);
    ScaleFive(d);
  }

  lemma {:induction false} ScaleFive(d: nat)
    ensures Scale(5, d) == 5 * Scale(1, d) && Scale(-5, d) == -5 * Scale(1, d)
  {
    if d > 0 {
      ScaleFive(d - 1);
    }
  }

  lemma SumKept(s: int, e: int)
    requires 0 < s < HIGH && MIN_EXP <= e <= MAX_EXP && (s >= LOW || e == MIN_EXP)
    ensures Make(s, e, true) == Num(s, e)
  {
    NoLift(s, e);
    NoShrink(s, e, true);
    assert Grow(s, e) == (s, e);
  }

  /** A sum of two mantissas: kept when it has nine digits at most, else rounded to a tenth. */
  lemma SumMade(s: int, e: int)
    requires 0 < s < 2 * HIGH && MIN_EXP <= e <= MAX_EXP && (s >= LOW || e == MIN_EXP) && Make(s, e, true).Num?
    ensures var r := Make(s, e, true);
            && NotNegative(r)
            && (if s < HIGH then r == Num(s, e) else r.e == e + 1 && -5 <= 10 * r.m - s <= 5)
  {
    NoLift(s, e);
    if s < HIGH {
      SumKept(s, e);
    } else {
      var a, d := s / 10, s % 10;
      assert s == 10 * a + d;
      var r := RoundedTenth(s, true);
      assert r == if d >= 5 then a + 1 else a;
      if e < MAX_EXP {
        NoShrink(r, e + 1, true);
        assert Shrink(s, e, true) == (r, e + 1);
        assert Grow(r, e + 1) == (r, e + 1);
      }
    }
  }

  /* Signs. */

  lemma {:induction false} DropScaled(q: int, k: nat)
    ensures Drop(Scale(q, k), k) == q
  {
    if k > 0 {
      ScaleSize(q, k - 1);
      TenTimes(Scale(q, k - 1));
      DropScaled(q, k - 1);
      TenthScaled(q, k);
    }
  }

  lemma TenthScaled(q: int, k: nat)
    requires k > 0
    ensures Tenth(Scale(q, k)) == Scale(q, k - 1)
  {
    TenTimes(Scale(q, k - 1));
  }

  /** Zeros that are dropped to line a number up are all that is dropped. */
  lemma AlignScaled(a: int, d: nat)
    ensures Align(Scale(a, d), d) == a
  {
    hide Scale;
    if d == 0 {
      ScaleNone(a);
    } else {
      ScaleTwice(a, 1, d - 1);
      DropScaled(Scale(a, 1), d - 1);
      ScaleStep(a, 0);
      ScaleNone(a);
      TenTimes(a);
    }
  }

  /**
   Of two numbers of any signs, the one with the lower exponent ending in zeros as far as it is lower, the sum is exact
   if it can be represented; and it is zero if they cancel.
   */
  lemma AddExact(x: Num, y: Num, a: int, r: int, f: int)
    requires Valid(x) && Valid(y) && x.m != 0 && y.m != 0 && x.e >= y.e && y.m == Scale(a, x.e - y.e)
    ensures x.m + a == 0 ==> Add(x, y) == Add(y, x) == Num(0, -8)
    ensures r != 0 && Valid(Num(r, f)) && Same(x.m + a, x.e, r, f) ==> Add(x, y) == Add(y, x) == Num(r, f)
  {
    hide Scale, Make, Align;
    AlignScaled(a, x.e - y.e);
    if x.e == y.e {
      ScaleNone(a);
      AlignScaled(x.m, 0);
      ScaleNone(x.m);
    }
    if x.m + a == 0 {
      MakeSign(0, x.e, true);
    }
    if r != 0 && Valid(Num(r, f)) && Same(x.m + a, x.e, r, f) {
      MakeExact(x.m + a, x.e, r, f, true);
    }
  }

  /** A product of numbers of any signs is exact if it can be represented. */
  lemma MulExact(x: Num, y: Num, r: int, f: int)
    requires x.Num? && y.Num? && r != 0 && Valid(Num(r, f)) && Same(x.m * y.m, x.e + y.e, r, f)
    ensures Mul(x, y) == Num(r, f)
  {
    hide Scale, Make;
    MakeExact(x.m * y.m, x.e + y.e, r, f, false);
  }

  /** Where a digit is dropped, a negative sum is the opposite of the positive one only if the digit is below five. */
  lemma NegativeSum(s: int, e: int)
    requires HIGH <= s < 2 * HIGH && MIN_EXP <= e < MAX_EXP
    ensures Make(s, e, true).Num? && Make(0 - s, e, true).Num?
    ensures Make(0 - s, e, true) == Num(-Make(s, e, true).m, Make(s, e, true).e) <==> s % 10 < 5
  {
    NoLift(s, e);
    NoLift(0 - s, e);
    var a, d := s / 10, s % 10;
    assert s == 10 * a + d;
    var r, n := RoundedTenth(s, true), RoundedTenth(0 - s, true);
    assert r == if d >= 5 then a + 1 else a;
    assert n == if d >= 5 then 0 - (a - 1) else 0 - a;
    NoShrink(r, e + 1, true);
    NoShrink(n, e + 1, true);
    assert Shrink(s, e, true) == (r, e + 1) && Shrink(0 - s, e, true) == (n, e + 1);
    assert Grow(r, e + 1) == (r, e + 1);
    if Abs(n) < LOW {
      assert Grow(n, e + 1) == Grow(10 * n, e) == (10 * n, e);
    } else {
      assert Grow(n, e + 1) == (n, e + 1);
    }
  }
}
