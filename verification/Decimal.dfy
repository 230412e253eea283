/**
 Nine-digit decimal floating point of hiptop/rpn/hipfloat.java: a value is mantissa times ten to
 the exponent.  The two ways to bring a mantissa into range, and what they do to the value.
 */
module Decimal {

  const MAX_EXP := 9991
  const MIN_EXP := -10007
  const LOW := 100_000_000
  const HIGH := 1_000_000_000

  datatype Num = Num(m: int, e: int) | Overflow | NotANumber

  function Abs(x: int): nat { if x < 0 then -x else x }

  /** Division by ten, towards zero. */
  function Tenth(x: int): int { if x < 0 then -(-x / 10) else x / 10 }

  function LastDigit(x: int): (d: int)
    ensures 0 <= d < 10
  {
    Abs(x) % 10
  }

  /** Ten to the k times x. */
  function Scale(x: int, k: nat): int {
    if k == 0 then x else 10 * Scale(x, k - 1)
  }

  /** Raises an exponent that is too small, dropping digits. */
  function Lift(m: int, e: int): (int, int)
    decreases MIN_EXP - e
  {
    if e < MIN_EXP && m != 0 then Lift(Tenth(m), e + 1) else (m, e)
  }

  function RoundedTenth(m: int, rounding: bool): int {
    Tenth(if rounding && LastDigit(m) >= 5 then m + 10 else m)
  }

  /** Drops digits beyond the ninth; the last one dropped rounds, and for ints every one does. */
  function Shrink(m: int, e: int, ints: bool): (int, int)
    decreases MAX_EXP - e
  {
    if Abs(m) >= HIGH && e < MAX_EXP then Shrink(RoundedTenth(m, ints || Abs(m) < 10 * HIGH), e + 1, ints) else (m, e)
  }

  /** Adds zeros up to nine digits. */
  function Grow(m: int, e: int): (int, int)
    decreases e - MIN_EXP
  {
    if Abs(m) < LOW && e > MIN_EXP then Grow(m * 10, e - 1) else (m, e)
  }

  /** A number from any mantissa and exponent: of a long, or of an int. */
  function Make(m: int, e: int, ints: bool): Num {
    var lifted := Lift(m, e);
    if lifted.0 == 0 then Num(0, -8)
    else
      var shrunk := Shrink(lifted.0, lifted.1, ints);
      var grown := Grow(shrunk.0, shrunk.1);
      if grown.1 > MAX_EXP || grown.0 >= HIGH then Overflow else Num(grown.0, grown.1)
  }

  /** In range: zero, nine digits, or fewer at the least exponent. */
  predicate Valid(x: Num) {
    x.Num? && ((x.m == 0 && x.e == -8) || (LOW <= Abs(x.m) < HIGH && MIN_EXP <= x.e <= MAX_EXP)
      || (x.m != 0 && Abs(x.m) < LOW && x.e == MIN_EXP))
  }

  /* Exactness: a value that can be represented comes out as it is. */

  lemma TenTimes(b: int)
    ensures Tenth(10 * b) == b && LastDigit(10 * b) == 0
  {
  }

  lemma {:induction false} ScaleSize(x: int, k: nat)
    ensures Abs(Scale(x, k)) >= Abs(x) && (k > 0 ==> Abs(Scale(x, k)) >= 10 * Abs(x)) && (x > 0 <==> Scale(x, k) > 0)
    ensures (x < 0 <==> Scale(x, k) < 0)
  {
    if k > 0 {
      ScaleSize(x, k - 1);
    }
  }

  lemma {:induction false} ScaleTwice(x: int, j: nat, k: nat)
    ensures Scale(Scale(x, j), k) == Scale(x, j + k)
  {
    if k > 0 {
      ScaleTwice(x, j, k - 1);
    }
  }

  lemma {:induction false} ScaleSum(x: int, y: int, k: nat)
    ensures Scale(x + y, k) == Scale(x, k) + Scale(y, k)
  {
    if k > 0 {
      ScaleSum(x, y, k - 1);
    }
  }

  lemma {:induction false} ScaleLess(x: int, y: int, k: nat)
    ensures x <= y <==> Scale(x, k) <= Scale(y, k)
    ensures x < y <==> Scale(x, k) < Scale(y, k)
  {
    if k > 0 {
      ScaleLess(x, y, k - 1);
    }
  }

  lemma {:induction false} LiftExact(r: int, k: nat, e: int)
    requires r != 0 && e + k >= MIN_EXP
    ensures var d := if e < MIN_EXP then MIN_EXP - e else 0; d <= k && Lift(Scale(r, k), e) == (Scale(r, k - d), e + d)
    decreases k
  {
    ScaleSize(r, k);
    if e < MIN_EXP {
      TenTimes(Scale(r, k - 1));
      LiftExact(r, k - 1, e + 1);
    }
  }

  lemma {:induction false} ShrinkExact(r: int, k: nat, e: int, ints: bool) returns (d: nat)
    requires Abs(r) < HIGH && e + k <= MAX_EXP
    ensures d <= k && Shrink(Scale(r, k), e, ints) == (Scale(r, k - d), e + d) && Abs(Scale(r, k - d)) < HIGH
    decreases k
  {
    d := 0;
    if Abs(Scale(r, k)) >= HIGH {
      TenTimes(Scale(r, k - 1));
      d := ShrinkExact(r, k - 1, e + 1, ints);
      d := d + 1;
    }
  }

  lemma {:induction false} GrowExact(m: int, j: nat, e: int)
    requires e - j >= MIN_EXP && (LOW <= Abs(Scale(m, j)) < HIGH || (Abs(Scale(m, j)) < LOW && e - j == MIN_EXP))
    ensures Grow(m, e) == (Scale(m, j), e - j)
    decreases j
  {
    if j > 0 {
      ScaleSize(m, j);
      ScaleTwice(m, 1, j - 1);
      assert Scale(m, 1) == 10 * Scale(m, 0);
      GrowExact(10 * m, j - 1, e - 1);
    }
  }

  /** The two mantissas stand for the same value. */
  ghost predicate Same(m: int, e: int, r: int, f: int) {
    if f >= e then m == Scale(r, f - e) else Scale(m, e - f) == r
  }

  /** Whatever the number of zeros, a value in range is found. */
  lemma MakeExact(m: int, e: int, r: int, f: int, ints: bool)
    requires Valid(Num(r, f)) && r != 0 && Same(m, e, r, f)
    ensures Make(m, e, ints) == Num(r, f)
  {
    hide Lift, Shrink, Grow, Scale;
    if f >= e {
      MakeExactDown(r, f - e, e, ints);
    } else {
      ScaleSize(m, e - f);
      NoLift(m, e);
      NoShrink(m, e, ints);
      GrowExact(m, e - f, e);
    }
  }

  lemma MakeExactDown(r: int, k: nat, e: int, ints: bool)
    requires Valid(Num(r, e + k)) && r != 0
    ensures Make(Scale(r, k), e, ints) == Num(r, e + k)
  {
    hide Lift, Shrink, Grow, Scale;
    LiftExact(r, k, e);
    var d := if e < MIN_EXP then MIN_EXP - e else 0;
    ScaleSize(r, k - d);
    var c := ShrinkExact(r, k - d, e + d, ints);
    ScaleSize(r, k - d - c);
    ScaleNone(r);
    ScaleNone(Scale(r, k - d - c));
    assert k - d - c == 0;
    GrowExact(r, 0, e + k);
  }

  lemma ScaleNone(x: int)
    ensures Scale(x, 0) == x
  {
  }

  lemma NoLift(m: int, e: int)
    requires e >= MIN_EXP
    ensures Lift(m, e) == (m, e)
  {
  }

  lemma NoShrink(m: int, e: int, ints: bool)
    requires Abs(m) < HIGH
    ensures Shrink(m, e, ints) == (m, e)
  {
  }

  /* Rounding, for values that are not negative. */

  /** r is m with its last k digits dropped, rounded half up. */
  ghost predicate HalfUp(m: int, k: nat, r: int) {
    if k == 0 then r == m else Scale(2 * r - 1, k) <= 2 * m < Scale(2 * r + 1, k)
  }

  lemma {:induction false} ScaleEven(x: int, k: nat)
    requires k > 0
    ensures Scale(x, k) % 2 == 0
  {
    assert Scale(x, k) == 2 * (5 * Scale(x, k - 1));
  }

  /** A digit dropped before rounding does not change what is rounded to. */
  lemma HalfUpDigit(m: int, k: nat, r: int)
    requires k >= 1 && m >= 0 && HalfUp(m / 10, k, r)
    ensures HalfUp(m, k + 1, r)
  {
    hide Scale;
    var a, d := m / 10, m % 10;
    assert m == 10 * a + d && 0 <= d <= 9;
    ScaleEven(2 * r + 1, k);
    EvenGap(a, Scale(2 * r + 1, k));
    ScaleStep(2 * r - 1, k);
    ScaleStep(2 * r + 1, k);
  }

  lemma EvenGap(a: int, top: int)
    requires 2 * a < top && top % 2 == 0
    ensures 2 * a + 2 <= top
  {
  }

  lemma ScaleStep(x: int, k: nat)
    ensures Scale(x, k + 1) == 10 * Scale(x, k)
  {
  }

  lemma RoundTen(m: int)
    requires HIGH <= m < 10 * HIGH
    ensures LOW <= RoundedTenth(m, true) <= HIGH && HalfUp(m, 1, RoundedTenth(m, true))
    ensures RoundedTenth(m, true) == HIGH ==> HalfUp(m, 2, LOW)
  {
    var a, d := m / 10, m % 10;
    assert m == 10 * a + d;
    var r := RoundedTenth(m, true);
    assert r == if d >= 5 then a + 1 else a;
    assert Scale(2 * r - 1, 1) == 10 * (2 * r - 1) && Scale(2 * r + 1, 1) == 10 * (2 * r + 1);
    ScaleStep(2 * LOW - 1, 1);
    ScaleStep(2 * LOW + 1, 1);
    ScaleStep(2 * LOW - 1, 0);
    ScaleStep(2 * LOW + 1, 0);
  }

  /** Of a long that is not negative, the nine leading digits come out rounded half up. */
  lemma {:induction false} ShrinkHalfUp(m: int, e: int)
    requires m >= 0 && Shrink(m, e, false).0 < HIGH
    ensures var (r, f) := Shrink(m, e, false); f >= e && HalfUp(m, f - e, r) && r >= 0 && (f > e ==> LOW <= r)
    decreases MAX_EXP - e
  {
    if m >= HIGH && e < MAX_EXP {
      if m < 10 * HIGH {
        RoundTen(m);
        var r := RoundedTenth(m, true);
        if r == HIGH {
          assert e + 1 < MAX_EXP;
          assert RoundedTenth(HIGH, true) == LOW;
          NoShrink(LOW, e + 2, false);
        } else {
          NoShrink(r, e + 1, false);
        }
      } else {
        ShrinkHalfUp(m / 10, e + 1);
        HalfUpDigit(m, Shrink(m / 10, e + 1, false).1 - (e + 1), Shrink(m / 10, e + 1, false).0);
      }
    }
  }

  /** Digits dropped while the exponent is raised do not change the rounding, when more digits are dropped after. */
  lemma {:induction false} LiftHalfUp(m: int, e: int, k: nat, r: int)
    requires m > 0 && k >= 1 && HalfUp(Lift(m, e).0, k, r)
    ensures Lift(m, e).1 >= e && HalfUp(m, Lift(m, e).1 - e + k, r)
    decreases MIN_EXP - e
  {
    if e < MIN_EXP {
      if m / 10 == 0 {
        assert Lift(Tenth(m), e + 1) == (0, e + 1);
        HalfUpDigit(m, k, r);
      } else {
        LiftHalfUp(m / 10, e + 1, k, r);
        HalfUpDigit(m, Lift(m / 10, e + 1).1 - (e + 1) + k, r);
      }
    }
  }

  lemma {:induction false} GrowScales(m: int, e: int)
    requires m > 0
    ensures var (r, f) := Grow(m, e);
      && f <= e && r == Scale(m, e - f) && r >= m
      && (m >= LOW ==> r == m && f == e)
      && (m < LOW && e >= MIN_EXP ==> r < HIGH)
    ensures var (r, f) := Grow(m, e); e >= MIN_EXP ==> f >= MIN_EXP && (r >= LOW || f == MIN_EXP)
    decreases e - MIN_EXP
  {
    if m < LOW && e > MIN_EXP {
      GrowScales(m * 10, e - 1);
      var (r, f) := Grow(m * 10, e - 1);
      ScaleTwice(m, 1, e - 1 - f);
      assert Scale(m, 1) == 10 * Scale(m, 0);
    }
  }

  /** r at exponent f is m at exponent e: exactly, when no digit had to go, and else rounded half up to nine digits. */
  ghost predicate Nearest(m: int, e: int, r: int, f: int) {
    if f > e then LOW <= r < HIGH && HalfUp(m, f - e, r) else r == Scale(m, e - f)
  }

  lemma LiftAway(m: int, e: int)
    requires m >= 0
    ensures Lift(m, e).0 >= 0 && (m == 0 ==> Lift(m, e).0 == 0) && Lift(m, e).1 >= e
    ensures (Lift(m, e).0 != 0 ==> Lift(m, e).1 >= MIN_EXP)
    ensures Lift(m, e).0 != 0 && e < MIN_EXP ==> Lift(m, e).1 == MIN_EXP
    decreases MIN_EXP - e
  {
    if e < MIN_EXP && m != 0 {
      LiftAway(m / 10, e + 1);
    }
  }

  /**
   A long mantissa that is not negative becomes the nearest nine-digit number, unless the value is so
   large that it overflows or so small that it drops to the least exponent.
   */
  lemma MakeNearest(m: int, e: int)
    requires m >= 0 && Make(m, e, false).Num? && (e >= MIN_EXP || Make(m, e, false).e > MIN_EXP)
    ensures Valid(Make(m, e, false))
    ensures m > 0 && Make(m, e, false).m != 0 ==> Nearest(m, e, Make(m, e, false).m, Make(m, e, false).e)
    ensures e >= MIN_EXP && m > 0 ==> Make(m, e, false).m > 0
  {
    hide Lift, Shrink, Grow, HalfUp;
    LiftAway(m, e);
    var l := Lift(m, e);
    if l.0 != 0 {
      var c := Shrink(l.0, l.1, false);
      if c.0 < HIGH {
        ShrinkHalfUp(l.0, l.1);
        ShrinkKeeps(l.0, l.1);
        GrowScales(c.0, c.1);
        if e >= MIN_EXP {
          NoLift(m, e);
          ScaleNone(m);
        } else if c.1 > l.1 {
          LiftHalfUp(m, e, c.1 - l.1, c.0);
        }
      } else {
        ShrinkStops(l.0, l.1);
        GrowScales(c.0, c.1);
      }
    } else if e >= MIN_EXP {
      NoLift(m, e);
    }
  }

  lemma {:induction false} ShrinkKeeps(m: int, e: int)
    requires m > 0 && e >= MIN_EXP && Shrink(m, e, false).0 < HIGH
    ensures var (r, f) := Shrink(m, e, false); r > 0 && f >= e && (f == e ==> r == m) && (f > e ==> r >= LOW)
  {
    ShrinkHalfUp(m, e);
    NothingDropped(m, e);
  }

  lemma NothingDropped(m: int, e: int)
    requires m > 0 && Shrink(m, e, false).1 >= e && HalfUp(m, Shrink(m, e, false).1 - e, Shrink(m, e, false).0)
    ensures Shrink(m, e, false).1 == e ==> Shrink(m, e, false).0 == m
  {
  }

  lemma {:induction false} ShrinkStops(m: int, e: int)
    requires m > 0 && Shrink(m, e, false).0 >= HIGH
    ensures Shrink(m, e, false).1 >= MAX_EXP
    decreases MAX_EXP - e
  {
    if m >= HIGH && e < MAX_EXP {
      ShrinkStops(RoundedTenth(m, m < 10 * HIGH), e + 1);
    }
  }
}
