/**
 The probe sequence of the double-hashing table in openblt/lib/libblt/hash.c: from
 a home slot, back by a step that depends on the key.  Since the sizes are prime and
 the step is smaller, a probe of as many steps as there are slots visits each once.
 */
module HashProbe {

  const SIZES := 26

  /** The slot counts a table goes through. */
  function TableSize(i: nat): (n: nat)
    requires i < SIZES
    ensures n >= 7
  {
    [7, 19, 43, 103, 229, 463, 1021, 2083, 4219, 8539, 17191, 34471, 69031, 138079, 276373, 552751, 1105549, 2211259,
     4422619, 8845453, 17691043, 35382091, 70764259, 141528559, 283057213, 566115259][i]
  }

  /** A larger table has at least twelve more slots. */
  lemma {:induction false} SizesGrow(i: nat, j: nat)
    requires i < j < SIZES
    ensures TableSize(i) + 12 <= TableSize(j)
  {
    hide TableSize;
    NextSize(j - 1);
    if i < j - 1 {
      SizesGrow(i, j - 1);
    }
  }

  lemma NextSize(i: nat)
    requires i + 1 < SIZES
    ensures TableSize(i) + 12 <= TableSize(i + 1)
  {
  }

  ghost predicate Prime(p: nat) {
    p > 1 && forall d :: 1 < d < p ==> p % d != 0
  }

  /** All sizes are prime: taken as an assumption wherever it is needed. */
  ghost predicate SizesPrime() {
    forall i: nat :: i < SIZES ==> Prime(TableSize(i))
  }

  /** A key as the unsigned 32-bit number that the remainders are taken of. */
  function Unsigned(key: int): nat { key % 0x1_0000_0000 }

  function Home(key: int, size: nat): (i: nat)
    requires size >= 7
    ensures i < size
  {
    Unsigned(key) % size
  }

  function Step(key: int, size: nat): (c: nat)
    requires size >= 7
    ensures 1 <= c <= size - 2
  {
    1 + Unsigned(key) % (size - 2)
  }

  /** One step back, wrapping around in front. */
  function Back(i: int, c: int, size: nat): int {
    if i - c < 0 then i - c + size else i - c
  }

  /** The slot after j steps. */
  function Probe(key: int, size: nat, j: nat): (i: nat)
    requires size >= 7
    ensures i < size
  {
    if j == 0 then Home(key, size) else Back(Probe(key, size, j - 1), Step(key, size), size)
  }

  lemma MultiplesFar(d: int, n: int)
    requires n > 0
    ensures d >= 1 ==> d * n >= n
    ensures d <= -1 ==> d * n <= -n
  {
  }

  lemma ModIs(x: int, n: nat, q: int, r: int)
    requires x == q * n + r && 0 <= r < n
    ensures x % n == r
  {
    var d := x / n - q;
    assert x == (x / n) * n + x % n;
    assert d * n == r - x % n;
    MultiplesFar(d, n);
  }

  /** A step back, wrapped around, is a subtraction modulo n. */
  lemma BackMod(a: int, c: nat, n: nat)
    requires n > 0 && c <= n
    ensures (a - c) % n == Back(a % n, c, n)
  {
    var q, r := a / n, a % n;
    assert a == q * n + r;
    if r - c < 0 {
      assert (q - 1) * n == q * n - n;
      ModIs(a - c, n, q - 1, r - c + n);
    } else {
      ModIs(a - c, n, q, r - c);
    }
  }

  lemma ProbeHome(key: int, size: nat)
    requires size >= 7
    ensures Probe(key, size, 0) == Home(key, size)
  {
  }

  lemma ProbeNext(key: int, size: nat, j: nat)
    requires size >= 7
    ensures Probe(key, size, j + 1) == Back(Probe(key, size, j), Step(key, size), size)
  {
  }

  /** j steps back are j times the step, modulo the size. */
  lemma {:induction false} ProbeClosed(key: int, size: nat, j: nat)
    requires size >= 7
    ensures Probe(key, size, j) == (Home(key, size) - j * Step(key, size)) % size
  {
    hide Home, Step, Back;
    var h, c := Home(key, size), Step(key, size);
    if j == 0 {
      ModIs(h, size, 0, h);
    } else {
      ProbeClosed(key, size, j - 1);
      BackMod(h - (j - 1) * c, c, size);
      assert h - (j - 1) * c - c == h - j * c;
    }
  }

  /** No multiple of c below the p-th is a multiple of the prime p. */
  lemma {:induction false} NoEarlyMultiple(p: nat, c: nat, j: nat)
    requires Prime(p) && 0 < c < p && 0 < j < p
    ensures (j * c) % p != 0
    decreases j
  {
    if (j * c) % p == 0 {
      var r, q, t := p % j, p / j, j * c / p;
      assert p == q * j + r;
      assert j * c == t * p;
      assert r * c == (c - q * t) * p by {
        assert r * c == p * c - q * (j * c);
        assert q * (j * c) == (q * t) * p;
      }
      if r == 0 {
        assert j == 1;
        ModIs(c, p, 0, c);
      } else {
        NoEarlyMultiple(p, c, r);
        ModIs(r * c, p, c - q * t, 0);
      }
    }
  }

  lemma SameRemainder(a: int, b: int, n: nat)
    requires n > 0 && a % n == b % n
    ensures (a - b) % n == 0
  {
    assert a - b == (a / n - b / n) * n;
    ModIs(a - b, n, a / n - b / n, 0);
  }

  lemma Difference(h: int, c: int, j: int, k: int)
    ensures (h - j * c) - (h - k * c) == (k - j) * c
  {
  }

  lemma MultiplesDiffer(p: nat, h: int, c: nat, j: nat, k: nat)
    requires Prime(p) && 0 < c < p && j < k < p
    ensures (h - j * c) % p != (h - k * c) % p
  {
    hide Prime;
    var a, b := h - j * c, h - k * c;
    Difference(h, c, j, k);
    NoEarlyMultiple(p, c, k - j);
    if a % p == b % p {
      SameRemainder(a, b, p);
    }
  }

  /** The probe does not come back to a slot before it has made as many steps as there are slots. */
  lemma ProbeDistinct(key: int, size: nat, j: nat, k: nat)
    requires size >= 7 && Prime(size) && j < k < size
    ensures Probe(key, size, j) != Probe(key, size, k)
  {
    hide Probe, Home, Step, Prime;
    ProbeClosed(key, size, j);
    ProbeClosed(key, size, k);
    MultiplesDiffer(size, Home(key, size), Step(key, size), j, k);
  }

  ghost function Visited(key: int, size: nat, j: nat): (s: set<int>)
    requires size >= 7
  {
    set l: nat | l < j :: Probe(key, size, l)
  }

  lemma {:induction false} VisitedCount(key: int, size: nat, j: nat)
    requires size >= 7 && Prime(size) && j <= size
    ensures |Visited(key, size, j)| == j
  {
    hide Probe;
    var before, all := Visited(key, size, if j == 0 then 0 else j - 1), Visited(key, size, j);
    if j == 0 {
      assert all == {};
    } else {
      VisitedCount(key, size, j - 1);
      var p := Probe(key, size, j - 1);
      forall l: nat | l < j - 1 ensures Probe(key, size, l) != p {
        ProbeDistinct(key, size, l, j - 1);
      }
      assert p !in before;
      assert all == before + {p};
    }
  }

  lemma {:induction false} Below(n: nat, s: set<int>)
    requires forall x :: x in s ==> 0 <= x < n
    ensures |s| <= n && (|s| == n ==> forall x :: 0 <= x < n ==> x in s)
  {
    if n > 0 {
      var t := s - {n - 1};
      Below(n - 1, t);
      if n - 1 in s {
        assert s == t + {n - 1};
      } else {
        assert s == t;
      }
    } else {
      assert forall x :: x !in s;
      assert s == {};
    }
  }

  /** Every slot is on every key's probe. */
  lemma ProbeCovers(key: int, size: nat, i: nat) returns (j: nat)
    requires size >= 7 && Prime(size) && i < size
    ensures j < size && Probe(key, size, j) == i
  {
    var s := Visited(key, size, size);
    VisitedCount(key, size, size);
    Below(size, s);
    assert i in s;
    j :| j < size && Probe(key, size, j) == i;
  }
}
