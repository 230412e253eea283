/** The fat-pivot quicksort of openblt/lib/libc/qsort.c, in place on an array of whole elements. */
module QSort {

  type Comparator<!T> = (T, T) -> int

  /** The sign of the result tells the order, and the order is total and transitive. */
  ghost predicate TotalPreorder<T(!new)>(cmp: Comparator<T>) {
    && (forall x, y :: cmp(x, y) < 0 <==> cmp(y, x) > 0)
    && (forall x, y, z :: cmp(x, y) <= 0 && cmp(y, z) <= 0 ==> cmp(x, z) <= 0)
  }

  ghost predicate Sorted<T(!new)>(s: seq<T>, lo: nat, hi: nat, cmp: Comparator<T>)
    requires hi <= |s|
  {
    forall i, j :: lo <= i < j < hi ==> cmp(s[i], s[j]) <= 0
  }

  /** Nothing before mid is greater than anything from mid on. */
  ghost predicate Below<T(!new)>(s: seq<T>, lo: nat, mid: nat, hi: nat, cmp: Comparator<T>)
    requires hi <= |s|
  {
    forall i, j :: lo <= i < mid && mid <= j < hi ==> cmp(s[i], s[j]) <= 0
  }

  datatype Side = Less | Same | More

  predicate OnSide(side: Side, r: int) {
    match side
    case Less => r < 0
    case Same => r == 0
    case More => r > 0
  }

  /** All elements of the range are on that side of v. */
  ghost predicate All<T(!new)>(s: seq<T>, lo: nat, hi: nat, cmp: Comparator<T>, side: Side, v: T)
    requires hi <= |s|
  {
    forall i :: lo <= i < hi ==> OnSide(side, cmp(s[i], v))
  }

  /** t is s with the elements of the range in another order. */
  ghost predicate Reordered<T(!new)>(s: seq<T>, t: seq<T>, lo: nat, hi: nat) {
    && lo <= hi <= |s| == |t|
    && (forall k :: 0 <= k < |s| && !(lo <= k < hi) ==> t[k] == s[k])
    && multiset(t[lo..hi]) == multiset(s[lo..hi])
  }

  lemma ReorderedSame<T(!new)>(s: seq<T>, lo: nat, hi: nat)
    requires lo <= hi <= |s|
    ensures Reordered(s, s, lo, hi)
  {
  }

  lemma ReorderedChain<T(!new)>(s: seq<T>, t: seq<T>, u: seq<T>, lo: nat, hi: nat)
    requires Reordered(s, t, lo, hi) && Reordered(t, u, lo, hi)
    ensures Reordered(s, u, lo, hi)
  {
  }

  lemma ReorderedWidens<T(!new)>(s: seq<T>, t: seq<T>, lo: nat, hi: nat, lo': nat, hi': nat)
    requires Reordered(s, t, lo, hi) && lo' <= lo && hi <= hi' <= |s|
    ensures Reordered(s, t, lo', hi')
  {
    assert s[lo'..hi'] == s[lo'..lo] + s[lo..hi] + s[hi..hi'];
    assert t[lo'..hi'] == t[lo'..lo] + t[lo..hi] + t[hi..hi'];
    assert s[lo'..lo] == t[lo'..lo] && s[hi..hi'] == t[hi..hi'];
  }

  lemma SwapReorders<T(!new)>(s: seq<T>, t: seq<T>, i: nat, j: nat, lo: nat, hi: nat)
    requires lo <= i < hi <= |s| && lo <= j < hi && t == s[i := s[j]][j := s[i]]
    ensures Reordered(s, t, lo, hi)
  {
    assert t[lo..hi] == s[lo..hi][i - lo := s[j]][j - lo := s[i]];
  }

  /** What stands in the range after reordering stood there before. */
  lemma CameFrom<T(!new)>(s: seq<T>, t: seq<T>, lo: nat, hi: nat, k: nat) returns (l: nat)
    requires Reordered(s, t, lo, hi) && lo <= k < hi
    ensures lo <= l < hi && s[l] == t[k]
  {
    assert t[k] == t[lo..hi][k - lo];
    assert t[k] in multiset(t[lo..hi]);
    assert t[k] in s[lo..hi];
    var d :| 0 <= d < hi - lo && s[lo..hi][d] == t[k];
    l := lo + d;
  }

  lemma AllKept<T(!new)>(s: seq<T>, t: seq<T>, lo: nat, hi: nat, cmp: Comparator<T>, side: Side, v: T)
    requires Reordered(s, t, lo, hi) && All(s, lo, hi, cmp, side, v)
    ensures All(t, lo, hi, cmp, side, v)
  {
    forall i | lo <= i < hi ensures OnSide(side, cmp(t[i], v)) {
      var l := CameFrom(s, t, lo, hi, i);
    }
  }

  lemma BelowKept<T(!new)>(s: seq<T>, t: seq<T>, lo: nat, mid: nat, hi: nat, cmp: Comparator<T>)
    requires lo <= mid && Reordered(s, t, mid, hi) && Below(s, lo, mid, hi, cmp)
    ensures Below(t, lo, mid, hi, cmp)
  {
    forall i, j | lo <= i < mid && mid <= j < hi ensures cmp(t[i], t[j]) <= 0 {
      var l := CameFrom(s, t, mid, hi, j);
      assert cmp(s[i], s[l]) <= 0;
    }
  }

  method Swap<T(!new)>(a: array<T>, i: nat, j: nat, ghost lo: nat, ghost hi: nat)
    requires lo <= i < hi <= a.Length && lo <= j < hi
    modifies a
    ensures a[..] == old(a[..])[i := old(a[j])][j := old(a[i])]
    ensures Reordered(old(a[..]), a[..], lo, hi)
  {
    a[i], a[j] := a[j], a[i];
    SwapReorders(old(a[..]), a[..], i, j, lo, hi);
  }

  /** t is s with the n elements from i on and the n elements from j on exchanged. */
  ghost predicate Exchanged<T(!new)>(s: seq<T>, t: seq<T>, i: nat, j: nat, n: nat) {
    && |s| == |t| && i + n <= j && j + n <= |s|
    && (forall k :: i <= k < i + n ==> t[k] == s[k + (j - i)])
    && (forall k :: j <= k < j + n ==> t[k] == s[k - (j - i)])
    && (forall k :: 0 <= k < |s| && !(i <= k < i + n) && !(j <= k < j + n) ==> t[k] == s[k])
  }

  lemma ExchangedNone<T(!new)>(s: seq<T>, i: nat, j: nat)
    requires i <= j <= |s|
    ensures Exchanged(s, s, i, j, 0)
  {
  }

  lemma ExchangedNext<T(!new)>(s: seq<T>, t: seq<T>, i: nat, j: nat, d: nat)
    requires Exchanged(s, t, i, j, d) && i + d < j && j + d < |s|
    ensures Exchanged(s, t[i + d := t[j + d]][j + d := t[i + d]], i, j, d + 1)
  {
  }

  lemma VecSwapNext<T(!new)>(s: seq<T>, t: seq<T>, i: nat, j: nat, d: nat, lo: nat, hi: nat)
    requires Reordered(s, t, lo, hi) && Exchanged(s, t, i, j, d) && lo <= i && i + d < j && j + d < hi
    ensures |t| == |s| && j + d < |t|
    ensures var u := t[i + d := t[j + d]][j + d := t[i + d]]; Reordered(s, u, lo, hi) && Exchanged(s, u, i, j, d + 1)
  {
    hide Exchanged;
    var u := t[i + d := t[j + d]][j + d := t[i + d]];
    SwapReorders(t, u, i + d, j + d, lo, hi);
    ReorderedChain(s, t, u, lo, hi);
    ExchangedNext(s, t, i, j, d);
  }

  /** Swaps two stretches of n elements that do not overlap. */
  method VecSwap<T(!new)>(a: array<T>, i: nat, j: nat, n: nat, ghost lo: nat, ghost hi: nat)
    requires lo <= i && i + n <= j && j + n <= hi <= a.Length
    modifies a
    ensures Reordered(old(a[..]), a[..], lo, hi) && Exchanged(old(a[..]), a[..], i, j, n)
  {
    hide *;
    ghost var s := a[..];
    ReorderedSame(s, lo, hi);
    ExchangedNone(s, i, j);
    var d := 0;
    while d < n
      invariant 0 <= d <= n && Reordered(s, a[..], lo, hi) && Exchanged(s, a[..], i, j, d)
    {
      VecSwapNext(s, a[..], i, j, d, lo, hi);
      Swap(a, i + d, j + d, lo, hi);
      d := d + 1;
    }
  }

  /** Is m between the two others? */
  ghost predicate Between<T(!new)>(cmp: Comparator<T>, x: T, m: T, y: T) {
    (cmp(x, m) <= 0 && cmp(m, y) <= 0) || (cmp(y, m) <= 0 && cmp(m, x) <= 0)
  }

  /** The index of the median of three elements. */
  method Med3<T(!new)>(s: array<T>, a: nat, b: nat, c: nat, cmp: Comparator<T>) returns (m: nat)
    requires TotalPreorder(cmp) && a < s.Length && b < s.Length && c < s.Length
    ensures (m == a && Between(cmp, s[b], s[a], s[c])) || (m == b && Between(cmp, s[a], s[b], s[c]))
            || (m == c && Between(cmp, s[a], s[c], s[b]))
  {
    if cmp(s[a], s[b]) < 0 {
      m := if cmp(s[b], s[c]) < 0 then b else if cmp(s[a], s[c]) < 0 then c else a;
    } else {
      m := if cmp(s[b], s[c]) > 0 then b else if cmp(s[a], s[c]) < 0 then a else c;
    }
  }

  /** Sorted up to and including last, but for the element at p, which may be too small for its place. */
  ghost predicate SortedBut<T(!new)>(s: seq<T>, lo: nat, last: nat, p: nat, cmp: Comparator<T>)
    requires last < |s|
  {
    forall i, j :: lo <= i < j <= last && j != p ==> cmp(s[i], s[j]) <= 0
  }

  lemma SinkOne<T(!new)>(s: seq<T>, lo: nat, last: nat, p: nat, cmp: Comparator<T>)
    requires TotalPreorder(cmp) && lo < p <= last < |s| && SortedBut(s, lo, last, p, cmp) && cmp(s[p - 1], s[p]) > 0
    ensures SortedBut(s[p := s[p - 1]][p - 1 := s[p]], lo, last, p - 1, cmp)
  {
    assert cmp(s[p], s[p - 1]) < 0;
  }

  lemma Sunk<T(!new)>(s: seq<T>, lo: nat, last: nat, p: nat, cmp: Comparator<T>)
    requires TotalPreorder(cmp) && lo <= p <= last < |s| && SortedBut(s, lo, last, p, cmp)
    requires p == lo || cmp(s[p - 1], s[p]) <= 0
    ensures Sorted(s, lo, last + 1, cmp)
  {
    forall i, j | lo <= i < j < last + 1 ensures cmp(s[i], s[j]) <= 0 {
      if j == p && i < p - 1 {
        assert cmp(s[i], s[p - 1]) <= 0;
      }
    }
  }

  lemma StartSinking<T(!new)>(s: seq<T>, lo: nat, pm: nat, cmp: Comparator<T>)
    requires pm < |s| && Sorted(s, lo, pm, cmp)
    ensures SortedBut(s, lo, pm, pm, cmp)
  {
  }

  /** Lets the element at pm sink to its place among the sorted ones before it. */
  method Sink<T(!new)>(a: array<T>, lo: nat, pm: nat, ghost hi: nat, cmp: Comparator<T>)
    requires TotalPreorder(cmp) && lo <= pm < hi <= a.Length && Sorted(a[..], lo, pm, cmp)
    modifies a
    ensures Sorted(a[..], lo, pm + 1, cmp) && Reordered(old(a[..]), a[..], lo, hi)
  {
    hide Reordered, TotalPreorder, Sorted, SortedBut;
    ghost var s := a[..];
    ReorderedSame(s, lo, hi);
    StartSinking(s, lo, pm, cmp);
    var pl := pm;
    while pl > lo && cmp(a[pl - 1], a[pl]) > 0
      invariant lo <= pl <= pm && Reordered(s, a[..], lo, hi) && SortedBut(a[..], lo, pm, pl, cmp)
    {
      ghost var t := a[..];
      SinkOne(t, lo, pm, pl, cmp);
      Swap(a, pl, pl - 1, lo, hi);
      ReorderedChain(s, t, a[..], lo, hi);
      pl := pl - 1;
    }
    Sunk(a[..], lo, pm, pl, cmp);
  }

  method InsertionSort<T(!new)>(a: array<T>, lo: nat, n: nat, cmp: Comparator<T>)
    requires TotalPreorder(cmp) && lo + n <= a.Length
    modifies a
    ensures Sorted(a[..], lo, lo + n, cmp) && Reordered(old(a[..]), a[..], lo, lo + n)
  {
    hide Reordered, TotalPreorder, Sorted;
    ghost var s, hi := a[..], lo + n;
    ReorderedSame(s, lo, hi);
    OneSorted(s, lo, lo, cmp);
    var pm := lo + 1;
    if n > 0 {
      OneSorted(s, lo, pm, cmp);
    }
    while pm < lo + n
      invariant lo < pm && (pm <= hi || n == 0) && Reordered(s, a[..], lo, hi)
      invariant Sorted(a[..], lo, if n == 0 then lo else pm, cmp)
    {
      ghost var t := a[..];
      Sink(a, lo, pm, hi, cmp);
      ReorderedChain(s, t, a[..], lo, hi);
      pm := pm + 1;
    }
  }

  /** The pivot: the middle element, or the median of three, or of three medians of three. */
  method ChoosePivot<T(!new)>(s: array<T>, a: nat, n: nat, cmp: Comparator<T>) returns (pm: nat)
    requires TotalPreorder(cmp) && n >= 7 && a + n <= s.Length
    ensures a <= pm < a + n
    ensures 7 < n <= 40 ==> Between(cmp, s[a], s[pm], s[a + n - 1]) || Between(cmp, s[a], s[pm], s[a + n / 2])
                            || Between(cmp, s[a + n / 2], s[pm], s[a + n - 1])
  {
    pm := a + n / 2;
    if n > 7 {
      var pl, pn := a, a + (n - 1);
      if n > 40 {
        var d := n / 8;
        pl := Med3(s, pl, pl + d, pl + 2 * d, cmp);
        pm := Med3(s, pm - d, pm, pm + d, cmp);
        pn := Med3(s, pn - 2 * d, pn - d, pn, cmp);
      }
      pm := Med3(s, pl, pm, pn, cmp);
    }
  }

  /** The bounds of the regions during partitioning. */
  predicate Bounds(lo: nat, hi: nat, pa: nat, pb: nat, pc: nat, pd: nat) {
    lo < pa <= pb <= pc + 1 <= pd + 1 <= hi
  }

  /** The regions: equal, less, not yet seen, greater, equal. */
  ghost predicate Parted<T(!new)>(s: seq<T>, lo: nat, hi: nat, pa: nat, pb: nat, pc: nat, pd: nat, cmp: Comparator<T>,
                           v: T)
    requires Bounds(lo, hi, pa, pb, pc, pd) && hi <= |s|
  {
    && All(s, lo, pa, cmp, Same, v) && All(s, pa, pb, cmp, Less, v)
    && All(s, pc + 1, pd + 1, cmp, More, v) && All(s, pd + 1, hi, cmp, Same, v)
  }

  /** Partitioning under way: the pivot v is still in front, and the elements are those there were. */
  ghost predicate Partitioning<T(!new)>(s0: seq<T>, s: seq<T>, lo: nat, hi: nat, pa: nat, pb: nat, pc: nat, pd: nat,
                                        cmp: Comparator<T>, v: T, swapped: bool) {
    && Bounds(lo, hi, pa, pb, pc, pd) && hi <= |s| && s[lo] == v
    && Parted(s, lo, hi, pa, pb, pc, pd, cmp, v) && Reordered(s0, s, lo, hi) && (!swapped ==> s == s0)
  }

  lemma StartPartition<T(!new)>(s: seq<T>, lo: nat, hi: nat, cmp: Comparator<T>)
    requires TotalPreorder(cmp) && lo < hi <= |s|
    ensures Partitioning(s, s, lo, hi, lo + 1, lo + 1, hi - 1, hi - 1, cmp, s[lo], false)
  {
  }

  lemma SeenLess<T(!new)>(s0: seq<T>, s: seq<T>, lo: nat, hi: nat, pa: nat, pb: nat, pc: nat, pd: nat,
                          cmp: Comparator<T>, v: T, swapped: bool)
    requires Partitioning(s0, s, lo, hi, pa, pb, pc, pd, cmp, v, swapped) && pb <= pc && cmp(s[pb], v) < 0
    ensures Partitioning(s0, s, lo, hi, pa, pb + 1, pc, pd, cmp, v, swapped)
  {
    hide Reordered;
  }

  lemma SeenMore<T(!new)>(s0: seq<T>, s: seq<T>, lo: nat, hi: nat, pa: nat, pb: nat, pc: nat, pd: nat,
                          cmp: Comparator<T>, v: T, swapped: bool)
    requires Partitioning(s0, s, lo, hi, pa, pb, pc, pd, cmp, v, swapped) && pb <= pc && cmp(s[pc], v) > 0
    ensures Partitioning(s0, s, lo, hi, pa, pb, pc - 1, pd, cmp, v, swapped)
  {
    hide Reordered;
  }

  lemma SeenEqualLeft<T(!new)>(s0: seq<T>, s: seq<T>, lo: nat, hi: nat, pa: nat, pb: nat, pc: nat, pd: nat,
                               cmp: Comparator<T>, v: T, swapped: bool)
    requires Partitioning(s0, s, lo, hi, pa, pb, pc, pd, cmp, v, swapped) && pb <= pc && cmp(s[pb], v) == 0
    ensures Partitioning(s0, s[pa := s[pb]][pb := s[pa]], lo, hi, pa + 1, pb + 1, pc, pd, cmp, v, true)
  {
    var t := s[pa := s[pb]][pb := s[pa]];
    SwapReorders(s, t, pa, pb, lo, hi);
    ReorderedChain(s0, s, t, lo, hi);
    hide Reordered;
  }

  lemma SeenEqualRight<T(!new)>(s0: seq<T>, s: seq<T>, lo: nat, hi: nat, pa: nat, pb: nat, pc: nat, pd: nat,
                                cmp: Comparator<T>, v: T, swapped: bool)
    requires Partitioning(s0, s, lo, hi, pa, pb, pc, pd, cmp, v, swapped) && pb <= pc && cmp(s[pc], v) == 0
    ensures Partitioning(s0, s[pc := s[pd]][pd := s[pc]], lo, hi, pa, pb, pc - 1, pd - 1, cmp, v, true)
  {
    var t := s[pc := s[pd]][pd := s[pc]];
    SwapReorders(s, t, pc, pd, lo, hi);
    ReorderedChain(s0, s, t, lo, hi);
    hide Reordered;
  }

  lemma SeenBoth<T(!new)>(s0: seq<T>, s: seq<T>, lo: nat, hi: nat, pa: nat, pb: nat, pc: nat, pd: nat,
                          cmp: Comparator<T>, v: T, swapped: bool)
    requires Partitioning(s0, s, lo, hi, pa, pb, pc, pd, cmp, v, swapped) && pb <= pc && cmp(s[pb], v) > 0
    requires cmp(s[pc], v) < 0
    ensures pb < pc && Partitioning(s0, s[pb := s[pc]][pc := s[pb]], lo, hi, pa, pb + 1, pc - 1, pd, cmp, v, true)
  {
    var t := s[pb := s[pc]][pc := s[pb]];
    SwapReorders(s, t, pb, pc, lo, hi);
    ReorderedChain(s0, s, t, lo, hi);
    hide Reordered;
  }

  /** Partitions the range around its first element; swapped tells whether anything was moved or found equal. */
  method Partition<T(!new)>(a: array<T>, lo: nat, n: nat, cmp: Comparator<T>)
    returns (pa: nat, pb: nat, pc: nat, pd: nat, swapped: bool)
    requires TotalPreorder(cmp) && n >= 1 && lo + n <= a.Length
    modifies a
    ensures Partitioning(old(a[..]), a[..], lo, lo + n, pa, pb, pc, pd, cmp, old(a[lo]), swapped) && pb == pc + 1
  {
    hide Reordered, Parted, TotalPreorder;
    ghost var s, hi, v := a[..], lo + n, a[lo];
    StartPartition(s, lo, hi, cmp);
    pa, pb, swapped := lo + 1, lo + 1, false;
    pc, pd := lo + (n - 1), lo + (n - 1);
    while true
      invariant Partitioning(s, a[..], lo, hi, pa, pb, pc, pd, cmp, v, swapped)
      decreases pc + 1 - pb
    {
      while pb <= pc && cmp(a[pb], a[lo]) <= 0
        invariant Partitioning(s, a[..], lo, hi, pa, pb, pc, pd, cmp, v, swapped)
      {
        if cmp(a[pb], a[lo]) == 0 {
          SeenEqualLeft(s, a[..], lo, hi, pa, pb, pc, pd, cmp, v, swapped);
          Swap(a, pa, pb, lo, hi);
          swapped, pa := true, pa + 1;
        } else {
          SeenLess(s, a[..], lo, hi, pa, pb, pc, pd, cmp, v, swapped);
        }
        pb := pb + 1;
      }
      while pb <= pc && cmp(a[pc], a[lo]) >= 0
        invariant Partitioning(s, a[..], lo, hi, pa, pb, pc, pd, cmp, v, swapped)
        invariant pb <= pc ==> cmp(a[pb], a[lo]) > 0
        decreases pc + 1 - pb
      {
        if cmp(a[pc], a[lo]) == 0 {
          SeenEqualRight(s, a[..], lo, hi, pa, pb, pc, pd, cmp, v, swapped);
          Swap(a, pc, pd, lo, hi);
          swapped, pd := true, pd - 1;
        } else {
          SeenMore(s, a[..], lo, hi, pa, pb, pc, pd, cmp, v, swapped);
        }
        pc := pc - 1;
      }
      if pb > pc {
        break;
      }
      SeenBoth(s, a[..], lo, hi, pa, pb, pc, pd, cmp, v, swapped);
      Swap(a, pb, pc, lo, hi);
      swapped, pb, pc := true, pb + 1, pc - 1;
    }
  }

  /** Exchanging the outer ends of two neighbouring regions makes them change places. */
  lemma RegionsChanged<T(!new)>(s: seq<T>, t: seq<T>, x: nat, y: nat, z: nat, r: nat, cmp: Comparator<T>, left: Side,
                         right: Side, v: T)
    requires x <= y <= z <= |s| && r == (if y - x < z - y then y - x else z - y) && Exchanged(s, t, x, z - r, r)
    requires All(s, x, y, cmp, left, v) && All(s, y, z, cmp, right, v)
    ensures All(t, x, x + (z - y), cmp, right, v) && All(t, x + (z - y), z, cmp, left, v)
    ensures forall k :: 0 <= k < |s| && !(x <= k < z) ==> t[k] == s[k]
  {
  }

  /** Moves the equal elements from both ends to the middle. */
  method Gather<T(!new)>(a: array<T>, lo: nat, hi: nat, pa: nat, pb: nat, pc: nat, pd: nat, cmp: Comparator<T>,
                  ghost v: T)
    requires Bounds(lo, hi, pa, pb, pc, pd) && hi <= a.Length && Parted(a[..], lo, hi, pa, pb, pc, pd, cmp, v)
    requires pb == pc + 1
    modifies a
    ensures Reordered(old(a[..]), a[..], lo, hi)
    ensures All(a[..], lo, lo + (pb - pa), cmp, Less, v) && All(a[..], lo + (pb - pa), hi - (pd - pc), cmp, Same, v)
    ensures All(a[..], hi - (pd - pc), hi, cmp, More, v)
  {
    hide Reordered, Exchanged, OnSide;
    ghost var s := a[..];
    var r := if pa - lo < pb - pa then pa - lo else pb - pa;
    VecSwap(a, lo, pb - r, r, lo, hi);
    ghost var t := a[..];
    RegionsChanged(s, t, lo, pa, pb, r, cmp, Same, Less, v);
    r := if pd - pc < hi - pd - 1 then pd - pc else hi - pd - 1;
    VecSwap(a, pb, hi - r, r, lo, hi);
    RegionsChanged(t, a[..], pb, pd + 1, hi, r, cmp, More, Same, v);
    ReorderedChain(s, t, a[..], lo, hi);
  }

  /** Up to b the elements are where they belong; the rest is still to be sorted. */
  ghost predicate SortedUpTo<T(!new)>(s0: seq<T>, s: seq<T>, lo: nat, b: nat, hi: nat, cmp: Comparator<T>) {
    && lo <= b <= hi && Reordered(s0, s, lo, hi) && Sorted(s, lo, b, cmp) && Below(s, lo, b, hi, cmp)
  }

  lemma RestReordered<T(!new)>(s0: seq<T>, s: seq<T>, t: seq<T>, lo: nat, b: nat, hi: nat, cmp: Comparator<T>)
    requires SortedUpTo(s0, s, lo, b, hi, cmp) && Reordered(s, t, b, hi)
    ensures SortedUpTo(s0, t, lo, b, hi, cmp)
  {
    ReorderedWidens(s, t, b, hi, lo, hi);
    ReorderedChain(s0, s, t, lo, hi);
    BelowKept(s, t, lo, b, hi, cmp);
  }

  lemma RestSorted<T(!new)>(s0: seq<T>, s: seq<T>, lo: nat, b: nat, c: nat, hi: nat, cmp: Comparator<T>)
    requires SortedUpTo(s0, s, lo, b, hi, cmp) && b <= c <= hi && Sorted(s, b, c, cmp) && Below(s, b, c, hi, cmp)
    ensures SortedUpTo(s0, s, lo, c, hi, cmp)
  {
    hide Reordered;
  }

  /** Smaller elements, then those equal to v, then greater ones. */
  ghost predicate InParts<T(!new)>(s: seq<T>, lo: nat, m1: nat, m2: nat, hi: nat, cmp: Comparator<T>, v: T) {
    && lo <= m1 <= m2 <= hi <= |s|
    && All(s, lo, m1, cmp, Less, v) && All(s, m1, m2, cmp, Same, v) && All(s, m2, hi, cmp, More, v)
  }

  /** With the smaller elements sorted, everything but the greater ones is where it belongs. */
  lemma PartsOrdered<T(!new)>(s: seq<T>, lo: nat, m1: nat, m2: nat, hi: nat, cmp: Comparator<T>, v: T)
    requires TotalPreorder(cmp) && lo <= m1 <= m2 <= hi <= |s|
    requires InParts(s, lo, m1, m2, hi, cmp, v) && Sorted(s, lo, m1, cmp)
    ensures Sorted(s, lo, m2, cmp) && Below(s, lo, m2, hi, cmp)
  {
    forall i, j | lo <= i < j < hi && m1 <= j && i < m2 ensures cmp(s[i], s[j]) <= 0 {
      assert cmp(s[i], v) <= 0 && cmp(v, s[j]) <= 0;
    }
  }

  /** The smaller elements reordered among themselves leave the parts as they are. */
  lemma PartsKept<T(!new)>(s: seq<T>, t: seq<T>, lo: nat, m1: nat, m2: nat, hi: nat, cmp: Comparator<T>, v: T)
    requires lo <= m1 <= m2 <= hi <= |s| && Reordered(s, t, lo, m1)
    requires InParts(s, lo, m1, m2, hi, cmp, v)
    ensures InParts(t, lo, m1, m2, hi, cmp, v)
  {
    AllKept(s, t, lo, m1, cmp, Less, v);
  }

  lemma PartitionDone<T(!new)>(s0: seq<T>, s: seq<T>, lo: nat, hi: nat, pa: nat, pb: nat, pc: nat, pd: nat,
                               cmp: Comparator<T>, v: T, swapped: bool)
    requires Partitioning(s0, s, lo, hi, pa, pb, pc, pd, cmp, v, swapped) && pb == pc + 1
    ensures Bounds(lo, hi, pa, pb, pc, pd) && hi <= |s| && Parted(s, lo, hi, pa, pb, pc, pd, cmp, v)
    ensures Reordered(s0, s, lo, hi)
    ensures 0 <= pb - pa && 0 <= pd - pc && (pb - pa) + (pd - pc) < hi - lo
  {
    hide Parted, Reordered;
  }

  lemma GatheredParts<T(!new)>(s: seq<T>, lo: nat, m1: nat, m2: nat, hi: nat, cmp: Comparator<T>, v: T)
    requires lo <= m1 <= m2 <= hi <= |s|
    requires All(s, lo, m1, cmp, Less, v) && All(s, m1, m2, cmp, Same, v) && All(s, m2, hi, cmp, More, v)
    ensures InParts(s, lo, m1, m2, hi, cmp, v)
  {
  }

  /**
   Moves a pivot to the middle, with less elements that are smaller before it and more that are
   greater after it, and equal ones around it.  A range that needed no move is sorted at once.
   */
  method Divide<T(!new)>(a: array<T>, b: nat, m: nat, cmp: Comparator<T>)
    returns (done: bool, less: nat, more: nat, ghost v: T)
    requires TotalPreorder(cmp) && b + m <= a.Length && m >= 7
    modifies a
    ensures Reordered(old(a[..]), a[..], b, b + m)
    ensures done ==> Sorted(a[..], b, b + m, cmp)
    ensures !done ==> less + more < m && InParts(a[..], b, b + less, b + m - more, b + m, cmp, v)
  {
    hide *;
    ghost var s, hi := a[..], b + m;
    var pm := ChoosePivot(a, b, m, cmp);
    Swap(a, b, pm, b, hi);
    ghost var t := a[..];
    v := a[b];
    var pa, pb, pc, pd, swapped := Partition(a, b, m, cmp);
    PartitionDone(t, a[..], b, hi, pa, pb, pc, pd, cmp, v, swapped);
    ReorderedChain(s, t, a[..], b, hi);
    t := a[..];
    if !swapped {
      InsertionSort(a, b, m, cmp);
      ReorderedChain(s, t, a[..], b, hi);
      return true, 0, 0, v;
    }
    Gather(a, b, b + m, pa, pb, pc, pd, cmp, v);
    ReorderedChain(s, t, a[..], b, hi);
    done, less, more := false, pb - pa, pd - pc;
    GatheredParts(a[..], b, b + less, hi - more, hi, cmp, v);
  }

  /** Sorts the n elements from lo on. */
  method Sort<T(!new)>(a: array<T>, lo: nat, n: nat, cmp: Comparator<T>)
    requires TotalPreorder(cmp) && lo + n <= a.Length
    modifies a
    ensures Sorted(a[..], lo, lo + n, cmp) && Reordered(old(a[..]), a[..], lo, lo + n)
    decreases n
  {
    hide Reordered, Below, Sorted, TotalPreorder, SortedUpTo, InParts;
    ghost var s0, hi := a[..], lo + n;
    StartSorting(s0, lo, hi, cmp);
    var b: nat, m: nat := lo, n;
    while true
      invariant b + m == hi && lo <= b && SortedUpTo(s0, a[..], lo, b, hi, cmp)
      decreases m
    {
      ghost var s := a[..];
      if m < 7 {
        InsertionSort(a, b, m, cmp);
        RestReordered(s0, s, a[..], lo, b, hi, cmp);
        SortingDone(s0, a[..], lo, b, hi, cmp);
        return;
      }
      ghost var v;
      var done, less, more;
      done, less, more, v := Divide(a, b, m, cmp);
      RestReordered(s0, s, a[..], lo, b, hi, cmp);
      if done {
        SortingDone(s0, a[..], lo, b, hi, cmp);
        return;
      }
      s := a[..];
      ghost var m1, m2: nat := b + less, hi - more;
      if less > 1 {
        Sort(a, b, less, cmp);
        PartsKept(s, a[..], b, m1, m2, hi, cmp, v);
        ReorderedWidens(s, a[..], b, m1, b, hi);
        RestReordered(s0, s, a[..], lo, b, hi, cmp);
      } else {
        OneSorted(a[..], b, m1, cmp);
      }
      PartsOrdered(a[..], b, m1, m2, hi, cmp, v);
      RestSorted(s0, a[..], lo, b, m2, hi, cmp);
      if more <= 1 {
        OneSorted(a[..], m2, hi, cmp);
        SortingDone(s0, a[..], lo, m2, hi, cmp);
        return;
      }
      b, m := b + m - more, more;
    }
  }

  lemma StartSorting<T(!new)>(s: seq<T>, lo: nat, hi: nat, cmp: Comparator<T>)
    requires lo <= hi <= |s|
    ensures SortedUpTo(s, s, lo, lo, hi, cmp)
  {
  }

  lemma SortingDone<T(!new)>(s0: seq<T>, s: seq<T>, lo: nat, b: nat, hi: nat, cmp: Comparator<T>)
    requires SortedUpTo(s0, s, lo, b, hi, cmp) && Sorted(s, b, hi, cmp)
    ensures Sorted(s, lo, hi, cmp) && Reordered(s0, s, lo, hi)
  {
    hide Reordered;
  }

  lemma OneSorted<T(!new)>(s: seq<T>, lo: nat, hi: nat, cmp: Comparator<T>)
    requires hi <= |s| && hi <= lo + 1
    ensures Sorted(s, lo, hi, cmp)
  {
  }
}
