/**
 The chunks of the heap and their boundary tags.  A chunk at p of size s has its
 header word at p + 4 and owns the words from there up to and including p + s:
 the word at p + s, which lies in the next chunk's record, is the last word of
 payload while the chunk is in use and repeats its size while it is free.
 */
module MallocHeap {
  import opened MallocBins

  const MINSIZE := 16

  /** A header word: the size with the PREV_INUSE bit in the lowest place. */
  function Head(size: int, prevInUse: bool): int { if prevInUse then size + 1 else size }
  function ChunkSize(head: int): int { head - head % 4 }
  function PrevInUse(head: int): bool { head % 2 == 1 }

  /** A header with the PREV_INUSE bit set or cleared, its size left alone. */
  function SetPrevInUse(head: int): int { if head % 2 == 1 then head else head + 1 }
  function ClearPrevInUse(head: int): int { head - head % 2 }

  lemma EightModFour(k: int)
    ensures (8 * k) % 4 == 0 && (8 * k + 1) % 4 == 1
  {
    assert 8 * k == 4 * (2 * k);
  }

  lemma EightModTwo(k: int)
    ensures (8 * k) % 2 == 0 && (8 * k + 1) % 2 == 1
  {
    assert 8 * k == 2 * (4 * k);
  }

  lemma HeadBits(size: int, prevInUse: bool)
    requires size % 8 == 0
    ensures SetPrevInUse(Head(size, prevInUse)) == Head(size, true)
    ensures ClearPrevInUse(Head(size, prevInUse)) == Head(size, false)
  {
    assert size == 8 * (size / 8);
    EightModTwo(size / 8);
  }

  lemma HeadParts(size: int, prevInUse: bool)
    requires size % 8 == 0
    ensures ChunkSize(Head(size, prevInUse)) == size && PrevInUse(Head(size, prevInUse)) == prevInUse
  {
    assert size == 8 * (size / 8);
    EightModFour(size / 8);
    EightModTwo(size / 8);
  }

  /**
   What the heap holds: the size of every chunk by address, the chunk physically
   before each chunk but the first, and which chunks are in use.
   */
  datatype Heap = Heap(size: map<int, int>, before: map<int, int>, used: set<int>, base: int, top: int) {

    ghost function Next(p: int): int
      requires p in size
    {
      p + size[p]
    }

    ghost function Prev(p: int): int {
      if p in before then before[p] else p
    }

    ghost predicate Shaped(end: int) {
      && base in size && top in size && top + size[top] == end && used <= size.Keys && base >= BinAt(NAV) + 16
      && forall p :: p in size ==> p % 8 == 0 && base <= p <= top && size[p] >= MINSIZE && size[p] % 8 == 0
    }

    ghost predicate Forward() {
      forall p {:trigger Next(p)} :: p in size && p != top ==>
        Next(p) in size && Next(p) in before && before[Next(p)] == p
    }

    ghost predicate Backward() {
      forall p {:trigger Prev(p)} :: p in size && p != base ==>
        p in before && Prev(p) in size && Prev(p) + size[Prev(p)] == p
    }

    ghost predicate Ordered() {
      forall p, q :: p in size && q in size && p < q ==> p + size[p] <= q
    }

    /** The chunks tile the addresses from base up to the end of top. */
    ghost predicate Tiled(end: int) {
      Shaped(end) && Forward() && Backward() && Ordered()
    }

    /** Is the chunk before p in use?  Nothing precedes the first chunk, which counts as yes. */
    ghost predicate AfterUsed(p: int) {
      p == base || (p in before && before[p] in used)
    }

    /** Every header tells the size and whether the chunk before is in use; every free chunk's foot repeats its size. */
    ghost predicate Tagged(m: Mem) {
      && (forall p :: p in size ==> Word(m, p + 4) == Head(size[p], AfterUsed(p)))
      && (forall p :: p in size && p !in used && p != top ==> Word(m, p + size[p]) == size[p])
    }

    /** The same but for the headers of some chunks. */
    ghost predicate TaggedBut(m: Mem, heads: set<int>) {
      && (forall p :: p in size && p !in heads ==> Word(m, p + 4) == Head(size[p], AfterUsed(p)))
      && (forall p :: p in size && p !in used && p != top ==> Word(m, p + size[p]) == size[p])
    }

    /** No free chunk borders another, and none borders top. */
    ghost predicate Coalesced() {
      && top !in used
      && (forall p {:trigger Next(p)} :: p in size && p !in used && p != top ==> Next(p) in used)
    }

    ghost predicate Free(p: int) {
      p in size && p !in used && p != top
    }

    /** The chunk at p put in use. */
    ghost function Use(p: int): Heap {
      this.(used := used + {p})
    }

    /** The chunk at p cut after n bytes; what is cut off is not in use. */
    ghost function Split(p: int, n: int): Heap
      requires p in size
    {
      var r := p + n;
      Heap(size[p := n][r := size[p] - n],
           if p == top then before[r := p] else before[r := p][p + size[p] := r],
           used, base, if p == top then r else top)
    }

    /** The chunk at p with the one after it taken in. */
    ghost function Merge(p: int): Heap
      requires p in size && p + size[p] in size
    {
      var n := p + size[p];
      Heap((size - {n})[p := size[p] + size[n]],
           if n == top then before - {n} else (before - {n})[n + size[n] := p],
           used - {n}, base, if n == top then p else top)
    }

    /** Every address of the heap lies in exactly one chunk. */
    lemma {:induction false} CoveredOnce(a: int, from: int, end: int) returns (p: int)
      requires Tiled(end) && from in size && from <= a < end
      ensures p in size && p <= a < p + size[p]
      ensures forall q :: q in size && q <= a < q + size[q] ==> q == p
      decreases end - from
    {
      if a < from + size[from] {
        p := from;
      } else {
        assert Next(from) in size;
        p := CoveredOnce(a, Next(from), end);
      }
    }

    lemma SplitTiled(p: int, n: int, end: int)
      requires Tiled(end) && p in size && n % 8 == 0 && MINSIZE <= n <= size[p] - MINSIZE
      ensures Split(p, n).Tiled(end)
    {
      SplitShaped(p, n, end);
      SplitForward(p, n, end);
      SplitBackward(p, n, end);
      SplitOrdered(p, n, end);
    }

    lemma SplitShaped(p: int, n: int, end: int)
      requires Tiled(end) && p in size && n % 8 == 0 && MINSIZE <= n <= size[p] - MINSIZE
      ensures Split(p, n).Shaped(end)
    {
      hide Backward, Ordered;
      assert Next(p) == p + size[p];
    }

    lemma SplitForward(p: int, n: int, end: int)
      requires Tiled(end) && p in size && n % 8 == 0 && MINSIZE <= n <= size[p] - MINSIZE
      ensures Split(p, n).Forward()
    {
      var h, r := Split(p, n), p + n;
      assert Next(p) == p + size[p];
      forall q | q in h.size && q != h.top
        ensures h.Next(q) in h.size && h.Next(q) in h.before && h.before[h.Next(q)] == q
      {
        if q != p && q != r {
          assert Next(q) == h.Next(q);
        }
      }
    }

    lemma SplitBackward(p: int, n: int, end: int)
      requires Tiled(end) && p in size && n % 8 == 0 && MINSIZE <= n <= size[p] - MINSIZE
      ensures Split(p, n).Backward()
    {
      var h, r := Split(p, n), p + n;
      forall q | q in h.size && q != h.base
        ensures q in h.before && h.Prev(q) in h.size && h.Prev(q) + h.size[h.Prev(q)] == q
      {
        if q != r {
          assert Prev(q) in size;
        }
      }
    }

    lemma SplitOrdered(p: int, n: int, end: int)
      requires Tiled(end) && p in size && n % 8 == 0 && MINSIZE <= n <= size[p] - MINSIZE
      ensures Split(p, n).Ordered()
    {
      hide Backward, Forward, Shaped;
    }

    lemma MergeTiled(p: int, end: int)
      requires Tiled(end) && p in size && p != top
      ensures Next(p) in size && Merge(p).Tiled(end)
    {
      assert Next(p) in size;
      MergeShaped(p, end);
      MergeForward(p, end);
      MergeBackward(p, end);
      MergeOrdered(p, end);
    }

    lemma MergeShaped(p: int, end: int)
      requires Tiled(end) && p in size && p != top && Next(p) in size
      ensures Merge(p).Shaped(end)
    {
      hide Backward, Forward;
    }

    lemma MergeForward(p: int, end: int)
      requires Tiled(end) && p in size && p != top && Next(p) in size
      ensures Merge(p).Forward()
    {
      var h, n := Merge(p), Next(p);
      assert Next(n) == n + size[n];
      forall q | q in h.size && q != h.top
        ensures h.Next(q) in h.size && h.Next(q) in h.before && h.before[h.Next(q)] == q
      {
        if q != p {
          assert Next(q) == h.Next(q);
        }
      }
    }

    lemma MergeBackward(p: int, end: int)
      requires Tiled(end) && p in size && p != top && Next(p) in size
      ensures Merge(p).Backward()
    {
      var h, n := Merge(p), Next(p);
      assert Next(n) == n + size[n];
      forall q | q in h.size && q != h.base
        ensures q in h.before && h.Prev(q) in h.size && h.Prev(q) + h.size[h.Prev(q)] == q
      {
        assert Prev(q) in size;
      }
    }

    lemma MergeOrdered(p: int, end: int)
      requires Tiled(end) && p in size && p != top && Next(p) in size
      ensures Merge(p).Ordered()
    {
      hide Backward, Forward;
    }
  }
}
