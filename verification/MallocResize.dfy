/** Resizing in place: a block takes in free neighbours, and gives back what it does not need. */
module MallocResize {
  import opened MallocBins
  import opened MallocHeap
  import opened MallocFit
  import opened MallocState
  import opened MallocSteps
  import opened MallocFree

  /** The invariant but for the headers of some chunks, which are about to be rewritten. */
  ghost predicate GoodBut(m: Mem, h: Heap, bins: seq<seq<int>>, word: bv32, heads: set<int>) {
    && h.Tiled(|m|) && h.TaggedBut(m, heads) && h.Coalesced() && |bins| == NAV
    && Filed(h, bins) && Apart(bins) && Lists(m, bins) && Marked(bins, word)
  }

  lemma GoodIsBut(m: Mem, h: Heap, bins: seq<seq<int>>, word: bv32)
    ensures Good(m, h, bins, word) <==> GoodBut(m, h, bins, word, {})
  {
    hide h.Tiled, h.Coalesced, Filed, Apart, Lists, Marked, Head, Word;
  }

  lemma ButLinked(m: Mem, h: Heap, bins: seq<seq<int>>, word: bv32, heads: set<int>)
    requires GoodBut(m, h, bins, word, heads)
    ensures Linked(m, h, bins)
  {
    hide h.Tiled, Lists, Apart, h.TaggedBut;
  }

  /** A free chunk that has been unlinked counts as in use; the bit after it is still to be set. */
  lemma UseBut(m0: Mem, m: Mem, h: Heap, bins0: seq<seq<int>>, bins: seq<seq<int>>, word: bv32, heads: set<int>, i: nat,
               k: nat)
    requires GoodBut(m0, h, bins0, word, heads) && 1 <= i < NAV && k < |bins0[i]| && |m| == |m0|
    requires bins == bins0[i := Without(bins0[i], k)] && Linked(m, h, bins) && TagsKept(m0, m, h)
    ensures var c := bins0[i][k];
            h.Free(c) && GoodBut(m, h.Use(c), bins, word, heads + {h.Next(c)})
  {
    hide h.Tiled, h.Coalesced, Lists, Apart, Marked, h.TaggedBut, Filed, Without;
    var c := bins0[i][k];
    FiledFree(h, bins0, i, k);
    UseCoalesced(h, |m|, c);
    UseFiled(h, bins0, i, k);
    MarkedLess(bins0, word, i, k);
    UseTaggedBut(m0, m, h, heads, c);
  }

  lemma FiledFree(h: Heap, bins: seq<seq<int>>, i: nat, k: nat)
    requires Filed(h, bins) && 1 <= i < NAV && k < |bins[i]|
    ensures h.Free(bins[i][k])
  {
  }

  lemma UseTaggedBut(m0: Mem, m: Mem, h: Heap, heads: set<int>, c: int)
    requires h.Tiled(|m|) && h.TaggedBut(m0, heads) && h.Free(c) && TagsKept(m0, m, h)
    ensures h.Use(c).TaggedBut(m, heads + {h.Next(c)})
  {
    hide h.Tiled, Word, Head;
    forall p | p in h.size && p !in heads + {h.Next(c)}
      ensures Word(m, p + 4) == Head(h.size[p], h.Use(c).AfterUsed(p))
    {
      if p != h.base {
        OnlyNextFollows(h, |m|, c, p);
      }
    }
  }

  /** Two neighbouring blocks in use become one. */
  lemma MergeBut(m: Mem, h: Heap, bins: seq<seq<int>>, word: bv32, heads: set<int>, p: int)
    requires GoodBut(m, h, bins, word, heads) && p in h.size && p in h.used && p != h.top && h.Next(p) in h.used
    ensures h.Next(p) in h.size && h.Next(p) != h.top
    ensures GoodBut(m, h.Merge(p), bins, word, heads + {p} - {h.Next(p)})
  {
    hide h.Tiled, h.Coalesced, Lists, Apart, Marked, h.TaggedBut, Filed, h.Merge;
    TopFree(h);
    ChunkInRange(h, p, |m|);
    h.MergeTiled(p, |m|);
    MergeUsed(m, h, heads, p);
    MergeFiled(h, bins, p);
  }

  lemma MergeUsed(m: Mem, h: Heap, heads: set<int>, p: int)
    requires h.Tiled(|m|) && h.Coalesced() && h.TaggedBut(m, heads)
    requires p in h.size && p in h.used && p != h.top && h.Next(p) in h.used && h.Next(p) in h.size
    requires h.Next(p) != h.top
    ensures h.Merge(p).Coalesced() && h.Merge(p).TaggedBut(m, heads + {p} - {h.Next(p)})
  {
    MergeUsedCoalesced(h, |m|, p);
    hide h.Tiled, h.Coalesced, Word, Head, h.Merge;
    var g, n := h.Merge(p), h.Next(p);
    ChunkInRange(h, p, |m|);
    MergeSame(h, p);
    forall x | x in g.size && x !in heads + {p} - {n} ensures Word(m, x + 4) == Head(g.size[x], g.AfterUsed(x)) {
      if x != h.base {
        InBefore(h, |m|, x);
        MergeBefore(h, |m|, p, x);
      }
    }
  }

  lemma MergeSame(h: Heap, p: int)
    requires p in h.size && h.Next(p) in h.size && h.size[p] > 0
    ensures var g, n := h.Merge(p), h.Next(p);
            && g.base == h.base && g.used == h.used - {n} && (n != h.top ==> g.top == h.top)
            && forall x :: x in g.size <==> x in h.size && x != n
    ensures forall x :: x in h.size && x != h.Next(p) && x != p ==> h.Merge(p).size[x] == h.size[x]
    ensures h.Merge(p).size[p] == h.size[p] + h.size[h.Next(p)]
  {
  }

  lemma MergeUsedCoalesced(h: Heap, end: int, p: int)
    requires h.Tiled(end) && h.Coalesced()
    requires p in h.size && p in h.used && p != h.top && h.Next(p) in h.size && h.Next(p) != h.top
    ensures h.Merge(p).Coalesced()
  {
    ChunkInRange(h, p, end);
    hide h.Tiled;
    var g := h.Merge(p);
    forall x | x in g.size && x !in g.used && x != g.top ensures g.Next(x) in g.used {
      assert h.Next(x) in h.used;
      NextDiffers(h, end, p, x);
    }
  }

  lemma InBefore(h: Heap, end: int, x: int)
    requires h.Tiled(end) && x in h.size && x != h.base
    ensures x in h.before
  {
    assert h.Prev(x) in h.size;
  }

  /** Chunks that end at the same place are the same. */
  lemma NextDiffers(h: Heap, end: int, p: int, x: int)
    requires h.Tiled(end) && p in h.size && x in h.size && p != x
    ensures h.Next(x) != h.Next(p)
  {
    hide h.Forward, h.Backward;
  }

  lemma MergeFiled(h: Heap, bins: seq<seq<int>>, p: int)
    requires Filed(h, bins) && p in h.size && p in h.used && h.Next(p) in h.used && h.Next(p) in h.size
    requires h.Next(p) != h.top
    requires h.size[p] > 0
    ensures Filed(h.Merge(p), bins)
  {
    hide BinIndex;
    var g := h.Merge(p);
    forall x | g.Free(x) ensures g.size[x] >= 0 && (x in bins[LAST_REMAINDER] || InOwnBin(g, bins, x)) {
      assert h.Free(x);
    }
  }

  /** Memory that differs only inside the payload of the block at p. */
  ghost predicate Inside(m: Mem, m': Mem, h: Heap, p: int)
    requires p in h.size
  {
    |m'| == |m| && forall a :: a < p + 8 || a > p + h.size[p] ==> Word(m', a) == Word(m, a)
  }

  /** Whatever is stored inside a block in use, the heap stays in order and other blocks keep their contents. */
  lemma InsideKept(m: Mem, m': Mem, h: Heap, bins: seq<seq<int>>, word: bv32, heads: set<int>, p: int)
    requires GoodBut(m, h, bins, word, heads) && p in h.size && p in h.used && Inside(m, m', h, p)
    ensures GoodBut(m', h, bins, word, heads) && PayloadKept(m, m', Released(h, p))
  {
    hide h.Tiled, h.Coalesced, Lists, Apart, Marked, Filed, Word, Head, Inside;
    ButLinked(m, h, bins, word, heads);
    InsideTags(m, m', h, heads, p);
    InsideLinks(m, m', h, bins, p);
    InsidePayload(m, m', h, p);
  }

  lemma InsideTags(m: Mem, m': Mem, h: Heap, heads: set<int>, p: int)
    requires h.Tiled(|m|) && h.TaggedBut(m, heads) && p in h.size && p in h.used && Inside(m, m', h, p)
    ensures |m'| == |m| && h.TaggedBut(m', heads)
  {
    hide h.Tiled, Word, Head;
    forall x | x in h.size
      ensures Word(m', x + 4) == Word(m, x + 4)
      ensures x !in h.used ==> Word(m', x + h.size[x]) == Word(m, x + h.size[x])
    {
      ChunksApart(h, |m|, p, x);
    }
  }

  lemma ChunksApart(h: Heap, end: int, p: int, x: int)
    requires h.Tiled(end) && p in h.size && x in h.size
    ensures x == p || x + h.size[x] <= p || p + h.size[p] <= x
    ensures h.size[p] >= MINSIZE && h.size[x] >= MINSIZE && x >= h.base >= BinAt(NAV) + 16
  {
    hide h.Forward, h.Backward;
  }

  lemma InsideLinks(m: Mem, m': Mem, h: Heap, bins: seq<seq<int>>, p: int)
    requires Linked(m, h, bins) && p in h.size && p in h.used && Inside(m, m', h, p)
    ensures Lists(m', bins)
  {
    hide h.Tiled, Word, Apart, Ring;
    forall i | 1 <= i < NAV ensures Fd(m', BinAt(i)) == Fd(m, BinAt(i)) && Bk(m', BinAt(i)) == Bk(m, BinAt(i)) {
      ChunksApart(h, |m|, p, p);
    }
    forall i, k | 0 <= i < NAV && 0 <= k < |bins[i]|
      ensures Fd(m', bins[i][k]) == Fd(m, bins[i][k]) && Bk(m', bins[i][k]) == Bk(m, bins[i][k])
    {
      ChunksApart(h, |m|, p, bins[i][k]);
    }
    ListsKept(m, m', bins);
  }

  lemma InsidePayload(m: Mem, m': Mem, h: Heap, p: int)
    requires h.Tiled(|m|) && p in h.size && Inside(m, m', h, p)
    ensures PayloadKept(m, m', Released(h, p))
  {
    hide h.Tiled, Word;
    forall x, a | x in Released(h, p).used && x in h.size && x + 8 <= a <= x + h.size[x]
      ensures Word(m', a) == Word(m, a)
    {
      ChunksApart(h, |m|, p, x);
    }
  }

  /** The size in a header replaced, its bit left alone. */
  function WithSize(head: int, size: int): int { Head(size, PrevInUse(head)) }

  /** The header of the block at p still tells whether the chunk before is in use. */
  ghost predicate BitRight(m: Mem, h: Heap, p: int) {
    0 <= p && p + 4 < |m| && PrevInUse(m[p + 4]) == h.AfterUsed(p)
  }

  /** The whole block is kept: its size is written, and the bit in the header after it is set. */
  lemma SettleWhole(m: Mem, h: Heap, bins: seq<seq<int>>, word: bv32, p: int, n: int, nextHead: int)
    requires p in h.size && p in h.used && n == h.Next(p)
    requires GoodBut(m, h, bins, word, {p, n}) && BitRight(m, h, p)
    requires n in h.size ==> nextHead == Head(h.size[n], true)
    ensures n in h.size && 0 <= n && n + 4 < |m|
    ensures var m1 := m[p + 4 := WithSize(m[p + 4], h.size[p])];
            var m2 := m1[n + 4 := nextHead];
            Good(m2, h, bins, word) && PayloadKept(m, m2, h)
  {
    hide h.Tiled, h.Coalesced, Lists, Apart, Marked, Filed, Word, Head, WithSize, h.TaggedBut, PayloadKept, TagsExcept;
    ButLinked(m, h, bins, word, {p, n});
    TopFree(h);
    NextChunk(h, |m|, p);
    var m1 := m[p + 4 := WithSize(m[p + 4], h.size[p])];
    HeadWrite(m, h, bins, p, WithSize(m[p + 4], h.size[p]));
    HeadWrite(m1, h, bins, n, nextHead);
    var m2 := m1[n + 4 := nextHead];
    PayloadChain(m, m1, m2, h);
    ChunkInRange(h, p, |m|);
    WholeTags(m, m1, m2, h, p, n);
  }

  lemma WholeTags(m: Mem, m1: Mem, m2: Mem, h: Heap, p: int, n: int)
    requires h.Tiled(|m|) && p in h.size && n == h.Next(p) && n in h.size && p in h.used && p != n && p != h.top
    requires h.TaggedBut(m, {p, n}) && BitRight(m, h, p)
    requires TagsExcept(m, m1, h, {p}, {}) && Word(m1, p + 4) == WithSize(m[p + 4], h.size[p])
    requires TagsExcept(m1, m2, h, {n}, {}) && Word(m2, n + 4) == Head(h.size[n], true)
    ensures h.Tagged(m2)
  {
    AfterNext(h, |m|, p);
    hide h.Tiled, Word, Head;
  }

  lemma AfterNext(h: Heap, end: int, p: int)
    requires h.Tiled(end) && p in h.size && p != h.top && h.Next(p) in h.size && p in h.used
    ensures h.AfterUsed(h.Next(p))
  {
    BaseFirst(h, end, p);
    OnlyNextFollows(h, end, p, h.Next(p));
  }

  /** The header of the chunk at n tells its size; its bit may be stale. */
  ghost predicate SizeRight(m: Mem, h: Heap, n: int) {
    && n in h.size && h.size[n] % 8 == 0 && 0 <= n && n + 4 < |m|
    && (m[n + 4] == Head(h.size[n], true) || m[n + 4] == Head(h.size[n], false))
  }

  lemma SetBit(m: Mem, h: Heap, n: int)
    requires SizeRight(m, h, n)
    ensures SetPrevInUse(m[n + 4]) == Head(h.size[n], true) && ChunkSize(m[n + 4]) == h.size[n]
  {
    hide Head, SetPrevInUse, ChunkSize;
    HeadBits(h.size[n], true);
    HeadBits(h.size[n], false);
    HeadParts(h.size[n], true);
    HeadParts(h.size[n], false);
  }

  /** Cutting a block in use leaves the lists as they are. */
  lemma CutLinked(m: Mem, h: Heap, bins: seq<seq<int>>, p: int, n: int)
    requires Linked(m, h, bins) && p in h.size && n % 8 == 0 && MINSIZE <= n <= h.size[p] - MINSIZE
    ensures Linked(m, h.Split(p, n), bins) && p + n !in h.size && p + n !in h.used
  {
    h.SplitTiled(p, n, |m|);
    InsideNotChunk(h, |m|, p, p + n);
    RestNotUsed(h, |m|, p, n);
    hide h.Tiled, Apart, Lists;
  }

  /** The block is cut after n bytes, and the rest counts as a block in use of its own. */
  lemma SettleCut(m: Mem, h: Heap, bins: seq<seq<int>>, word: bv32, p: int, n: int, next: int)
    requires p in h.size && p in h.used && next == h.Next(p) && n % 8 == 0 && MINSIZE <= n <= h.size[p] - MINSIZE
    requires GoodBut(m, h, bins, word, {p, next}) && BitRight(m, h, p) && SizeRight(m, h, next)
    ensures p + n + 4 < |m| && p + n !in h.used
    ensures var m1 := m[p + 4 := WithSize(m[p + 4], n)];
            var m2 := m1[p + n + 4 := Head(h.size[p] - n, true)];
            var m3 := m2[next + 4 := SetPrevInUse(m2[next + 4])];
            Good(m3, h.Split(p, n).Use(p + n), bins, word) && PayloadKept(m, m3, h.Split(p, n))
  {
    hide h.Tiled, h.Coalesced, Lists, Apart, Marked, Filed, Word, Head, WithSize, h.TaggedBut, PayloadKept, TagsExcept;
    hide SetPrevInUse, h.Split;
    ButLinked(m, h, bins, word, {p, next});
    TopFree(h);
    CutLinked(m, h, bins, p, n);
    var g := h.Split(p, n);
    CutParts(h, |m|, p, n);
    ChunkInRange(g, p + n, |m|);
    ChunkInRange(h, p, |m|);
    SetBit(m, h, next);
    HeadWrite(m, g, bins, p, WithSize(m[p + 4], n));
    var m1 := m[p + 4 := WithSize(m[p + 4], n)];
    HeadWrite(m1, g, bins, p + n, Head(h.size[p] - n, true));
    var m2 := m1[p + n + 4 := Head(h.size[p] - n, true)];
    assert m2[next + 4] == m[next + 4];
    HeadWrite(m2, g, bins, next, SetPrevInUse(m2[next + 4]));
    var m3 := m2[next + 4 := SetPrevInUse(m2[next + 4])];
    PayloadChain(m, m1, m2, g);
    PayloadChain(m, m2, m3, g);
    CutTagged(m, m1, m2, m3, h, p, n, next);
    CutCoalesced(h, |m|, p, n);
    CutFiled(h, |m|, bins, p, n);
    CutTiled(h, |m|, p, n);
  }

  lemma CutParts(h: Heap, end: int, p: int, n: int)
    requires h.Tiled(end) && p in h.size && p != h.top && h.Next(p) in h.size && n % 8 == 0
    requires MINSIZE <= n <= h.size[p] - MINSIZE
    ensures var g := h.Split(p, n);
            && p in g.size && p + n in g.size && h.Next(p) in g.size && g.Tiled(end)
            && g.used == h.used && h.Next(p) != p + n && h.Next(p) != p
  {
    h.SplitTiled(p, n, end);
    hide h.Tiled;
  }

  lemma CutTiled(h: Heap, end: int, p: int, n: int)
    requires h.Tiled(end) && p in h.size && n % 8 == 0 && MINSIZE <= n <= h.size[p] - MINSIZE
    ensures h.Split(p, n).Use(p + n).Tiled(end)
  {
    hide h.Tiled;
    h.SplitTiled(p, n, end);
    UseTiled(h.Split(p, n), end, p + n);
  }

  lemma CutCoalesced(h: Heap, end: int, p: int, n: int)
    requires h.Tiled(end) && h.Coalesced() && p in h.size && p in h.used && p != h.top && 0 < n < h.size[p]
    ensures h.Split(p, n).Use(p + n).Coalesced()
  {
    InsideNotChunk(h, end, p, p + n);
    hide h.Tiled;
    var g := h.Split(p, n).Use(p + n);
    TopIsChunk(h, end);
    forall x | x in g.size && x !in g.used && x != g.top ensures g.Next(x) in g.used {
      assert h.Next(x) in h.used;
    }
  }

  lemma TopIsChunk(h: Heap, end: int)
    requires h.Tiled(end)
    ensures h.top in h.size
  {
  }

  lemma CutFiled(h: Heap, end: int, bins: seq<seq<int>>, p: int, n: int)
    requires h.Tiled(end) && Filed(h, bins) && p in h.size && p in h.used && p != h.top && 0 < n < h.size[p]
    ensures Filed(h.Split(p, n).Use(p + n), bins)
  {
    InsideNotChunk(h, end, p, p + n);
    hide h.Tiled, BinIndex;
    var g := h.Split(p, n).Use(p + n);
    forall x | g.Free(x) ensures g.size[x] >= 0 && (x in bins[LAST_REMAINDER] || InOwnBin(g, bins, x)) {
      assert h.Free(x);
    }
  }

  lemma CutAfterUsed(h: Heap, end: int, p: int, n: int, x: int)
    requires h.Tiled(end) && p in h.size && p in h.used && p != h.top && h.Next(p) in h.size && 0 < n < h.size[p]
    requires x in h.Split(p, n).size
    ensures x == p + n || x == h.Next(p) ==> h.Split(p, n).Use(p + n).AfterUsed(x)
    ensures x != p + n && x != h.Next(p) ==> h.Split(p, n).Use(p + n).AfterUsed(x) == h.AfterUsed(x)
  {
    InsideNotChunk(h, end, p, p + n);
    BaseFirst(h, end, p);
    if x in h.size && x != h.base {
      InsideNotBefore(h, end, p, n, x);
    }
    hide h.Tiled;
  }

  /** Nothing comes after an address inside a chunk. */
  lemma InsideNotBefore(h: Heap, end: int, p: int, n: int, x: int)
    requires h.Tiled(end) && p in h.size && 0 < n < h.size[p] && x in h.size && x != h.base
    ensures x in h.before && h.before[x] != p + n
  {
    InsideNotChunk(h, end, p, p + n);
    assert h.Prev(x) in h.size;
  }

  /** The writes that cut the block at p: its size, the header of the rest, and the bit after it. */
  ghost predicate CutWrites(m: Mem, m1: Mem, m2: Mem, m3: Mem, h: Heap, p: int, n: int, next: int)
    requires p in h.size && next in h.size
  {
    var g := h.Split(p, n);
    && TagsExcept(m, m1, g, {p}, {}) && TagsExcept(m1, m2, g, {p + n}, {}) && TagsExcept(m2, m3, g, {next}, {})
    && 0 <= p && p + 4 < |m| && Word(m1, p + 4) == WithSize(m[p + 4], n)
    && Word(m2, p + n + 4) == Head(h.size[p] - n, true) && Word(m3, next + 4) == Head(h.size[next], true)
  }

  lemma CutTagged(m: Mem, m1: Mem, m2: Mem, m3: Mem, h: Heap, p: int, n: int, next: int)
    requires h.Tiled(|m|) && p in h.size && p in h.used && p != h.top && next == h.Next(p) && next in h.size
    requires n % 8 == 0 && MINSIZE <= n <= h.size[p] - MINSIZE
    requires h.TaggedBut(m, {p, next}) && BitRight(m, h, p) && CutWrites(m, m1, m2, m3, h, p, n, next)
    ensures h.Split(p, n).Use(p + n).Tagged(m3)
  {
    hide h.Tiled, Word, Head, CutWrites, h.TaggedBut, BitRight, h.AfterUsed;
    var g := h.Split(p, n).Use(p + n);
    InsideNotChunk(h, |m|, p, p + n);
    CutParts(h, |m|, p, n);
    forall x | x in g.size ensures Word(m3, x + 4) == Head(g.size[x], g.AfterUsed(x)) {
      CutAfterUsed(h, |m|, p, n, x);
      CutHead(m, m1, m2, m3, h, p, n, next, x);
    }
    forall x | g.Free(x) ensures Word(m3, x + g.size[x]) == g.size[x] {
      CutFoot(m, m1, m2, m3, h, p, n, next, x);
    }
  }

  lemma CutHead(m: Mem, m1: Mem, m2: Mem, m3: Mem, h: Heap, p: int, n: int, next: int, x: int)
    requires p in h.size && next in h.size && next != p + n && next != p && n > 0 && p + n !in h.size
    requires next == h.Next(p)
    requires h.TaggedBut(m, {p, next}) && BitRight(m, h, p) && CutWrites(m, m1, m2, m3, h, p, n, next)
    requires x in h.Split(p, n).size
    ensures x == p ==> Word(m3, x + 4) == Head(n, h.AfterUsed(p))
    ensures x == p + n ==> Word(m3, x + 4) == Head(h.size[p] - n, true)
    ensures x == next ==> Word(m3, x + 4) == Head(h.size[next], true)
    ensures x != p && x != p + n && x != next ==> x in h.size && Word(m3, x + 4) == Head(h.size[x], h.AfterUsed(x))
  {
    hide Word, Head, h.AfterUsed;
  }

  lemma CutFoot(m: Mem, m1: Mem, m2: Mem, m3: Mem, h: Heap, p: int, n: int, next: int, x: int)
    requires p in h.size && p in h.used && next in h.size && p + n !in h.size && n > 0 && p != h.top
    requires h.TaggedBut(m, {p, next}) && CutWrites(m, m1, m2, m3, h, p, n, next)
    requires h.Split(p, n).Use(p + n).Free(x)
    ensures x in h.size && h.size[x] == h.Split(p, n).size[x] && Word(m3, x + h.size[x]) == h.size[x]
  {
    hide Word, Head, h.AfterUsed;
    assert h.Free(x);
  }

  /** The heap in which the block at p, which borders top, has n bytes and top the rest. */
  ghost function Borrowed(h: Heap, p: int, n: int): Heap
    requires p in h.size && h.Next(p) in h.size
  {
    h.Merge(p).Split(p, n)
  }

  /** The block at p has n bytes, the rest is top, and nothing else has changed. */
  ghost predicate BorrowedFrom(h: Heap, g: Heap, p: int, n: int) {
    && p in h.size && p in h.used && h.top in h.size && h.top !in h.used && p != h.top
    && g.used == h.used && g.base == h.base && g.top == p + n && p + n !in h.used && n > 0
    && (forall x :: x in g.size <==> x == p + n || (x in h.size && x != h.top))
    && (forall x :: x in g.size && x != p && x != p + n ==> x in h.size && g.size[x] == h.size[x])
    && p in g.size && g.size[p] == n && p + n in g.size && g.size[p + n] == h.size[p] + h.size[h.top] - n
    && (forall x :: x in g.size && x in h.before && x != p + n ==> x in g.before && g.before[x] == h.before[x])
    && p + n in g.before && g.before[p + n] == p
    && (p + n == h.top || p + n !in h.size)
  }

  lemma BorrowParts(h: Heap, end: int, p: int, n: int)
    requires h.Tiled(end) && p in h.size && p != h.top && h.Next(p) == h.top && h.top !in h.used && n % 8 == 0
    requires MINSIZE <= n <= h.size[p] + h.size[h.top] - MINSIZE
    requires p in h.used
    ensures Borrowed(h, p, n).Tiled(end) && BorrowedFrom(h, Borrowed(h, p, n), p, n)
  {
    h.MergeTiled(p, end);
    var f := h.Merge(p);
    f.SplitTiled(p, n, end);
    RestNotUsed(f, end, p, n);
    InsideNotChunk(f, end, p, p + n);
    ChunkInRange(h, p, end);
    ChunkInRange(h, h.top, end);
    hide h.Tiled;
  }

  lemma Borrow(m: Mem, h: Heap, bins: seq<seq<int>>, word: bv32, p: int, n: int)
    requires p in h.size && p in h.used && h.Next(p) == h.top && h.top in h.size && n % 8 == 0
    requires MINSIZE <= n <= h.size[p] + h.size[h.top] - MINSIZE
    requires GoodBut(m, h, bins, word, {p, h.top}) && BitRight(m, h, p)
    ensures p + n + 4 < |m|
    ensures var m1 := m[p + n + 4 := Head(h.size[p] + h.size[h.top] - n, true)];
            var m2 := m1[p + 4 := WithSize(m1[p + 4], n)];
            Good(m2, Borrowed(h, p, n), bins, word) && PayloadKept(m, m2, Borrowed(h, p, n))
  {
    hide h.Tiled, h.Coalesced, Lists, Apart, Marked, Filed, Word, Head, WithSize, h.TaggedBut, PayloadKept, TagsExcept;
    hide Borrowed;
    ButLinked(m, h, bins, word, {p, h.top});
    TopFree(h);
    var g := Borrowed(h, p, n);
    BorrowParts(h, |m|, p, n);
    BorrowLinked(m, h, g, bins, p, n);
    ChunkInRange(g, p, |m|);
    ChunkInRange(g, p + n, |m|);
    HeadWrite(m, g, bins, p + n, Head(h.size[p] + h.size[h.top] - n, true));
    var m1 := m[p + n + 4 := Head(h.size[p] + h.size[h.top] - n, true)];
    assert m1[p + 4] == m[p + 4];
    HeadWrite(m1, g, bins, p, WithSize(m1[p + 4], n));
    var m2 := m1[p + 4 := WithSize(m1[p + 4], n)];
    PayloadChain(m, m1, m2, g);
    BorrowTagged(m, m1, m2, h, g, p, n);
    BorrowCoalesced(h, g, |m|, p, n);
    BorrowFiled(h, g, bins, p, n);
  }

  lemma BorrowLinked(m: Mem, h: Heap, g: Heap, bins: seq<seq<int>>, p: int, n: int)
    requires Linked(m, h, bins) && BorrowedFrom(h, g, p, n) && g.Tiled(|m|) && Filed(h, bins)
    ensures Linked(m, g, bins)
  {
    hide h.Tiled, Lists, Apart;
    forall i, k | 0 <= i < NAV && 0 <= k < |bins[i]| ensures bins[i][k] in g.size && bins[i][k] !in g.used {
      assert h.Free(bins[i][k]);
    }
  }

  lemma BorrowTagged(m: Mem, m1: Mem, m2: Mem, h: Heap, g: Heap, p: int, n: int)
    requires h.Tiled(|m|) && BorrowedFrom(h, g, p, n) && h.TaggedBut(m, {p, h.top}) && BitRight(m, h, p)
    requires TagsExcept(m, m1, g, {p + n}, {}) && Word(m1, p + n + 4) == Head(h.size[p] + h.size[h.top] - n, true)
    requires TagsExcept(m1, m2, g, {p}, {}) && Word(m2, p + 4) == WithSize(m[p + 4], n)
    ensures g.Tagged(m2)
  {
    hide h.Tiled, Word, Head, h.TaggedBut, TagsExcept, h.AfterUsed, BitRight, WithSize;
    forall x | x in g.size ensures Word(m2, x + 4) == Head(g.size[x], g.AfterUsed(x)) {
      BorrowAfterUsed(h, g, |m|, p, n, x);
      BorrowHead(m, m1, m2, h, g, p, n, x);
    }
    forall x | g.Free(x) ensures Word(m2, x + g.size[x]) == g.size[x] {
      BorrowFoot(m, m1, m2, h, g, p, n, x);
    }
  }

  lemma BorrowAfterUsed(h: Heap, g: Heap, end: int, p: int, n: int, x: int)
    requires h.Tiled(end) && BorrowedFrom(h, g, p, n) && x in g.size
    ensures g.AfterUsed(x) == (x == p + n || h.AfterUsed(x))
  {
    if x != p + n && x != h.base {
      InBefore(h, end, x);
    }
    hide h.Tiled;
  }

  lemma BorrowHead(m: Mem, m1: Mem, m2: Mem, h: Heap, g: Heap, p: int, n: int, x: int)
    requires BorrowedFrom(h, g, p, n) && h.TaggedBut(m, {p, h.top}) && BitRight(m, h, p) && x in g.size
    requires TagsExcept(m, m1, g, {p + n}, {}) && Word(m1, p + n + 4) == Head(h.size[p] + h.size[h.top] - n, true)
    requires TagsExcept(m1, m2, g, {p}, {}) && Word(m2, p + 4) == WithSize(m[p + 4], n)
    ensures Word(m2, x + 4) == Head(g.size[x], x == p + n || h.AfterUsed(x))
  {
    hide Word, Head, h.AfterUsed;
  }

  lemma BorrowFoot(m: Mem, m1: Mem, m2: Mem, h: Heap, g: Heap, p: int, n: int, x: int)
    requires BorrowedFrom(h, g, p, n) && h.TaggedBut(m, {p, h.top}) && g.Free(x)
    requires TagsExcept(m, m1, g, {p + n}, {}) && TagsExcept(m1, m2, g, {p}, {})
    ensures Word(m2, x + g.size[x]) == g.size[x]
  {
    hide Word, Head;
    assert h.Free(x);
  }

  lemma BorrowCoalesced(h: Heap, g: Heap, end: int, p: int, n: int)
    requires h.Tiled(end) && h.Coalesced() && BorrowedFrom(h, g, p, n)
    ensures g.Coalesced()
  {
    hide h.Tiled;
    forall x | x in g.size && x !in g.used && x != g.top ensures g.Next(x) in g.used {
      assert h.Next(x) in h.used;
    }
  }

  lemma BorrowFiled(h: Heap, g: Heap, bins: seq<seq<int>>, p: int, n: int)
    requires Filed(h, bins) && BorrowedFrom(h, g, p, n)
    ensures Filed(g, bins)
  {
    hide BinIndex;
    forall x | g.Free(x) ensures g.size[x] >= 0 && (x in bins[LAST_REMAINDER] || InOwnBin(g, bins, x)) {
      assert h.Free(x);
    }
  }

  lemma ButMore(m: Mem, h: Heap, bins: seq<seq<int>>, word: bv32, heads: set<int>, more: set<int>)
    requires GoodBut(m, h, bins, word, heads) && heads <= more
    ensures GoodBut(m, h, bins, word, more)
  {
    hide h.Tiled, h.Coalesced, Lists, Apart, Marked, Filed, Word, Head;
  }

  /** The block at p, about to be resized: its own header and the one after it still tell what they must. */
  ghost predicate Resizing(m: Mem, h: Heap, bins: seq<seq<int>>, word: bv32, p: int) {
    && p in h.size && p in h.used && p != h.top && h.Next(p) in h.size
    && GoodBut(m, h, bins, word, {p, h.Next(p)})
    && BitRight(m, h, p) && SizeRight(m, h, h.Next(p))
  }

  lemma HeadRead(m: Mem, h: Heap, end: int, heads: set<int>, x: int)
    requires h.Tiled(end) && h.TaggedBut(m, heads) && x in h.size && x !in heads && |m| == end
    ensures BitRight(m, h, x) && SizeRight(m, h, x)
  {
    ChunkInRange(h, x, end);
    hide h.Forward, h.Backward, h.Ordered;
    HeadParts(h.size[x], h.AfterUsed(x));
  }

  /** A whole block in order can be resized. */
  lemma StartResizing(m: Mem, h: Heap, bins: seq<seq<int>>, word: bv32, p: int)
    requires Good(m, h, bins, word) && p in h.used
    ensures p in h.size && Resizing(m, h, bins, word, p)
  {
    hide h.Coalesced, Lists, Apart, Marked, Filed, h.Tiled, h.TaggedBut, BitRight, SizeRight;
    UsedAreChunks(h, |m|);
    TopFree(h);
    NextChunk(h, |m|, p);
    GoodIsBut(m, h, bins, word);
    HeadRead(m, h, |m|, {}, p);
    HeadRead(m, h, |m|, {}, h.Next(p));
    ButMore(m, h, bins, word, {}, {p, h.Next(p)});
  }

  /** Once the free chunk after p is unlinked, p has its room. */
  lemma TakeNext(m0: Mem, m: Mem, h: Heap, bins0: seq<seq<int>>, bins: seq<seq<int>>, word: bv32, p: int, i: nat,
                 k: nat)
    requires Good(m0, h, bins0, word) && p in h.used && p in h.size && 1 <= i < NAV && k < |bins0[i]|
    requires bins0[i][k] == h.Next(p) && |m| == |m0|
    requires bins == bins0[i := Without(bins0[i], k)] && Linked(m, h, bins) && TagsKept(m0, m, h)
    ensures h.Next(p) in h.size
    ensures var g := h.Use(h.Next(p)).Merge(p);
            && Resizing(m, g, bins, word, p) && g.used == h.used && g.top == h.top
            && g.size[p] == h.size[p] + h.size[h.Next(p)]
            && forall x :: x in h.used && x != p ==> x in h.size && x in g.size && g.size[x] == h.size[x]
  {
    hide h.Tiled, h.Coalesced, Lists, Apart, Marked, Filed, h.TaggedBut, BitRight, SizeRight, h.Merge, Linked;
    var next := h.Next(p);
    UsedAreChunks(h, |m0|);
    FiledFree(h, bins0, i, k);
    TopFree(h);
    GoodIsBut(m0, h, bins0, word);
    ChunkInRange(h, p, |m0|);
    AroundFree(h, |m0|, next);
    UseBut(m0, m, h, bins0, bins, word, {}, i, k);
    var u := h.Use(next);
    assert u.Next(p) == next;
    MergeBut(m, u, bins, word, {} + {h.Next(next)}, p);
    MergeSame(u, p);
    var g := u.Merge(p);
    NextAfterMerge(h, |m0|, p);
    assert {} + {h.Next(next)} + {p} - {next} <= {p, g.Next(p)};
    ButMore(m, g, bins, word, {} + {h.Next(next)} + {p} - {next}, {p, g.Next(p)});
    TagsCarried(m0, m, h);
    TaggedIsBut(m, h);
    HeadRead(m, h, |m|, {}, p);
    HeadRead(m, h, |m|, {}, h.Next(next));
    SameBit(m, h, g, |m|, p);
    SameSizeRight(m, h, g, h.Next(next));
  }

  lemma TaggedIsBut(m: Mem, h: Heap)
    ensures h.Tagged(m) <==> h.TaggedBut(m, {})
  {
  }

  lemma SameBit(m: Mem, h: Heap, g: Heap, end: int, p: int)
    requires h.Tiled(end) && h.Coalesced() && p in h.used && p in h.size && p != h.top && h.Free(h.Next(p))
    requires h.Next(p) in h.size
    requires g == h.Use(h.Next(p)).Merge(p) && BitRight(m, h, p)
    ensures BitRight(m, g, p)
  {
    BeforeIsNot(h, end, p);
    hide h.Tiled, PrevInUse;
  }

  /** The chunk before p is not the one after it. */
  lemma BeforeIsNot(h: Heap, end: int, p: int)
    requires h.Tiled(end) && p in h.size && p != h.top && h.Next(p) in h.size
    ensures p != h.base ==> p in h.before && h.before[p] != h.Next(p) && h.before[p] != p
    ensures h.Next(p) + h.size[h.Next(p)] != p && h.Next(p) != p
  {
    ChunkInRange(h, p, end);
    ChunkInRange(h, h.Next(p), end);
    if p != h.base {
      assert h.Prev(p) in h.size;
    }
  }

  lemma SameSizeRight(m: Mem, h: Heap, g: Heap, n: int)
    requires SizeRight(m, h, n) && n in g.size && g.size[n] == h.size[n]
    ensures SizeRight(m, g, n)
  {
  }

  lemma NextAfterMerge(h: Heap, end: int, p: int)
    requires h.Tiled(end) && p in h.size && p != h.top && h.Next(p) in h.size && h.Next(p) != h.top
    ensures h.Next(h.Next(p)) in h.size && h.Next(h.Next(p)) != p && h.Next(h.Next(p)) != h.Next(p)
  {
    ChunkInRange(h, p, end);
    ChunkInRange(h, h.Next(p), end);
    NextChunk(h, end, h.Next(p));
    hide h.Tiled;
  }

  /** The block that was at p starts at q, which was free, and ends where it did; the other blocks are the same. */
  ghost predicate Shifted(h: Heap, g: Heap, p: int, q: int) {
    && p in h.size && q in h.size && q in g.size && q !in h.used && p in h.used
    && g.used == h.used - {p} + {q} && g.top == h.top && g.size[q] == h.size[q] + h.size[p] && g.Next(q) == h.Next(p)
    && h.top in h.size && h.top in g.size && g.size[g.top] == h.size[h.top]
    && forall x :: x in h.used && x != p ==> x in h.size && x in g.size && g.size[x] == h.size[x]
  }

  /** Once the free chunk q before p is unlinked, the block starts there. */
  lemma TakePrev(m0: Mem, m: Mem, h: Heap, g: Heap, bins0: seq<seq<int>>, bins: seq<seq<int>>, word: bv32, p: int,
                 q: int,
                 i: nat, k: nat)
    requires Resizing(m0, h, bins0, word, p) && |bins0| == NAV && 1 <= i < NAV && k < |bins0[i]|
    requires bins0[i][k] == q && q in h.size && h.Next(q) == p && g == h.Use(q).Merge(q) && |m| == |m0|
    requires bins == bins0[i := Without(bins0[i], k)] && Linked(m, h, bins) && TagsKept(m0, m, h)
    ensures Resizing(m, g, bins, word, q) && Shifted(h, g, p, q)
  {
    hide h.Tiled, h.Coalesced, Lists, Apart, Marked, Filed, h.TaggedBut, BitRight, SizeRight, h.Merge, Linked;
    var n := h.Next(p);
    UsedAreChunks(h, |m0|);
    FiledFree(h, bins0, i, k);
    TopFree(h);
    ChunkInRange(h, q, |m0|);
    ChunkInRange(h, p, |m0|);
    AroundFree(h, |m0|, q);
    UseBut(m0, m, h, bins0, bins, word, {p, n}, i, k);
    var u := h.Use(q);
    assert u.Next(q) == p;
    MergeBut(m, u, bins, word, {p, n} + {p}, q);
    MergeSame(u, q);
    assert g.Next(q) == n;
    ButMore(m, g, bins, word, {p, n} + {p} + {q} - {p}, {q, n});
    TagsCarriedBut(m0, m, h, {p, n});
    HeadRead(m, h, |m|, {p, n}, q);
    KeptSize(m0, m, h, n);
    SameSizeRight(m, h, g, n);
    FrontBit(m, h, g, |m|, p, q);
  }

  lemma TagsCarriedBut(m0: Mem, m: Mem, h: Heap, heads: set<int>)
    requires h.TaggedBut(m0, heads) && TagsKept(m0, m, h)
    ensures h.TaggedBut(m, heads)
  {
  }

  lemma KeptSize(m0: Mem, m: Mem, h: Heap, n: int)
    requires SizeRight(m0, h, n) && TagsKept(m0, m, h) && |m| == |m0|
    ensures SizeRight(m, h, n)
  {
    assert Word(m, n + 4) == Word(m0, n + 4);
  }

  lemma FrontBit(m: Mem, h: Heap, g: Heap, end: int, p: int, q: int)
    requires h.Tiled(end) && h.Coalesced() && h.Free(q) && p in h.size && h.Next(q) == p && g == h.Use(q).Merge(q)
    requires BitRight(m, h, q)
    ensures BitRight(m, g, q)
  {
    AroundFree(h, end, q);
    BeforeIsNot(h, end, q);
    hide h.Tiled, PrevInUse;
  }

  /** The word at offset d from p. */
  function WordIn(m: Mem, p: int, d: int): int { Word(m, p + d) }

  /** The payload words at offsets 8 to n of the chunks at p and at q are the same. */
  ghost predicate SameWords(m0: Mem, p: int, m: Mem, q: int, n: int) {
    forall d :: 8 <= d <= n && d % 4 == 0 ==> WordIn(m, q, d) == WordIn(m0, p, d)
  }

  /** Storing inside the block leaves it ready to be resized. */
  lemma InsideResizing(m: Mem, m': Mem, h: Heap, bins: seq<seq<int>>, word: bv32, p: int)
    requires Resizing(m, h, bins, word, p) && Inside(m, m', h, p)
    ensures Resizing(m', h, bins, word, p) && PayloadKept(m, m', Released(h, p))
  {
    hide h.Tiled, h.Coalesced, Lists, Apart, Marked, Filed, h.TaggedBut;
    InsideKept(m, m', h, bins, word, {p, h.Next(p)}, p);
    ChunkInRange(h, p, |m|);
    assert Word(m', p + 4) == Word(m, p + 4) && Word(m', h.Next(p) + 4) == Word(m, h.Next(p) + 4);
  }
}
