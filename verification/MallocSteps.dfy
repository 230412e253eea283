/** What each move of the allocator does to the chunks, their tags and their bins. */
module MallocSteps {
  import opened MallocBins
  import opened MallocHeap
  import opened MallocFit
  import opened MallocState

  /** Around a free chunk everything is in use. */
  lemma AroundFree(h: Heap, end: int, c: int)
    requires h.Tiled(end) && h.Coalesced() && h.Free(c)
    ensures h.AfterUsed(c) && h.Next(c) in h.used && h.Next(c) in h.size
  {
    if c != h.base {
      assert h.Prev(c) in h.size;
      assert h.Next(h.Prev(c)) == c;
    }
  }

  lemma OnlyNextFollows(h: Heap, end: int, c: int, p: int)
    requires h.Tiled(end) && c in h.size && p in h.size && p != h.base
    ensures p in h.before && (h.before[p] == c <==> c != h.top && p == h.Next(c))
  {
    assert h.Prev(p) in h.size;
    assert c != h.top ==> h.Next(c) in h.size;
    hide h.Ordered;
  }

  /** A whole free chunk is put in use: only the header after it changes. */
  lemma UseTagged(m: Mem, m': Mem, h: Heap, c: int)
    requires h.Tiled(|m|) && h.Tagged(m) && h.Free(c) && h.Next(c) in h.size
    requires TagsExcept(m, m', h, {h.Next(c)}, {}) && Word(m', h.Next(c) + 4) == Head(h.size[h.Next(c)], true)
    ensures h.Use(c).Tagged(m')
  {
    hide h.Tiled;
    forall p | p in h.size ensures Word(m', p + 4) == Head(h.size[p], h.Use(c).AfterUsed(p)) {
      if p != h.base {
        OnlyNextFollows(h, |m|, c, p);
      }
      if p == h.Next(c) {
        BaseFirst(h, |m|, c);
      }
    }
  }

  lemma BaseFirst(h: Heap, end: int, c: int)
    requires h.Tiled(end) && c in h.size
    ensures h.Next(c) > h.base && c >= h.base
  {
  }

  lemma UseCoalesced(h: Heap, end: int, c: int)
    requires h.Tiled(end) && h.Coalesced() && h.Free(c)
    ensures h.Use(c).Tiled(end) && h.Use(c).Coalesced()
  {
    forall p | p in h.size && p !in h.Use(c).used && p != h.top ensures h.Use(c).Next(p) in h.Use(c).used {
      assert h.Next(p) in h.used;
    }
    UseTiled(h, end, c);
  }

  lemma UseTiled(h: Heap, end: int, c: int)
    requires h.Tiled(end) && c in h.size
    ensures h.Use(c).Tiled(end)
  {
    var g := h.Use(c);
    assert g.Forward() by {
      forall p | p in g.size && p != g.top
        ensures g.Next(p) in g.size && g.Next(p) in g.before && g.before[g.Next(p)] == p
      {
        assert h.Next(p) in h.size;
      }
    }
    assert g.Backward() by {
      forall p | p in g.size && p != g.base
        ensures p in g.before && g.Prev(p) in g.size && g.Prev(p) + g.size[g.Prev(p)] == p
      {
        assert h.Prev(p) in h.size;
      }
    }
  }

  lemma UseFiled(h: Heap, bins: seq<seq<int>>, i: nat, k: nat)
    requires Filed(h, bins) && Apart(bins) && 1 <= i < NAV && k < |bins[i]|
    ensures Filed(h.Use(bins[i][k]), bins[i := Without(bins[i], k)])
  {
    var c := bins[i][k];
    var g, rest := h.Use(c), bins[i := Without(bins[i], k)];
    forall p | g.Free(p) ensures g.size[p] >= 0 && (p in rest[LAST_REMAINDER] || InOwnBin(g, rest, p)) {
      StillListed(bins, i, k, p);
    }
  }

  lemma StillListed(bins: seq<seq<int>>, i: nat, k: nat, p: int)
    requires |bins| == NAV && i < NAV && k < |bins[i]| && p != bins[i][k]
    ensures forall j :: 0 <= j < NAV && p in bins[j] ==> p in bins[i := Without(bins[i], k)][j]
  {
    if p in bins[i] {
      var l :| 0 <= l < |bins[i]| && bins[i][l] == p;
      assert Without(bins[i], k)[if l < k then l else l - 1] == p;
    }
  }

  /** The chunk before top is in use. */
  lemma BeforeTop(h: Heap, end: int)
    requires h.Tiled(end) && h.Coalesced()
    ensures h.AfterUsed(h.top)
  {
    if h.top != h.base {
      assert h.Prev(h.top) in h.size;
      assert h.Next(h.Prev(h.top)) == h.top;
    }
  }

  /** Cutting a chunk leaves the lists as they are. */
  lemma SplitLinked(m: Mem, h: Heap, bins: seq<seq<int>>, c: int, n: int)
    requires Linked(m, h, bins) && c in h.size && c !in h.used && n % 8 == 0 && MINSIZE <= n <= h.size[c] - MINSIZE
    ensures Linked(m, h.Split(c, n), bins) && !Listed(bins, c + n)
    ensures forall m' :: PayloadKept(m, m', h.Split(c, n)) ==> PayloadKept(m, m', h)
  {
    h.SplitTiled(c, n, |m|);
    assert c + n !in h.size by { InsideNotChunk(h, |m|, c, c + n); }
    hide h.Tiled, Apart, Lists;
    forall i, k | 0 <= i < NAV && 0 <= k < |bins[i]| ensures bins[i][k] != c + n {
      assert bins[i][k] in h.size;
    }
  }

  lemma InsideNotChunk(h: Heap, end: int, c: int, a: int)
    requires h.Tiled(end) && c in h.size && c < a < c + h.size[c]
    ensures a !in h.size
  {
    hide h.Forward, h.Backward;
  }

  /** The front of a free chunk, or of top, is put in use and the rest is free, or the new top. */
  lemma SplitTagged(m: Mem, m': Mem, h: Heap, c: int, n: int)
    requires h.Tiled(|m|) && h.Tagged(m) && c in h.size && c !in h.used && h.AfterUsed(c)
    requires n % 8 == 0 && MINSIZE <= n <= h.size[c] - MINSIZE
    requires TagsExcept(m, m', h, {c}, {c})
    requires Word(m', c + 4) == Head(n, true) && Word(m', c + n + 4) == Head(h.size[c] - n, true)
    requires c != h.top ==> Word(m', c + h.size[c]) == h.size[c] - n
    ensures h.Split(c, n).Use(c).Tagged(m')
  {
    hide h.Tiled, Word, Head;
    var g := h.Split(c, n).Use(c);
    InsideNotChunk(h, |m|, c, c + n);
    RestNotUsed(h, |m|, c, n);
    BaseFirst(h, |m|, c);
    forall p | p in g.size ensures Word(m', p + 4) == Head(g.size[p], g.AfterUsed(p)) {
      if p != h.base && p != c + n {
        OnlyNextFollows(h, |m|, c, p);
      }
    }
  }

  lemma RestNotUsed(h: Heap, end: int, c: int, n: int)
    requires h.Tiled(end) && c in h.size && 0 < n < h.size[c]
    ensures c + n !in h.used
  {
    InsideNotChunk(h, end, c, c + n);
  }

  lemma SplitCoalesced(h: Heap, end: int, c: int, n: int)
    requires h.Tiled(end) && h.Coalesced() && c in h.size && c !in h.used
    requires n % 8 == 0 && MINSIZE <= n <= h.size[c] - MINSIZE
    ensures h.Split(c, n).Use(c).Coalesced()
  {
    RestNotUsed(h, end, c, n);
    hide h.Tiled;
    var g := h.Split(c, n).Use(c);
    forall p | p in g.size && p !in g.used && p != g.top ensures g.Next(p) in g.used {
      if p == c + n {
        assert h.Next(c) in h.used;
      } else {
        assert h.Next(p) in h.used;
      }
    }
  }

  lemma SplitUseTiled(h: Heap, end: int, c: int, n: int)
    requires h.Tiled(end) && c in h.size && n % 8 == 0 && MINSIZE <= n <= h.size[c] - MINSIZE
    ensures h.Split(c, n).Use(c).Tiled(end)
  {
    hide h.Tiled;
    h.SplitTiled(c, n, end);
    UseTiled(h.Split(c, n), end, c);
  }

  lemma SplitFiled(h: Heap, end: int, bins: seq<seq<int>>, i: nat, k: nat, n: int)
    requires h.Tiled(end) && Filed(h, bins) && Apart(bins) && 1 <= i < NAV && k < |bins[i]|
    requires i == LAST_REMAINDER || bins[LAST_REMAINDER] == []
    requires var c := bins[i][k]; n % 8 == 0 && MINSIZE <= n <= h.size[c] - MINSIZE
    ensures var c := bins[i][k];
            Filed(h.Split(c, n).Use(c), bins[i := Without(bins[i], k)][LAST_REMAINDER := [c + n]])
  {
    hide h.Tiled, Filed, Apart, Without, h.Split, h.Use;
    NoRemainder(h, bins, i, k);
    UseFiled(h, bins, i, k);
    RemainderFiled(h, end, bins[i := Without(bins[i], k)], bins[i][k], n);
  }

  lemma NoRemainder(h: Heap, bins: seq<seq<int>>, i: nat, k: nat)
    requires Filed(h, bins) && 1 <= i < NAV && k < |bins[i]| && (i == LAST_REMAINDER || bins[LAST_REMAINDER] == [])
    ensures |bins| == NAV && bins[i := Without(bins[i], k)][LAST_REMAINDER] == [] && h.Free(bins[i][k])
  {
  }

  lemma RemainderFiled(h: Heap, end: int, rest: seq<seq<int>>, c: int, n: int)
    requires h.Tiled(end) && Filed(h.Use(c), rest) && rest[LAST_REMAINDER] == [] && c in h.size && c != h.top
    requires n % 8 == 0 && MINSIZE <= n <= h.size[c] - MINSIZE
    ensures Filed(h.Split(c, n).Use(c), rest[LAST_REMAINDER := [c + n]])
  {
    InsideNotChunk(h, end, c, c + n);
    RestNotUsed(h, end, c, n);
    assert h.top != c + n by { BelowTop(h, c, end); }
    hide h.Tiled;
    var g, more := h.Split(c, n).Use(c), rest[LAST_REMAINDER := [c + n]];
    forall p | g.Free(p) ensures g.size[p] >= 0 && (p in more[LAST_REMAINDER] || InOwnBin(g, more, p)) {
      if p != c + n {
        assert h.Use(c).Free(p);
      }
    }
  }

  lemma TopFiled(h: Heap, end: int, bins: seq<seq<int>>, n: int)
    requires h.Tiled(end) && Filed(h, bins) && n % 8 == 0 && MINSIZE <= n <= h.size[h.top] - MINSIZE
    ensures Filed(h.Split(h.top, n).Use(h.top), bins)
  {
    InsideNotChunk(h, end, h.top, h.top + n);
    hide h.Tiled;
    var g := h.Split(h.top, n).Use(h.top);
    forall p | g.Free(p) ensures g.size[p] >= 0 && (p in bins[LAST_REMAINDER] || InOwnBin(g, bins, p)) {
      assert h.Free(p);
    }
  }

  lemma GoodLinked(m: Mem, h: Heap, bins: seq<seq<int>>, word: bv32)
    requires Good(m, h, bins, word)
    ensures Linked(m, h, bins)
  {
    hide h.Tiled, Lists, Apart;
  }

  /** A filed chunk is free, and the chunk after it has a header in memory. */
  lemma TakeStart(m: Mem, h: Heap, bins: seq<seq<int>>, word: bv32, i: nat, k: nat)
    requires Good(m, h, bins, word) && 1 <= i < NAV && k < |bins[i]|
    ensures Linked(m, h, bins)
    ensures var c := bins[i][k]; h.Free(c) && c in h.size && h.AfterUsed(c)
    ensures var n := bins[i][k] + h.size[bins[i][k]]; n in h.size && n in h.used && 0 <= n && n + 4 < |m|
  {
    hide Lists, Apart, h.Forward;
    var c := bins[i][k];
    GoodLinked(m, h, bins, word);
    AroundFree(h, |m|, c);
    ChunkInRange(h, h.Next(c), |m|);
  }

  lemma MarkedLess(bins: seq<seq<int>>, word: bv32, i: nat, k: nat)
    requires |bins| == NAV && Marked(bins, word) && i < NAV && k < |bins[i]|
    ensures Marked(bins[i := Without(bins[i], k)], word)
  {
    hide IsMarked;
  }

  /** Setting the bit in the header of n, whose size stands there. */
  lemma SetBitWrite(m0: Mem, m: Mem, h: Heap, n: int)
    requires h.Tiled(|m|) && h.Tagged(m0) && n in h.size && TagsKept(m0, m, h) && 0 <= n && n + 4 < |m|
    ensures SetPrevInUse(m[n + 4]) == Head(h.size[n], true)
    ensures ClearPrevInUse(m[n + 4]) == Head(h.size[n], false)
  {
    hide h.Forward, h.Backward, h.Ordered;
    HeadBits(h.size[n], h.AfterUsed(n));
  }

  lemma TakeDone(m0: Mem, m1: Mem, h: Heap, bins0: seq<seq<int>>, bins1: seq<seq<int>>, word: bv32, i: nat, k: nat)
    requires Good(m0, h, bins0, word) && 1 <= i < NAV && k < |bins0[i]|
    requires bins1 == bins0[i := Without(bins0[i], k)] && |m1| == |m0|
    requires Linked(m1, h, bins1) && TagsKept(m0, m1, h) && PayloadKept(m0, m1, h)
    requires bins0[i][k] in h.size
    ensures var c := bins0[i][k];
            var n := c + h.size[c];
            && 0 <= n && n + 4 < |m1|
            && var m2 := m1[n + 4 := SetPrevInUse(m1[n + 4])];
            Good(m2, h.Use(c), bins1, word) && PayloadKept(m0, m2, h)
  {
    hide h.Tiled, h.Coalesced, h.Tagged, Lists, Apart, Filed, Marked, Head, SetPrevInUse, ClearPrevInUse, Word;
    hide PayloadKept;
    var c := bins0[i][k];
    TakeStart(m0, h, bins0, word, i, k);
    var n := c + h.size[c];
    HeadWrite(m1, h, bins1, n, SetPrevInUse(m1[n + 4]));
    SetBitWrite(m0, m1, h, n);
    var m2 := m1[n + 4 := SetPrevInUse(m1[n + 4])];
    PayloadChain(m0, m1, m2, h);
    UseTagged(m0, m2, h, c);
    UseCoalesced(h, |m0|, c);
    UseFiled(h, bins0, i, k);
    MarkedLess(bins0, word, i, k);
  }

  /** The lists seen from the heap g in which the chunk c has been cut, with the rest at r. */
  ghost predicate CutReady(m: Mem, g: Heap, bins: seq<seq<int>>, c: int, r: int, rest: int) {
    && |bins| == NAV && Linked(m, g, bins) && !Listed(bins, r)
    && c in g.size && r in g.size && r !in g.used && r != g.top && g.size[r] == rest
    && 0 <= c && c + 4 < |m| && 0 <= r && r + 4 < |m| && r + rest < |m|
  }

  /** What cutting a filed chunk starts from. */
  lemma SplitStart(m: Mem, h: Heap, bins: seq<seq<int>>, word: bv32, i: nat, k: nat, c: int, n: int)
    requires Good(m, h, bins, word) && 1 <= i < NAV && k < |bins[i]| && bins[i][k] == c
    requires c in h.size && n % 8 == 0 && MINSIZE <= n <= h.size[c] - MINSIZE
    ensures CutReady(m, h.Split(c, n), bins, c, c + n, h.size[c] - n)
    ensures h.Free(c) && c + n !in h.size && c + n !in h.used && forall q :: q in h.used ==> q in h.size
  {
    hide Lists, Apart, h.Tiled;
    GoodLinked(m, h, bins, word);
    UsedAreChunks(h, |m|);
    SplitLinked(m, h, bins, c, n);
    RestNotUsed(h, |m|, c, n);
    InsideNotChunk(h, |m|, c, c + n);
    ChunkInRange(h, c, |m|);
    BelowTop(h, c, |m|);
    ChunkInRange(h, h.top, |m|);
  }

  lemma UsedAreChunks(h: Heap, end: int)
    requires h.Tiled(end)
    ensures forall q :: q in h.used ==> q in h.size
  {
  }

  lemma UnlinkedStill(bins: seq<seq<int>>, i: nat, k: nat, r: int)
    requires |bins| == NAV && i < NAV && k < |bins[i]| && !Listed(bins, r)
    ensures !Listed(bins[i := Without(bins[i], k)], r)
  {
    var rest := bins[i := Without(bins[i], k)];
    forall j, l | 0 <= j < NAV && 0 <= l < |rest[j]| ensures rest[j][l] != r {
      assert j == i ==> Without(bins[i], k)[l] in bins[i];
      assert j != i ==> bins[j][l] in bins[j];
    }
  }

  /** The tags after the writes that cut c: its own head, and the head and foot of the rest. */
  lemma SplitTags(m0: Mem, m1: Mem, m2: Mem, m3: Mem, m4: Mem, m5: Mem, h: Heap, g: Heap, c: int, n: int)
    requires h.Free(c) && c + n !in h.size && c + n !in h.used && g == h.Split(c, n)
    requires TagsExcept(m0, m1, g, {c}, {}) && Word(m1, c + 4) == Head(n, true) && PayloadKept(m0, m1, g)
    requires TagsKept(m1, m2, g) && PayloadKept(m1, m2, g) && TagsKept(m2, m3, g) && PayloadKept(m2, m3, g)
    requires TagsExcept(m3, m4, g, {c + n}, {}) && PayloadKept(m3, m4, g)
    requires Word(m4, c + n + 4) == Head(h.size[c] - n, true)
    requires TagsExcept(m4, m5, g, {}, {c + n}) && PayloadKept(m4, m5, g)
    requires Word(m5, c + n + (h.size[c] - n)) == h.size[c] - n
    ensures CutTags(m0, m5, h, c, n) && PayloadKept(m0, m5, h)
  {
    hide Word, Head, PayloadKept, TagsExcept, TagsKept;
    SplitTagsOnce(m1, m2, m3, m4, m5, g, c + n);
    TagsChain(m0, m1, m5, g, {c}, {}, {c + n}, {c + n});
    var none: set<int> := {};
    assert {c} + {c + n} == {c, c + n} && none + {c + n} == {c + n};
    PayloadChain(m0, m1, m2, g);
    PayloadChain(m0, m2, m3, g);
    PayloadChain(m0, m3, m4, g);
    PayloadChain(m0, m4, m5, g);
    SamePayload(m0, m5, h, c, n);
    TagsUncut(m0, m5, h, c, n, {c + n});
    SplitHeads(m1, m2, m3, m4, m5, g, c, c + n);
  }

  lemma SplitTagsOnce(m1: Mem, m2: Mem, m3: Mem, m4: Mem, m5: Mem, g: Heap, r: int)
    requires TagsKept(m1, m2, g) && TagsKept(m2, m3, g)
    requires TagsExcept(m3, m4, g, {r}, {}) && TagsExcept(m4, m5, g, {}, {r})
    ensures TagsExcept(m1, m5, g, {r}, {r})
  {
    hide Word;
  }

  lemma SplitHeads(m1: Mem, m2: Mem, m3: Mem, m4: Mem, m5: Mem, g: Heap, c: int, r: int)
    requires c in g.size && r in g.size && c != r
    requires TagsKept(m1, m2, g) && TagsKept(m2, m3, g)
    requires TagsExcept(m3, m4, g, {r}, {}) && TagsExcept(m4, m5, g, {}, {r})
    ensures Word(m5, c + 4) == Word(m1, c + 4) && Word(m5, r + 4) == Word(m4, r + 4)
  {
    hide Word;
  }

  /** A change of tags seen from the heap where c is cut, seen from the one where it is not. */
  lemma TagsUncut(m0: Mem, m: Mem, h: Heap, c: int, n: int, feet: set<int>)
    requires c in h.size && c + n !in h.size && feet <= {c + n}
    requires TagsExcept(m0, m, h.Split(c, n), {c, c + n}, feet)
    ensures TagsExcept(m0, m, h, {c}, {c})
  {
    hide Word;
    var g := h.Split(c, n);
    forall p | p in h.size && p != c
      ensures Word(m, p + 4) == Word(m0, p + 4) && Word(m, p + h.size[p]) == Word(m0, p + h.size[p])
    {
      assert p in g.size && g.size[p] == h.size[p] && p !in {c, c + n};
    }
  }

  /** Only the tags of c changed, to those of its two parts. */
  ghost predicate CutTags(m: Mem, m': Mem, h: Heap, c: int, n: int)
    requires c in h.size
  {
    && TagsExcept(m, m', h, {c}, {c})
    && Word(m', c + 4) == Head(n, true) && Word(m', c + n + 4) == Head(h.size[c] - n, true)
    && (c != h.top ==> Word(m', c + h.size[c]) == h.size[c] - n)
  }

  lemma SamePayload(m: Mem, m': Mem, h: Heap, c: int, n: int)
    requires c in h.size && c !in h.used && c + n !in h.used && PayloadKept(m, m', h.Split(c, n))
    ensures PayloadKept(m, m', h)
  {
  }

  lemma SplitDone(m0: Mem, m: Mem, h: Heap, bins0: seq<seq<int>>, bins: seq<seq<int>>, word: bv32, i: nat, k: nat,
                  c: int, n: int)
    requires Good(m0, h, bins0, word) && 1 <= i < NAV && k < |bins0[i]| && bins0[i][k] == c && n % 8 == 0
    requires i == LAST_REMAINDER || bins0[LAST_REMAINDER] == []
    requires c in h.size && MINSIZE <= n <= h.size[c] - MINSIZE
    requires |m| == |m0| && bins == bins0[i := Without(bins0[i], k)][LAST_REMAINDER := [c + n]]
    requires Linked(m, h.Split(c, n), bins) && CutTags(m0, m, h, c, n)
    ensures Good(m, h.Split(c, n).Use(c), bins, word)
  {
    hide h.Tiled, h.Coalesced, h.Tagged, Lists, Apart, Filed, Marked, Head, Word, TagsExcept, Without, h.Split;
    TakeStart(m0, h, bins0, word, i, k);
    SplitTagged(m0, m, h, c, n);
    SplitCoalesced(h, |m0|, c, n);
    SplitUseTiled(h, |m0|, c, n);
    SplitFiled(h, |m0|, bins0, i, k, n);
    MarkedLess(bins0, word, i, k);
    MarkedRemainder(bins0[i := Without(bins0[i], k)], word, [c + n]);
  }

  lemma MarkedRemainder(bins: seq<seq<int>>, word: bv32, list: seq<int>)
    requires |bins| == NAV && Marked(bins, word)
    ensures Marked(bins[LAST_REMAINDER := list], word)
  {
    hide IsMarked;
  }

  lemma AloneRemainder(m: Mem, h: Heap, bins: seq<seq<int>>, word: bv32, k: nat)
    requires Good(m, h, bins, word) && k < |bins[LAST_REMAINDER]|
    ensures k == 0 && Without(bins[LAST_REMAINDER], k) == []
  {
  }

  /** The last remainder can be taken out of its bin, to be filed elsewhere. */
  lemma RemainderOut(m: Mem, h: Heap, bins: seq<seq<int>>, word: bv32, p: int)
    requires Good(m, h, bins, word) && bins[LAST_REMAINDER] == [p]
    ensures Linked(m, h, bins)
  {
    GoodLinked(m, h, bins, word);
  }

  lemma RemainderLoose(m0: Mem, m1: Mem, h: Heap, bins: seq<seq<int>>, word: bv32, p: int)
    requires Good(m0, h, bins, word) && bins[LAST_REMAINDER] == [p] && TagsKept(m0, m1, h) && |m1| == |m0|
    ensures var rest := bins[LAST_REMAINDER := []];
            && h.Tagged(m1) && h.Free(p) && Filed(h.Use(p), rest) && !Listed(rest, p) && Marked(rest, word)
  {
    hide h.Tiled, Lists;
    assert bins[LAST_REMAINDER][0] == p;
    UnfileRemainder(h, bins, p);
    MarkedRemainder(bins, word, []);
    TagsCarried(m0, m1, h);
  }

  lemma TagsCarried(m0: Mem, m1: Mem, h: Heap)
    requires h.Tagged(m0) && TagsKept(m0, m1, h)
    ensures h.Tagged(m1)
  {
  }

  lemma RemainderFiledBack(m0: Mem, m1: Mem, m: Mem, h: Heap, bins0: seq<seq<int>>, bins1: seq<seq<int>>,
                           bins: seq<seq<int>>,
                           word0: bv32, word: bv32)
    requires Good(m0, h, bins0, word0) && |m| == |m0|
    requires TagsKept(m0, m1, h) && TagsKept(m1, m, h) && PayloadKept(m0, m1, h) && PayloadKept(m1, m, h)
    requires Linked(m, h, bins) && Filed(h, bins) && Marked(bins, word)
    ensures Good(m, h, bins, word) && PayloadKept(m0, m, h)
  {
    hide h.Tiled, Lists, Apart, Filed, Marked, h.Coalesced;
    TagsCarried(m0, m1, h);
    TagsCarried(m1, m, h);
    PayloadChain(m0, m1, m, h);
  }

  /** Taking the last remainder out of its bin leaves it unfiled. */
  lemma UnfileRemainder(h: Heap, bins: seq<seq<int>>, p: int)
    requires Filed(h, bins) && Apart(bins) && bins[LAST_REMAINDER] == [p]
    ensures Filed(h.Use(p), bins[LAST_REMAINDER := []]) && !Listed(bins[LAST_REMAINDER := []], p)
  {
    assert Without(bins[LAST_REMAINDER], 0) == [];
    assert bins[LAST_REMAINDER][0] == p;
    UseFiled(h, bins, LAST_REMAINDER, 0);
    WithoutApart(bins, LAST_REMAINDER, 0);
  }

  /** The front of top is put in use. */
  lemma TopDone(m0: Mem, h: Heap, bins: seq<seq<int>>, word: bv32, n: int)
    requires Good(m0, h, bins, word) && n % 8 == 0 && h.top in h.size && MINSIZE <= n <= h.size[h.top] - MINSIZE
    ensures var c := h.top;
            && 0 <= c && c + 4 < |m0| && c + n + 4 < |m0|
            && var m := m0[c + 4 := Head(n, true)][c + n + 4 := Head(h.size[c] - n, true)];
            Good(m, h.Split(c, n).Use(c), bins, word) && PayloadKept(m0, m, h)
    ensures h.top !in h.used && h.top + n !in h.used && forall q :: q in h.used ==> q in h.size
  {
    hide h.Tiled, h.Coalesced, h.Tagged, Lists, Apart, Marked, Head, Filed, TagsExcept, PayloadKept;
    var c := h.top;
    var g := h.Split(c, n);
    GoodLinked(m0, h, bins, word);
    UsedAreChunks(h, |m0|);
    TopFree(h);
    BeforeTop(h, |m0|);
    SplitLinked(m0, h, bins, c, n);
    ChunkInRange(h, c, |m0|);
    HeadWrite(m0, g, bins, c, Head(n, true));
    var m1 := m0[c + 4 := Head(n, true)];
    HeadWrite(m1, g, bins, c + n, Head(h.size[c] - n, true));
    var m := m1[c + n + 4 := Head(h.size[c] - n, true)];
    PayloadChain(m0, m1, m, g);
    TagsChain(m0, m1, m, g, {c}, {}, {c + n}, {});
    RestNotUsed(h, |m0|, c, n);
    InsideNotChunk(h, |m0|, c, c + n);
    var none: set<int> := {};
    assert {c} + {c + n} == {c, c + n} && none + none == none;
    TagsUncut(m0, m, h, c, n, {});
    SamePayload(m0, m, h, c, n);
    SplitTagged(m0, m, h, c, n);
    SplitCoalesced(h, |m0|, c, n);
    SplitUseTiled(h, |m0|, c, n);
    TopFiled(h, |m0|, bins, n);
  }

  lemma TopFree(h: Heap)
    requires h.Coalesced()
    ensures h.top !in h.used
  {
  }

  /** Top grows by n bytes when memory does. */
  ghost function Grow(h: Heap, n: int): Heap
    requires h.top in h.size
  {
    h.(size := h.size[h.top := h.size[h.top] + n])
  }

  lemma GrowTiled(h: Heap, end: int, n: int)
    requires h.Tiled(end) && h.top in h.size && n >= 0 && n % 8 == 0
    ensures Grow(h, n).Tiled(end + n)
  {
    var g := Grow(h, n);
    assert g.Forward() by {
      forall p | p in g.size && p != g.top
        ensures g.Next(p) in g.size && g.Next(p) in g.before && g.before[g.Next(p)] == p
      {
        assert h.Next(p) in h.size;
      }
    }
    assert g.Backward() by {
      forall p | p in g.size && p != g.base
        ensures p in g.before && g.Prev(p) in g.size && g.Prev(p) + g.size[g.Prev(p)] == p
      {
        assert h.Prev(p) in h.size;
        BeforeIsNotTop(h, end, p);
      }
    }
  }

  lemma BeforeIsNotTop(h: Heap, end: int, p: int)
    requires h.Tiled(end) && p in h.size && p != h.base
    ensures h.Prev(p) != h.top
  {
    assert h.Prev(p) in h.size;
  }

  lemma GrowCoalesced(h: Heap, n: int)
    requires h.Coalesced() && h.top in h.size
    ensures Grow(h, n).Coalesced()
  {
    var g := Grow(h, n);
    forall p | p in g.size && p !in g.used && p != g.top ensures g.Next(p) in g.used {
      assert h.Next(p) in h.used;
    }
  }

  lemma GrowFiled(h: Heap, bins: seq<seq<int>>, n: int)
    requires Filed(h, bins) && h.top in h.size
    ensures Filed(Grow(h, n), bins)
  {
    var g := Grow(h, n);
    hide BinIndex;
    forall p | g.Free(p) ensures g.size[p] >= 0 && (p in bins[LAST_REMAINDER] || InOwnBin(g, bins, p)) {
      assert h.Free(p);
    }
  }

  /** Memory that has only got longer. */
  lemma LongerLists(m: Mem, m': Mem, h: Heap, bins: seq<seq<int>>)
    requires Linked(m, h, bins) && m <= m' && h.top !in h.used
    ensures Lists(m', bins) && TagsExcept(m, m', h, {}, {h.top}) && PayloadKept(m, m', h)
  {
    hide h.Tiled, Apart, Ring;
    forall i, k | 0 <= i < NAV && 0 <= k < |bins[i]| ensures 0 <= bins[i][k] && bins[i][k] + 12 < |m| {
      assert Linkable(h, bins[i][k]);
      LinkableInRange(h, bins[i][k], |m|);
    }
    forall i | 1 <= i < NAV ensures 0 <= BinAt(i) && BinAt(i) + 12 < |m| {
      assert Linkable(h, BinAt(i));
      LinkableInRange(h, BinAt(i), |m|);
    }
    assert LinksKept(m, m', bins);
    ListsKept(m, m', bins);
    forall p | p in h.size ensures 0 <= p && p + 4 < |m| && (p != h.top ==> p + h.size[p] < |m|) {
      ChunkInRange(h, p, |m|);
      if p != h.top {
        BelowTop(h, p, |m|);
        ChunkInRange(h, h.top, |m|);
      }
    }
    forall p, a | p in h.used && p in h.size && p + 8 <= a <= p + h.size[p] ensures Word(m', a) == Word(m, a) {
      ChunkInRange(h, p, |m|);
      BelowTop(h, p, |m|);
      ChunkInRange(h, h.top, |m|);
    }
  }

  /** The header of top is rewritten once memory has grown by n bytes. */
  lemma GrowDone(m0: Mem, m1: Mem, h: Heap, bins: seq<seq<int>>, word: bv32, n: int)
    requires Good(m0, h, bins, word) && m0 <= m1 && |m1| == |m0| + n && n % 8 == 0 && h.top in h.size
    ensures 0 <= h.top && h.top + 4 < |m1|
    ensures var m := m1[h.top + 4 := Head(h.size[h.top] + n, true)];
            Good(m, Grow(h, n), bins, word) && PayloadKept(m0, m, h)
  {
    hide h.Tiled, h.Coalesced, Lists, Apart, Marked, Head, Filed;
    var g := Grow(h, n);
    GoodLinked(m0, h, bins, word);
    TopFree(h);
    BeforeTop(h, |m0|);
    LongerLists(m0, m1, h, bins);
    GrowTiled(h, |m0|, n);
    GrowCoalesced(h, n);
    GrowFiled(h, bins, n);
    ChunkInRange(g, h.top, |m1|);
    HeadWrite(m1, g, bins, h.top, Head(g.size[h.top], true));
    var m := m1[h.top + 4 := Head(h.size[h.top] + n, true)];
    GrowTags(m0, m1, m, h, n);
    GrowPayload(m0, m1, m, h, n);
  }

  lemma GrowTags(m0: Mem, m1: Mem, m: Mem, h: Heap, n: int)
    requires h.top in h.size && h.top !in h.used && h.Tagged(m0) && h.AfterUsed(h.top)
    requires TagsExcept(m0, m1, h, {}, {h.top}) && TagsExcept(m1, m, Grow(h, n), {h.top}, {})
    requires Word(m, h.top + 4) == Head(h.size[h.top] + n, true)
    ensures Grow(h, n).Tagged(m)
  {
    hide Word, Head;
  }

  lemma GrowPayload(m0: Mem, m1: Mem, m: Mem, h: Heap, n: int)
    requires h.top in h.size && h.top !in h.used
    requires PayloadKept(m0, m1, h) && PayloadKept(m1, m, Grow(h, n))
    ensures PayloadKept(m0, m, h)
  {
    hide Word;
    forall p, a | p in h.used && p in h.size && p + 8 <= a <= p + h.size[p] ensures Word(m, a) == Word(m0, a) {
      assert p in Grow(h, n).size && Grow(h, n).size[p] == h.size[p];
    }
  }

  /** The heap of one chunk from base to the end of memory. */
  ghost function OneChunk(base: int, end: int): Heap {
    Heap(map[base := end - base], map[], {}, base, base)
  }

  lemma FirstDone(m0: Mem, m1: Mem, bins: seq<seq<int>>, base: int)
    requires bins == seq(NAV, _ => []) && Lists(m0, bins) && m0 <= m1
    requires BinAt(NAV) + 16 <= |m0| <= base && base % 8 == 0 && base + MINSIZE <= |m1| && (|m1| - base) % 8 == 0
    ensures Good(m1[base + 4 := Head(|m1| - base, true)], OneChunk(base, |m1|), bins, 0)
  {
    hide Head;
    var m := m1[base + 4 := Head(|m1| - base, true)];
    assert LinksKept(m0, m, bins);
    ListsKept(m0, m, bins);
    hide Lists;
  }
}
