/** Freeing: the chunk given back is joined with its free neighbours, or with top. */
module MallocFree {
  import opened MallocBins
  import opened MallocHeap
  import opened MallocFit
  import opened MallocState
  import opened MallocSteps

  /** The block at p is no longer in use. */
  ghost function Released(h: Heap, p: int): Heap {
    h.(used := h.used - {p})
  }

  /** The chunk at p with the chunk after it taken in, when forward, and taken in by the one before, when back. */
  ghost function Coalesced(h: Heap, p: int, back: bool, forward: bool): Heap
    requires p in h.size && h.Next(p) in h.size
    requires back ==>
      p in h.before && h.before[p] in h.size && h.before[p] + h.size[h.before[p]] == p && h.before[p] < p
    requires h.size[p] > 0
  {
    var r := Released(h, p);
    var f := if forward then r.Merge(p) else r;
    if back then f.Merge(h.before[p]) else f
  }

  /** Where the coalesced chunk starts. */
  ghost function Start(h: Heap, p: int, back: bool): int
    requires back ==> p in h.before
  {
    if back then h.before[p] else p
  }

  /** The neighbours that are free, or top, are those that are joined. */
  ghost predicate Joins(h: Heap, end: int, p: int, back: bool, forward: bool) {
    && h.Tiled(end) && h.Coalesced() && p in h.used && p in h.size && p != h.top && h.Next(p) in h.size
    && (forward <==> h.Next(p) !in h.used)
    && (back <==> !h.AfterUsed(p))
    && (back ==> p in h.before && h.before[p] in h.size && h.before[p] + h.size[h.before[p]] == p && h.before[p] < p)
    && (back ==> h.Free(h.before[p]))
  }

  lemma JoinsAt(h: Heap, end: int, p: int)
    requires h.Tiled(end) && h.Coalesced() && p in h.used
    ensures Joins(h, end, p, !h.AfterUsed(p), h.Next(p) !in h.used)
  {
    assert h.Next(p) in h.size;
    if !h.AfterUsed(p) {
      assert h.Prev(p) in h.size;
      assert h.Next(h.Prev(p)) == p;
    }
  }

  lemma ReleasedTiled(h: Heap, end: int, p: int)
    requires h.Tiled(end)
    ensures Released(h, p).Tiled(end)
  {
    var g := Released(h, p);
    assert g.Forward() by {
      forall q | q in g.size && q != g.top
        ensures g.Next(q) in g.size && g.Next(q) in g.before && g.before[g.Next(q)] == q
      {
        assert h.Next(q) in h.size;
      }
    }
    assert g.Backward() by {
      forall q | q in g.size && q != g.base
        ensures q in g.before && g.Prev(q) in g.size && g.Prev(q) + g.size[g.Prev(q)] == q
      {
        assert h.Prev(q) in h.size;
      }
    }
  }

  lemma CoalescedTiled(h: Heap, end: int, p: int, back: bool, forward: bool)
    requires Joins(h, end, p, back, forward)
    ensures h.size[p] > 0 && Coalesced(h, p, back, forward).Tiled(end)
  {
    ChunkInRange(h, p, end);
    hide h.Tiled, h.Coalesced;
    var r := Released(h, p);
    ReleasedTiled(h, end, p);
    if forward {
      r.MergeTiled(p, end);
    }
    var f := if forward then r.Merge(p) else r;
    if back {
      BeforeNotTop(h, end, p);
      f.MergeTiled(h.before[p], end);
    }
  }

  lemma BeforeNotTop(h: Heap, end: int, p: int)
    requires h.Tiled(end) && p in h.size && p in h.before && h.before[p] in h.size && h.before[p] < p
    ensures h.before[p] != h.top
  {
    hide h.Forward, h.Backward, h.Ordered;
  }

  /** What coalescing leaves of the heap: one chunk from q to n, and the others as they were. */
  ghost predicate Outcome(h: Heap, hf: Heap, p: int, q: int, n: int, back: bool, forward: bool)
    requires p in h.size && h.Next(p) in h.size && (back ==> p in h.before)
  {
    var next := h.Next(p);
    && q == Start(h, p, back) && hf.used == h.used - {p} && hf.base == h.base && q in hf.size
    && hf.top == (if next == h.top && forward then q else h.top)
    && (forall x :: x in hf.size <==> x in h.size && (forward ==> x != next) && (back ==> x != p))
    && (forall x :: x in hf.size && x != q ==> hf.size[x] == h.size[x])
    && n == q + hf.size[q] == (if forward then next + h.size[next] else next)
  }

  /** Whatever came after a joined chunk now comes after q. */
  ghost predicate Follows(h: Heap, hf: Heap, p: int, q: int, forward: bool)
    requires p in h.size
  {
    forall x :: x in hf.size && x in h.before && x != h.base ==>
      x in hf.before
        && hf.before[x] == (if h.before[x] == p || (forward && h.before[x] == h.Next(p)) then q else h.before[x])
  }

  lemma MergeBefore(h: Heap, end: int, c: int, x: int)
    requires h.Tiled(end) && c in h.size && c != h.top && h.Next(c) in h.size
    requires x in h.Merge(c).size && x in h.before && x != h.base && x in h.size
    ensures x in h.Merge(c).before && h.Merge(c).before[x] == if h.before[x] == h.Next(c) then c else h.before[x]
  {
    OnlyNextFollows(h, end, h.Next(c), x);
    ChunkInRange(h, h.Next(c), end);
    hide h.Tiled;
  }

  lemma CoalescedOutcome(h: Heap, end: int, p: int, back: bool, forward: bool)
    requires Joins(h, end, p, back, forward)
    ensures h.size[p] > 0
    ensures var hf := Coalesced(h, p, back, forward);
            var q := Start(h, p, back);
            q in hf.size && Outcome(h, hf, p, q, q + hf.size[q], back, forward)
  {
    hide h.Tiled, h.Coalesced, h.AfterUsed;
    ChunkInRange(h, p, end);
    ChunkInRange(h, h.Next(p), end);
    if back {
      ChunkInRange(h, h.before[p], end);
      BeforeNotTop(h, end, p);
    }
    UsedAreChunks(h, end);
    OutcomeOf(h, p, back, forward);
  }

  lemma OutcomeOf(h: Heap, p: int, back: bool, forward: bool)
    requires p in h.size && h.Next(p) in h.size && h.size[p] > 0 && h.size[h.Next(p)] > 0 && p != h.top
    requires back ==>
      p in h.before && h.before[p] in h.size && h.before[p] + h.size[h.before[p]] == p && h.before[p] < p
    requires back ==> h.before[p] != h.top && h.before[p] !in h.used
    requires forward ==> h.Next(p) !in h.used
    ensures var hf := Coalesced(h, p, back, forward);
            var q := Start(h, p, back);
            q in hf.size && Outcome(h, hf, p, q, q + hf.size[q], back, forward)
  {
    if forward {
      if back {
      }
    } else if back {
    }
  }

  lemma MergedSubset(h: Heap, p: int, back: bool, forward: bool, x: int)
    requires p in h.size && h.Next(p) in h.size && h.size[p] > 0
    requires back ==>
      p in h.before && h.before[p] in h.size && h.before[p] + h.size[h.before[p]] == p && h.before[p] < p
    requires x in Coalesced(h, p, back, forward).size
    ensures x in h.size && x in (if forward then Released(h, p).Merge(p) else Released(h, p)).size
  {
    if forward {
      if back {
      }
    } else if back {
    }
  }

  lemma CoalescedFollows(h: Heap, end: int, p: int, back: bool, forward: bool)
    requires Joins(h, end, p, back, forward) && h.size[p] > 0
    ensures Follows(h, Coalesced(h, p, back, forward), p, Start(h, p, back), forward)
  {
    hide h.Tiled, h.Coalesced, h.Merge, Coalesced, Start;
    var hf := Coalesced(h, p, back, forward);
    forall x | x in hf.size && x in h.before && x != h.base
      ensures x in hf.before
      ensures hf.before[x] ==
        (if h.before[x] == p || (forward && h.before[x] == h.Next(p)) then Start(h, p, back) else h.before[x])
    {
      FollowsAt(h, end, p, back, forward, x);
    }
  }

  lemma FollowsAt(h: Heap, end: int, p: int, back: bool, forward: bool, x: int)
    requires Joins(h, end, p, back, forward) && h.size[p] > 0
    requires x in Coalesced(h, p, back, forward).size && x in h.before && x != h.base
    ensures var hf := Coalesced(h, p, back, forward);
            x in hf.before &&
            hf.before[x] == (if h.before[x] == p || (forward && h.before[x] == h.Next(p)) then Start(h, p, back)
              else h.before[x])
  {
    hide h.Tiled, h.Coalesced, h.Merge, h.AfterUsed, h.Free;
    var r := Released(h, p);
    ReleasedTiled(h, end, p);
    if forward {
      r.MergeTiled(p, end);
    }
    var f := if forward then r.Merge(p) else r;
    MergedSubset(h, p, back, forward, x);
    if forward {
      MergeBefore(r, end, p, x);
    }
    if back {
      BeforeNotTop(h, end, p);
      MergeParts(r, p);
      MergeBefore(f, end, h.before[p], x);
    }
  }

  lemma MergeParts(h: Heap, c: int)
    requires c in h.size && h.Next(c) in h.size
    ensures h.Merge(c).base == h.base && c in h.Merge(c).size
    ensures forall x :: x in h.size && x != h.Next(c) ==>
      x in h.Merge(c).size && (x != c ==> h.Merge(c).size[x] == h.size[x])
    ensures h.Merge(c).top == if h.Next(c) == h.top then c else h.top
  {
  }

  /** The chunk before the joined one is in use, and so is the one after it unless it is top. */
  lemma AroundJoined(h: Heap, end: int, p: int, back: bool, forward: bool)
    requires Joins(h, end, p, back, forward)
    ensures var q := Start(h, p, back);
            h.AfterUsed(q) && (q != h.base ==> q in h.before && h.before[q] != p && h.before[q] != h.Next(p))
    ensures forward && h.Next(p) != h.top ==> h.Next(p) + h.size[h.Next(p)] in h.used
  {
    var q := Start(h, p, back);
    if back {
      AroundFree(h, end, q);
    }
    if q != h.base {
      OnlyNextFollows(h, end, p, q);
      OnlyNextFollows(h, end, h.Next(p), q);
      ChunkInRange(h, p, end);
      ChunkInRange(h, h.Next(p), end);
    }
    if forward && h.Next(p) != h.top {
      AroundFree(h, end, h.Next(p));
    }
  }

  /** The tags that freeing leaves: those of the joined chunk, and a cleared bit after it. */
  ghost predicate FreedTags(m0: Mem, m: Mem, h: Heap, hf: Heap, p: int, q: int, forward: bool)
    requires p in h.size && q in hf.size
  {
    && Word(m, q + 4) == Head(hf.size[q], true) && (q != hf.top ==> Word(m, q + hf.size[q]) == hf.size[q])
    && (forall x :: x in hf.size && x in h.size && x != q ==>
          Word(m, x + 4) == if !forward && x == h.Next(p) then Head(h.size[x], false) else Word(m0, x + 4))
    && (forall x :: hf.Free(x) && x != q ==> Word(m, x + hf.size[x]) == Word(m0, x + hf.size[x]))
  }

  lemma FreedTagged(m0: Mem, m: Mem, h: Heap, hf: Heap, end: int, p: int, q: int, back: bool, forward: bool)
    requires Joins(h, end, p, back, forward) && h.Tagged(m0) && q in hf.size && hf.Tiled(end)
    requires Outcome(h, hf, p, q, q + hf.size[q], back, forward) && Follows(h, hf, p, q, forward)
    requires FreedTags(m0, m, h, hf, p, q, forward)
    ensures hf.Tagged(m)
  {
    hide h.Tiled, h.Coalesced, Word, Head;
    AroundJoined(h, end, p, back, forward);
    forall x | x in hf.size ensures Word(m, x + 4) == Head(hf.size[x], hf.AfterUsed(x)) {
      if x != h.base {
        OnlyNextFollows(h, end, p, x);
      }
      BaseFirst(h, end, p);
    }
    forall x | x in hf.size && x !in hf.used && x != hf.top ensures Word(m, x + hf.size[x]) == hf.size[x] {
      if x != q {
        assert h.Free(x);
      }
    }
  }

  lemma FreedCoalesced(h: Heap, hf: Heap, end: int, p: int, q: int, back: bool, forward: bool)
    requires Joins(h, end, p, back, forward) && q in hf.size
    requires Outcome(h, hf, p, q, q + hf.size[q], back, forward)
    ensures hf.Coalesced()
  {
    hide h.Tiled;
    AroundJoined(h, end, p, back, forward);
    ChunkInRange(h, p, end);
    forall x | x in hf.size && x !in hf.used && x != hf.top ensures hf.Next(x) in hf.used {
      if x != q {
        assert h.Next(x) in h.used;
        if h.Next(x) == p {
          BaseFirst(h, end, x);
          OnlyNextFollows(h, end, x, p);
        }
      } else {
        NextNotSelf(h, end, p, back, forward);
      }
    }
  }

  lemma NextNotSelf(h: Heap, end: int, p: int, back: bool, forward: bool)
    requires Joins(h, end, p, back, forward)
    ensures h.Next(p) != p && (forward ==> h.Next(p) + h.size[h.Next(p)] != p)
  {
    ChunkInRange(h, p, end);
    ChunkInRange(h, h.Next(p), end);
  }

  /** Two heaps with the same free chunks, those in the bins of the same sizes, are filed alike. */
  lemma FiledAlike(h0: Heap, h: Heap, bins: seq<seq<int>>)
    requires Filed(h0, bins)
    requires forall x :: h.Free(x) <==> h0.Free(x)
    requires forall x :: h.Free(x) ==> h.size[x] >= 0
    requires forall x :: h.Free(x) && x !in bins[LAST_REMAINDER] ==> h.size[x] == h0.size[x]
    requires forall i, k :: 2 <= i < NAV && 0 <= k < |bins[i]| ==> bins[i][k] !in bins[LAST_REMAINDER]
    ensures Filed(h, bins)
  {
    hide BinIndex;
    forall x | h.Free(x) ensures h.size[x] >= 0 && (x in bins[LAST_REMAINDER] || InOwnBin(h, bins, x)) {
      assert h0.Free(x);
    }
  }

  /** Filing q as the last remainder. */
  lemma FiledRemainder(h: Heap, bins: seq<seq<int>>, q: int)
    requires Filed(h.Use(q), bins) && bins[LAST_REMAINDER] == [] && h.Free(q) && h.size[q] >= 0
    ensures Filed(h, bins[LAST_REMAINDER := [q]])
  {
    hide BinIndex;
    var more := bins[LAST_REMAINDER := [q]];
    forall x | h.Free(x) ensures h.size[x] >= 0 && (x in more[LAST_REMAINDER] || InOwnBin(h, more, x)) {
      if x != q {
        assert h.Use(q).Free(x);
      }
    }
  }

  /** The bin and place of a free chunk. */
  lemma WhereFiled(h: Heap, bins: seq<seq<int>>, c: int) returns (i: nat, k: nat)
    requires Filed(h, bins) && h.Free(c)
    ensures 1 <= i < NAV && k < |bins[i]| && bins[i][k] == c
  {
    if c in bins[LAST_REMAINDER] {
      i := LAST_REMAINDER;
    } else {
      i := BinIndex(h.size[c]);
      assert bins[0] == [];
    }
    k :| 0 <= k < |bins[i]| && bins[i][k] == c;
  }

  /** Only the last remainder is followed by the head of its bin. */
  lemma RemainderTest(m: Mem, g: Heap, bins: seq<seq<int>>, i: nat, k: nat)
    requires Linked(m, g, bins) && 1 <= i < NAV && k < |bins[i]| && |bins[LAST_REMAINDER]| <= 1
    ensures 0 <= bins[i][k] && bins[i][k] + 12 < |m|
    ensures Fd(m, bins[i][k]) == BinAt(LAST_REMAINDER) <==> i == LAST_REMAINDER
  {
    hide g.Tiled;
    assert Linkable(g, bins[i][k]);
    LinkableInRange(g, bins[i][k], |m|);
    assert Ring(m, BinAt(i), bins[i]);
    RingAt(m, BinAt(i), bins[i], k);
    if k + 1 < |bins[i]| {
      assert Node(bins[i][k + 1]);
    }
  }

  /** With the bin of the last remainder at hand: c is it, or is filed elsewhere. */
  lemma AloneInBin(bins: seq<seq<int>>, k: nat, c: int)
    requires |bins| == NAV && |bins[LAST_REMAINDER]| <= 1 && k < |bins[LAST_REMAINDER]| && bins[LAST_REMAINDER][k] == c
    ensures bins[LAST_REMAINDER] == [c]
  {
  }

  /** The lists seen once p is no longer in use. */
  lemma ReleasedLinked(m: Mem, h: Heap, bins: seq<seq<int>>, p: int)
    requires Linked(m, h, bins) && p in h.used
    ensures Linked(m, Released(h, p), bins) && !Listed(bins, p)
  {
    ReleasedTiled(h, |m|, p);
    hide h.Tiled, Lists;
    forall i, k | 0 <= i < NAV && 0 <= k < |bins[i]| ensures bins[i][k] != p {
    }
  }

  /** The lists seen once the neighbours are joined. */
  lemma JoinedLinked(m: Mem, h: Heap, hf: Heap, bins: seq<seq<int>>, p: int, q: int, back: bool, forward: bool)
    requires Linked(m, Released(h, p), bins) && p in h.size && h.Next(p) in h.size && (back ==> p in h.before)
    requires q in hf.size
    requires hf.Tiled(|m|) && Outcome(h, hf, p, q, q + hf.size[q], back, forward)
    requires (back ==> !Listed(bins, p)) && (forward ==> !Listed(bins, h.Next(p)))
    ensures Linked(m, hf, bins)
  {
    hide h.Tiled, Lists, Apart;
    forall i, k | 0 <= i < NAV && 0 <= k < |bins[i]| ensures bins[i][k] in hf.size && bins[i][k] !in hf.used {
      assert p in bins[i] || bins[i][k] != p;
      assert h.Next(p) in bins[i] || bins[i][k] != h.Next(p);
    }
  }

  /** Free chunks after freeing: the joined one unless it is top, and those that were not joined. */
  lemma FreeAfter(h: Heap, hf: Heap, end: int, p: int, q: int, back: bool, forward: bool, x: int)
    requires Joins(h, end, p, back, forward) && q in hf.size
    requires Outcome(h, hf, p, q, q + hf.size[q], back, forward)
    ensures x != q ==> (hf.Free(x) <==> h.Free(x) && (forward ==> x != h.Next(p)))
    ensures hf.Free(q) <==> !(forward && h.Next(p) == h.top)
    ensures q == p || h.Free(q)
    ensures hf.Free(x) && x != q ==> hf.size[x] == h.size[x]
  {
    hide h.Tiled;
  }

  /** What is read off memory about the block at p and its neighbours. */
  ghost predicate Readings(m: Mem, h: Heap, p: int, back: bool, forward: bool) {
    && Joins(h, |m|, p, back, forward)
    && 0 <= p && p + 4 < |m| && m[p + 4] == Head(h.size[p], !back)
    && ClearPrevInUse(m[p + 4]) == h.size[p] && PrevInUse(m[p + 4]) == !back && h.size[p] >= MINSIZE
    && var next := h.Next(p);
    && next + 4 < |m| && ChunkSize(m[next + 4]) == h.size[next]
    && (back ==> m[p] == h.size[h.before[p]])
    && (next == h.top ==> forward)
    && (next != h.top ==> next + h.size[next] + 4 < |m| && PrevInUse(m[next + h.size[next] + 4]) == !forward)
  }

  lemma ReadBlock(m: Mem, h: Heap, p: int)
    requires h.Tiled(|m|) && h.Coalesced() && h.Tagged(m) && p in h.used && p in h.size
    ensures Readings(m, h, p, !h.AfterUsed(p), h.Next(p) !in h.used)
  {
    hide h.Tiled, h.Coalesced, Head, PrevInUse, ClearPrevInUse, ChunkSize;
    var back, forward := !h.AfterUsed(p), h.Next(p) !in h.used;
    JoinsAt(h, |m|, p);
    var next := h.Next(p);
    ReadChunk(m, h, p);
    ReadChunk(m, h, next);
    TopFree(h);
    if back {
      ReadChunk(m, h, h.before[p]);
    }
    if next != h.top {
      NextChunk(h, |m|, next);
      var n := next + h.size[next];
      ReadChunk(m, h, n);
      BaseFirst(h, |m|, next);
      OnlyNextFollows(h, |m|, next, n);
    }
  }

  lemma NextChunk(h: Heap, end: int, p: int)
    requires h.Tiled(end) && p in h.size && p != h.top
    ensures h.Next(p) in h.size
  {
  }

  lemma ReadChunk(m: Mem, h: Heap, p: int)
    requires h.Tiled(|m|) && h.Tagged(m) && p in h.size
    ensures 0 <= p && p + 4 < |m| && m[p + 4] == Head(h.size[p], h.AfterUsed(p)) && h.size[p] >= MINSIZE
    ensures ClearPrevInUse(m[p + 4]) == h.size[p] && PrevInUse(m[p + 4]) == h.AfterUsed(p)
    ensures ChunkSize(m[p + 4]) == h.size[p]
    ensures h.Free(p) ==> p + h.size[p] < |m| && m[p + h.size[p]] == h.size[p]
  {
    ChunkInRange(h, p, |m|);
    if p != h.top {
      BelowTop(h, p, |m|);
      ChunkInRange(h, h.top, |m|);
    }
    hide h.Forward, h.Backward, h.Ordered;
    HeadParts(h.size[p], h.AfterUsed(p));
    HeadBits(h.size[p], h.AfterUsed(p));
  }

  /** The tags after the neighbours are unlinked and the joined chunk gets its head and foot. */
  lemma FreedTagsFrom(m0: Mem, m3: Mem, m4: Mem, m5: Mem, h: Heap, hf: Heap, end: int, p: int, q: int, back: bool,
                      forward: bool)
    requires Joins(h, end, p, back, forward) && q in hf.size && hf.Tiled(end)
    requires Outcome(h, hf, p, q, q + hf.size[q], back, forward)
    requires TagsExcept(m0, m3, Released(h, p), {h.Next(p)}, {})
    requires !forward ==> Word(m3, h.Next(p) + 4) == Head(h.size[h.Next(p)], false)
    requires TagsExcept(m3, m4, hf, {q}, {}) && Word(m4, q + 4) == Head(hf.size[q], true)
    requires if q == hf.top then m5 == m4 else TagsExcept(m4, m5, hf, {}, {q}) && Word(m5, q + hf.size[q]) == hf.size[q]
    ensures FreedTags(m0, m5, h, hf, p, q, forward)
  {
    hide h.Tiled, h.Coalesced, hf.Tiled, Word, Head;
  }

  lemma TopUnlisted(a: Heap, bins: seq<seq<int>>, p: int)
    requires Filed(a, bins) && (p == a.top || p in a.used)
    ensures !Listed(bins, p)
  {
    forall i | 0 <= i < NAV ensures p !in bins[i] {
      forall k | 0 <= k < |bins[i]| ensures bins[i][k] != p {
        assert a.Free(bins[i][k]);
      }
    }
  }

  /** The blocks still in use are those of the released heap, of the same sizes. */
  lemma StillInUse(h: Heap, hf: Heap, end: int, p: int, q: int, back: bool, forward: bool, x: int)
    requires Joins(h, end, p, back, forward) && q in hf.size && Outcome(h, hf, p, q, q + hf.size[q], back, forward)
    requires x in hf.used
    ensures x in h.used && x != p && x in h.size && x in hf.size && hf.size[x] == h.size[x]
  {
    UsedAreChunks(h, end);
    hide h.Tiled;
  }

  lemma PayloadAsReleased(m: Mem, m': Mem, h: Heap, hf: Heap, end: int, p: int, q: int, back: bool, forward: bool)
    requires Joins(h, end, p, back, forward) && q in hf.size && Outcome(h, hf, p, q, q + hf.size[q], back, forward)
    requires PayloadKept(m, m', hf)
    ensures PayloadKept(m, m', Released(h, p))
  {
    hide Word, Joins, Outcome;
    JoinsUsed(h, end, p, back, forward);
    OutcomeUsed(h, hf, p, q, back, forward);
    forall x, a | x in Released(h, p).used && x in h.size && x + 8 <= a <= x + h.size[x]
      ensures Word(m', a) == Word(m, a)
    {
      StillInUse(h, hf, end, p, q, back, forward, x);
    }
  }

  lemma JoinsUsed(h: Heap, end: int, p: int, back: bool, forward: bool)
    requires Joins(h, end, p, back, forward)
    ensures p in h.used && p in h.size && h.Next(p) in h.size && (back ==> p in h.before)
  {
  }

  lemma OutcomeUsed(h: Heap, hf: Heap, p: int, q: int, back: bool, forward: bool)
    requires p in h.size && h.Next(p) in h.size && (back ==> p in h.before) && q in hf.size
    requires Outcome(h, hf, p, q, q + hf.size[q], back, forward)
    ensures hf.used == h.used - {p}
  {
  }

  /** Everything is in order again once the joined chunk is tagged and filed, or is top. */
  lemma FreedGood(m0: Mem, m3: Mem, m: Mem, h: Heap, hf: Heap, bins0: seq<seq<int>>, bins: seq<seq<int>>, word0: bv32,
                  word: bv32,
                  p: int, q: int, back: bool, forward: bool)
    requires Good(m0, h, bins0, word0) && |m| == |m0| && Joins(h, |m0|, p, back, forward)
    requires hf.Tiled(|m|) && q in hf.size && Outcome(h, hf, p, q, q + hf.size[q], back, forward)
    requires Follows(h, hf, p, q, forward) && FreedTags(m0, m, h, hf, p, q, forward)
    requires Linked(m, hf, bins) && Filed(hf, bins) && Marked(bins, word)
    requires PayloadKept(m0, m3, Released(h, p)) && PayloadKept(m3, m, hf)
    ensures Good(m, hf, bins, word) && PayloadKept(m0, m, Released(h, p))
  {
    hide h.Tiled, h.Coalesced, h.Tagged, Lists, Apart, Filed, Marked, PayloadKept, FreedTags, Outcome, Follows, Joins;
    FreedTagged(m0, m, h, hf, |m0|, p, q, back, forward);
    FreedCoalesced(h, hf, |m0|, p, q, back, forward);
    PayloadAsReleased(m3, m, h, hf, |m0|, p, q, back, forward);
    PayloadChain(m0, m3, m, Released(h, p));
  }
}
