/**
 The allocator of openblt/lib/libc/malloc.c, working in place on its memory words.
 The ghost fields follow what the words mean: the chunks of the heap and the
 contents of every bin.
 */
module MallocHeapManager {
  import opened MallocBins
  import opened MallocHeap
  import opened MallocFit
  import opened MallocState
  import opened MallocSteps
  import opened MallocSearch
  import opened MallocFree
  import opened MallocResize

  const INITIAL_TOP := BinAt(0)
  const PAGE_SIZE := 4096

  /** Enough of the invariant to walk the bins; it also holds before the heap exists. */
  ghost predicate Browsable(m: Mem, h: Heap, bins: seq<seq<int>>) {
    && |bins| == NAV && Filed(h, bins) && Apart(bins) && Lists(m, bins) && |m| >= BinAt(NAV) + 16
    && forall i, k :: 0 <= i < NAV && 0 <= k < |bins[i]| ==> Readable(m, h, bins[i][k])
  }

  ghost predicate Readable(m: Mem, h: Heap, p: int) {
    && p in h.size && h.size[p] % 8 == 0 && h.size[p] >= MINSIZE && 0 <= p && p + 16 <= |m|
    && ChunkSize(Word(m, p + 4)) == h.size[p]
  }

  lemma GoodBrowsable(m: Mem, h: Heap, bins: seq<seq<int>>, word: bv32)
    requires Good(m, h, bins, word)
    ensures Browsable(m, h, bins) && Linked(m, h, bins)
  {
    hide Lists, Apart, h.Forward, h.Backward, h.Ordered, ChunkSize, Head;
    assert h.top in h.size;
    forall i, k | 0 <= i < NAV && 0 <= k < |bins[i]| ensures Readable(m, h, bins[i][k]) {
      var p := bins[i][k];
      ChunkInRange(h, p, |m|);
      HeadParts(h.size[p], h.AfterUsed(p));
    }
  }

  lemma BinEnds(m: Mem, h: Heap, bins: seq<seq<int>>, i: nat)
    requires Browsable(m, h, bins) && 1 <= i < NAV
    ensures Bk(m, BinAt(i)) == Follow(BinAt(i), bins[i], |bins[i]| - 1)
    ensures Fd(m, BinAt(i)) == Follow(BinAt(i), bins[i], 0)
    ensures forall k :: 0 <= k < |bins[i]| ==> bins[i][k] != BinAt(i)
  {
    assert Ring(m, BinAt(i), bins[i]);
  }

  lemma BinLinks(m: Mem, h: Heap, bins: seq<seq<int>>, i: nat, k: nat)
    requires Browsable(m, h, bins) && 1 <= i < NAV && k < |bins[i]|
    ensures Bk(m, bins[i][k]) == Follow(BinAt(i), bins[i], k - 1)
    ensures Fd(m, bins[i][k]) == Follow(BinAt(i), bins[i], k + 1)
  {
    assert Ring(m, BinAt(i), bins[i]);
    RingAt(m, BinAt(i), bins[i], k);
  }

  lemma BinChunk(m: Mem, h: Heap, bins: seq<seq<int>>, i: nat, k: nat)
    requires Browsable(m, h, bins) && 0 <= i < NAV && k < |bins[i]|
    ensures Readable(m, h, bins[i][k]) && h.Free(bins[i][k])
  {
  }

  /** The chunks of two neighbouring small bins. */
  lemma SmallBins(m: Mem, h: Heap, bins: seq<seq<int>>, i: nat)
    requires Browsable(m, h, bins) && 2 <= i <= 62
    ensures forall k :: 0 <= k < |bins[i]| ==> h.size[bins[i][k]] == 8 * i
    ensures var next := bins[i + 1]; forall k :: 0 <= k < |next| ==> h.size[next[k]] == 8 * i + 8
  {
    forall k | 0 <= k < |bins[i]| ensures h.size[bins[i][k]] == 8 * i {
      BinIndexRange(h.size[bins[i][k]]);
    }
    var next := bins[i + 1];
    forall k | 0 <= k < |next| ensures h.size[next[k]] == 8 * i + 8 {
      BinIndexRange(h.size[next[k]]);
    }
  }

  lemma FrontlinkReady(m: Mem, h: Heap, bins: seq<seq<int>>, p: int)
    requires Linked(m, h, bins) && h.Tagged(m) && h.Free(p) && Filed(h.Use(p), bins)
    ensures Browsable(m, h.Use(p), bins) && h.size[p] % 8 == 0 && h.size[p] >= MINSIZE
  {
    hide Lists, Apart, h.Forward, h.Backward, h.Ordered, ChunkSize, Head;
    assert h.top in h.size;
    forall i, k | 0 <= i < NAV && 0 <= k < |bins[i]| ensures Readable(m, h.Use(p), bins[i][k]) {
      var q := bins[i][k];
      ChunkInRange(h, q, |m|);
      HeadParts(h.size[q], h.AfterUsed(q));
    }
  }

  /** A small bin's chunks are all of the size that p has. */
  lemma SameSize(m: Mem, g: Heap, bins: seq<seq<int>>, p: int)
    requires Browsable(m, g, bins) && p in g.size && g.size[p] % 8 == 0 && MINSIZE <= g.size[p] < MAX_SMALLBIN_SIZE
    requires 0 <= BinIndex(g.size[p]) < NAV
    ensures var list := bins[BinIndex(g.size[p])]; forall k :: 0 <= k < |list| ==> g.size[list[k]] == g.size[p]
  {
    BinIndexRange(g.size[p]);
    var list := bins[BinIndex(g.size[p])];
    forall k | 0 <= k < |list| ensures g.size[list[k]] == g.size[p] {
      BinIndexRange(g.size[list[k]]);
    }
  }

  lemma BackOf(m: Mem, h: Heap, bins: seq<seq<int>>, i: nat, k: nat)
    requires Browsable(m, h, bins) && 1 <= i < NAV && k <= |bins[i]|
    ensures Bk(m, Follow(BinAt(i), bins[i], k)) == Follow(BinAt(i), bins[i], k - 1)
    ensures 0 <= Follow(BinAt(i), bins[i], k) && Follow(BinAt(i), bins[i], k) + 12 < |m|
  {
    if k < |bins[i]| {
      BinLinks(m, h, bins, i, k);
      BinChunk(m, h, bins, i, k);
    } else {
      BinEnds(m, h, bins, i);
    }
  }

  /** From the first chunk no larger than s on, none is. */
  lemma RestSmaller(m: Mem, g: Heap, bins: seq<seq<int>>, i: nat, k: nat, s: int)
    requires Browsable(m, g, bins) && 2 <= i < NAV && k <= |bins[i]|
    requires k < |bins[i]| ==> g.size[bins[i][k]] <= s
    ensures var list := bins[i]; forall j :: k <= j < |list| ==> g.size[list[j]] <= s
  {
    var list := bins[i];
    forall j | k <= j < |list| ensures g.size[list[j]] <= s {
      assert j > k ==> g.size[list[k]] >= g.size[list[j]];
    }
  }

  lemma OneRemainder(m: Mem, h: Heap, bins: seq<seq<int>>)
    requires Browsable(m, h, bins) && bins[LAST_REMAINDER] != []
    ensures bins[LAST_REMAINDER] == [bins[LAST_REMAINDER][0]]
  {
  }

  /** A block of at least nb bytes, and less than MINSIZE more, has been put in use; no other block has changed. */
  ghost predicate Served(h0: Heap, h: Heap, p: int, nb: int) {
    && p !in h0.used && h.used == h0.used + {p} && p in h.size && nb <= h.size[p] < nb + MINSIZE
    && forall q :: q in h0.used ==> q in h.size && q in h0.size && h.size[q] == h0.size[q]
  }

  lemma UseServed(m: Mem, h: Heap, bins: seq<seq<int>>, word: bv32, c: int, nb: int)
    requires Good(m, h, bins, word) && h.Free(c) && nb <= h.size[c] < nb + MINSIZE
    ensures Served(h, h.Use(c), c, nb)
  {
    UsedAreChunks(h, |m|);
  }

  lemma CutServed(h: Heap, c: int, n: int)
    requires h.Free(c) && c + n !in h.used && n >= MINSIZE
    requires forall q :: q in h.used ==> q in h.size
    ensures Served(h, h.Split(c, n).Use(c), c, n)
  {
  }

  /** The blocks in use and the filed chunks are the same; only top may differ. */
  ghost predicate OnlyTopGrew(h0: Heap, h: Heap) {
    && h.used == h0.used
    && (forall p :: p in h0.used && p in h0.size ==> p in h.size && h.size[p] == h0.size[p])
    && (forall p :: h0.Free(p) <==> h.Free(p))
    && (forall p :: h0.Free(p) ==> h.size[p] == h0.size[p])
  }

  lemma SameTop(h: Heap)
    ensures OnlyTopGrew(h, h)
  {
  }

  lemma GrewTop(h: Heap, n: int)
    requires h.top in h.size && h.top !in h.used
    ensures OnlyTopGrew(h, Grow(h, n)) && Grow(h, n).top == h.top && h.top in Grow(h, n).size
    ensures Grow(h, n).size[h.top] == h.size[h.top] + n
  {
  }

  lemma TopReadable(m: Mem, h: Heap, bins: seq<seq<int>>, word: bv32)
    requires Good(m, h, bins, word)
    ensures h.top >= BinAt(NAV) && forall q :: q in h.used ==> q in h.size
    ensures h.top in h.size && h.top !in h.used && h.size[h.top] % 8 == 0 && h.size[h.top] >= MINSIZE
    ensures 0 <= h.top && h.top + 4 < |m| && h.top + h.size[h.top] == |m|
    ensures ChunkSize(m[h.top + 4]) == h.size[h.top]
  {
    hide h.Forward, h.Backward, h.Ordered, Filed, Apart, Lists, ChunkSize, Head;
    ChunkInRange(h, h.top, |m|);
    HeadParts(h.size[h.top], h.AfterUsed(h.top));
  }

  lemma LongerFresh(m: Mem, m': Mem, bins: seq<seq<int>>)
    requires bins == seq(NAV, _ => []) && Lists(m, bins) && m <= m' && |m| >= BinAt(NAV) + 16
    ensures Lists(m', bins)
  {
    assert LinksKept(m, m', bins);
    ListsKept(m, m', bins);
  }

  /** With no block in use, any memory keeps the payloads. */
  lemma NoPayload(m: Mem, h: Heap)
    requires h.used == {}
    ensures forall m' :: PayloadKept(m, m', h)
  {
  }

  lemma EightsApart(a: int, b: int)
    ensures (8 * a - 8 * b) % 8 == 0 && 8 * b % 8 == 0
  {
    assert 8 * a - 8 * b == 8 * (a - b);
  }

  lemma WholePages(n: nat)
    ensures n / PAGE_SIZE * PAGE_SIZE >= 0 && n / PAGE_SIZE * PAGE_SIZE % 8 == 0
    ensures n - PAGE_SIZE < n / PAGE_SIZE * PAGE_SIZE <= n
  {
    assert n / PAGE_SIZE * PAGE_SIZE == 8 * (n / PAGE_SIZE * 512);
    EightsApart(n / PAGE_SIZE * 512, 0);
  }

  /** The first heap starts on an eight-byte boundary and ends on a page. */
  lemma PageEnd(start: nat, base: nat, size: nat, correction: nat)
    requires size >= 2 * MINSIZE
    requires (start + 8) % 8 == 0 ==> base == start
    requires (start + 8) % 8 > 0 ==> base == start + 8 - (start + 8) % 8
    requires correction == (base - start) + PAGE_SIZE - (base + size) % PAGE_SIZE
    ensures base % 8 == 0 && start + size + correction >= base + MINSIZE
    ensures (start + size + correction - base) % 8 == 0
  {
    var eights := (start + 8) / 8;
    assert start + 8 == 8 * eights + (start + 8) % 8;
    var words := if (start + 8) % 8 > 0 then eights else eights - 1;
    assert base == 8 * words;
    var pages := (base + size) / PAGE_SIZE;
    assert base + size == PAGE_SIZE * pages + (base + size) % PAGE_SIZE;
    assert start + size + correction == PAGE_SIZE * (pages + 1) == 8 * (512 * (pages + 1));
    EightsApart(512 * (pages + 1), words);
  }

  /** Where a block was served from. */
  datatype Source = BinTaken | RemainderTaken | TopCut | NoMemory

  /** Top can give nb bytes and still be there afterwards. */
  ghost predicate TopFits(h: Heap, nb: int) { h.top in h.size && h.size[h.top] >= nb + MINSIZE }

  /** Why the block was served from there. */
  ghost predicate Chosen(h: Heap, bins: seq<seq<int>>, nb: int, c: int, source: Source)
    requires |bins| == NAV
  {
    match source
    case BinTaken => BestFit(h, bins, nb, c)
    case RemainderTaken => bins[LAST_REMAINDER] == [c] && Filed(h, bins) && nb >= 0 && NoExact(h, bins, nb)
    case TopCut => NothingFits(h, nb) && (h.size != map[] ==> c == h.top)
    case NoMemory => NothingFits(h, nb) && (h.size != map[] ==> !TopFits(h, nb))
  }

  lemma FoundChunk(m: Mem, h: Heap, bins: seq<seq<int>>, nb: int, c: int, i: nat, k: nat)
    requires Browsable(m, h, bins) && FoundAt(h, bins, nb, c, i, k)
    ensures BestFit(h, bins, nb, c) && c > 0 && c in h.size && nb <= h.size[c] < nb + MINSIZE
  {
    hide Lists, Readable, BestFit;
    SmallestIsBest(h, bins, nb, i, k);
  }

  lemma FitChunk(m: Mem, h: Heap, bins: seq<seq<int>>, nb: int, c: int, i: nat, k: nat)
    requires Browsable(m, h, bins) && 2 <= i < NAV && k < |bins[i]| && bins[i][k] == c && SmallestFit(h, bins, nb, c)
    ensures BestFit(h, bins, nb, c) && c > 0 && c in h.size && nb <= h.size[c]
  {
    hide Lists, Readable, BestFit;
    SmallestIsBest(h, bins, nb, i, k);
  }

  lemma ExactKnown(h: Heap, bins: seq<seq<int>>, nb: nat, idx: int)
    requires Filed(h, bins) && GoOnFrom(h, bins, nb, idx)
    ensures NoExact(h, bins, nb) && 4 <= idx < NAV
  {
    hide Filed, NoExact;
  }

  lemma BrowsableFiled(m: Mem, h: Heap, bins: seq<seq<int>>)
    requires Browsable(m, h, bins)
    ensures Filed(h, bins) && |bins| == NAV
  {
  }

  lemma RemainderPositive(m: Mem, h: Heap, bins: seq<seq<int>>, c: int)
    requires Browsable(m, h, bins) && bins[LAST_REMAINDER] == [c]
    ensures c > 0
  {
    hide Lists, Readable;
    assert Node(bins[LAST_REMAINDER][0]);
  }

  /** The best fit once a last remainder that is too small has been filed is the best fit before. */
  lemma BestStays(h: Heap, bins0: seq<seq<int>>, bins: seq<seq<int>>, nb: int, c: int)
    requires |bins0| == |bins| == NAV && bins[LAST_REMAINDER] == [] && BestFit(h, bins, nb, c)
    requires forall p :: p in bins0[LAST_REMAINDER] ==> p in h.size && h.size[p] < nb
    ensures BestFit(h, bins0, nb, c)
  {
  }

  lemma CutTopServed(h0: Heap, h: Heap, nb: int)
    requires h.top in h.size && h.top !in h.used && h.top + nb !in h.used && nb >= MINSIZE
    requires forall q :: q in h.used ==> q in h.size
    requires OnlyTopGrew(h0, h) && (forall q :: q in h0.used ==> q in h0.size)
    ensures Served(h0, h.Split(h.top, nb).Use(h.top), h.top, nb)
  {
  }

  lemma PayloadOverGrown(m0: Mem, m1: Mem, m: Mem, h0: Heap, h1: Heap)
    requires OnlyTopGrew(h0, h1) && PayloadKept(m0, m1, h0) && PayloadKept(m1, m, h1)
    ensures PayloadKept(m0, m, h0)
  {
  }

  /** The chunk q takes the place of next as the last remainder. */
  lemma TakeOver(m: Mem, g: Heap, a: Heap, bins: seq<seq<int>>, word: bv32, next: int, q: int)
    requires Linked(m, g, bins) && Filed(a, bins) && bins[LAST_REMAINDER] == [next] && !Listed(bins, q)
    requires Marked(bins, word)
    requires q != next
    ensures var rest := bins[LAST_REMAINDER := []];
            var more := bins[LAST_REMAINDER := [q]];
            && Filed(a.Use(next), rest) && more[LAST_REMAINDER := []] == rest && !Listed(rest, q)
            && !Listed(more, next) && Marked(more, word)
            && forall x :: x != q && !Listed(bins, x) ==> !Listed(more, x)
  {
    hide Filed, Lists, g.Tiled, Marked;
    UnfileRemainder(a, bins, next);
    MarkedRemainder(bins, word, [q]);
    var more := bins[LAST_REMAINDER := [q]];
    forall x | x != q && (!Listed(bins, x) || x == next) ensures !Listed(more, x) {
      forall i | 0 <= i < NAV ensures x !in more[i] {
        assert x !in bins[LAST_REMAINDER := []][i];
      }
    }
  }

  lemma StayUnlisted(bins: seq<seq<int>>, i: nat, k: nat, q: int, kept: bool)
    requires |bins| == NAV && i < NAV && k < |bins[i]| && bins[i][k] != q
    requires kept ==> bins[LAST_REMAINDER] == [q]
    ensures var rest := bins[i := Without(bins[i], k)];
            && (kept ==> rest[LAST_REMAINDER] == [q])
            && forall x :: !Listed(bins, x) ==> !Listed(rest, x)
  {
    forall x | !Listed(bins, x) ensures !Listed(bins[i := Without(bins[i], k)], x) {
      UnlinkedStill(bins, i, k, x);
    }
  }

  /** The block at p has been given back; no other block has changed. */
  ghost predicate Returned(h0: Heap, h: Heap, p: int) {
    && p in h0.used && h.used == h0.used - {p}
    && forall q :: q in h0.used && q != p ==> q in h.size && q in h0.size && h.size[q] == h0.size[q]
  }

  lemma TagsWeaken(m: Mem, m': Mem, g: Heap, p: int)
    requires TagsExcept(m, m', g, {}, {})
    ensures TagsExcept(m, m', g, {p}, {})
  {
  }

  lemma FiledWithTop(h: Heap, hf: Heap, a: Heap, end: int, bins: seq<seq<int>>, p: int, q: int, back: bool)
    requires Joins(h, end, p, back, true) && q in hf.size && Outcome(h, hf, p, q, q + hf.size[q], back, true)
    requires h.Next(p) == h.top && Filed(a, bins) && Apart(bins)
    requires a == if back then h.Use(q) else h
    ensures Filed(hf, bins)
  {
    forall x ensures hf.Free(x) <==> a.Free(x) {
      FreeAfter(h, hf, end, p, q, back, true, x);
    }
    forall x | hf.Free(x) ensures hf.size[x] >= 0 && hf.size[x] == a.size[x] {
      FreeAfter(h, hf, end, p, q, back, true, x);
      ChunkInRange(h, x, end);
    }
    hide Joins, Outcome;
    FiledAlike(a, hf, bins);
  }

  lemma BlocksReturned(h: Heap, hf: Heap, end: int, p: int, q: int, back: bool, forward: bool)
    requires Joins(h, end, p, back, forward) && q in hf.size && Outcome(h, hf, p, q, q + hf.size[q], back, forward)
    ensures Returned(h, hf, p)
  {
    hide Joins, Outcome;
    JoinsUsed(h, end, p, back, forward);
    OutcomeUsed(h, hf, p, q, back, forward);
    forall x | x in h.used && x != p ensures x in hf.size && x in h.size && hf.size[x] == h.size[x] {
      StillInUse(h, hf, end, p, q, back, forward, x);
    }
  }

  lemma AbsorbStart(m: Mem, h: Heap, bins: seq<seq<int>>, word: bv32, p: int, back: bool, forward: bool)
    requires Good(m, h, bins, word) && Readings(m, h, p, back, forward)
    ensures Linked(m, Released(h, p), bins) && !Listed(bins, p) && Filed(h, bins) && Marked(bins, word)
    ensures Head(h.size[h.Next(p)], false) == h.size[h.Next(p)]
    ensures back ==> h.Free(h.before[p])
  {
    hide h.Tiled, Lists, Apart, h.Coalesced, Filed, Marked;
    GoodLinked(m, h, bins, word);
    ReleasedLinked(m, h, bins, p);
  }

  lemma FootStays(m0: Mem, m1: Mem, h: Heap, p: int, back: bool, forward: bool)
    requires Readings(m0, h, p, back, forward) && |m1| == |m0|
    requires TagsExcept(m0, m1, Released(h, p), {h.Next(p)}, {})
    ensures back ==> Word(m1, p) == h.size[h.before[p]]
  {
    hide h.Tiled, h.Coalesced;
  }

  lemma BitStays(m0: Mem, m1: Mem, m2: Mem, h: Heap, p: int, back: bool, forward: bool)
    requires Readings(m0, h, p, back, forward) && |m1| == |m0| == |m2| && h.Next(p) != h.top
    requires TagsExcept(m0, m1, Released(h, p), {h.Next(p)}, {}) && TagsKept(m1, m2, Released(h, p))
    ensures var n := h.Next(p) + h.size[h.Next(p)];
            0 <= n + 4 < |m2| && PrevInUse(m2[n + 4]) == !forward
  {
    var next := h.Next(p);
    NextChunk(h, |m0|, next);
    ChunkInRange(h, next, |m0|);
    hide h.Tiled, h.Coalesced, PrevInUse;
  }

  lemma Distinct(h: Heap, end: int, p: int, back: bool, forward: bool)
    requires Joins(h, end, p, back, forward)
    ensures h.Next(p) != p && (back ==> h.Next(p) != h.before[p])
    ensures forward && h.Next(p) != h.top ==> h.Free(h.Next(p))
    ensures Start(h, p, back) in h.size && Start(h, p, back) !in Released(h, p).used
    ensures back ==> p != Start(h, p, back)
  {
    ChunkInRange(h, p, end);
    hide h.Tiled, h.Coalesced;
  }

  lemma AbsorbTags(m0: Mem, m1: Mem, m2: Mem, m3: Mem, r: Heap, next: int)
    requires TagsExcept(m0, m1, r, {next}, {}) && TagsKept(m1, m2, r) && TagsKept(m2, m3, r) && next in r.size
    requires PayloadKept(m0, m1, r) && PayloadKept(m1, m2, r) && PayloadKept(m2, m3, r)
    ensures TagsExcept(m0, m3, r, {next}, {}) && Word(m3, next + 4) == Word(m1, next + 4) && PayloadKept(m0, m3, r)
  {
    hide Word;
    PayloadChain(m0, m1, m2, r);
    PayloadChain(m0, m2, m3, r);
    hide PayloadKept;
  }

  lemma OutcomeSize(h: Heap, end: int, hf: Heap, p: int, q: int, back: bool, forward: bool)
    requires Joins(h, end, p, back, forward) && q in hf.size && Outcome(h, hf, p, q, q + hf.size[q], back, forward)
    ensures q == Start(h, p, back)
    ensures hf.size[q] ==
      h.size[p] + (if back then h.size[h.before[p]] else 0) + (if forward then h.size[h.Next(p)] else 0)
  {
    hide h.Tiled, h.Coalesced;
  }

  /** How the bins file what is left: with the joined chunk as last remainder, or not yet filed. */
  lemma FiledAfter(h: Heap, hf: Heap, end: int, b: Heap, bins: seq<seq<int>>, p: int, q: int, back: bool, forward: bool,
                   was: bool, isRemainder: bool)
    requires Joins(h, end, p, back, forward) && q in hf.size && Outcome(h, hf, p, q, q + hf.size[q], back, forward)
    requires h.Next(p) != h.top && Apart(bins) && hf.Tiled(end) && (was ==> back && isRemainder)
    requires b == var a := if back && !was then h.Use(q) else h; if forward then a.Use(h.Next(p)) else a
    requires isRemainder ==> bins[LAST_REMAINDER] == [q]
    requires if isRemainder && !was then Filed(b, bins[LAST_REMAINDER := []]) else Filed(b, bins)
    ensures if isRemainder then Filed(hf, bins) else Filed(hf.Use(q), bins)
  {
    hide Joins, Outcome, Filed, Apart, hf.Tiled;
    FreeFacts(h, hf, end, b, p, q, back, forward, was);
    FreeSizes(hf, end);
    RemainderApart(bins);
    if was {
      FiledAlike(b, hf, bins);
    } else if isRemainder {
      assert bins[LAST_REMAINDER := []][LAST_REMAINDER := [q]] == bins;
      FiledAlike(b, hf.Use(q), bins[LAST_REMAINDER := []]);
      FiledRemainder(hf, bins[LAST_REMAINDER := []], q);
    } else {
      FiledAlike(b, hf.Use(q), bins);
    }
  }

  lemma FreeFacts(h: Heap, hf: Heap, end: int, b: Heap, p: int, q: int, back: bool, forward: bool, was: bool)
    requires Joins(h, end, p, back, forward) && q in hf.size && Outcome(h, hf, p, q, q + hf.size[q], back, forward)
    requires h.Next(p) != h.top && (was ==> back)
    requires b == var a := if back && !was then h.Use(q) else h; if forward then a.Use(h.Next(p)) else a
    ensures hf.Free(q) && (b.Free(q) <==> was)
    ensures forall x :: x != q ==>
      (hf.Free(x) <==> b.Free(x)) && (hf.Free(x) ==> x in b.size && hf.size[x] == b.size[x])
  {
    JoinsUsed(h, end, p, back, forward);
    hide Joins, Outcome;
    forall x
      ensures x != q ==> (hf.Free(x) <==> b.Free(x)) && (hf.Free(x) ==> x in b.size && hf.size[x] == b.size[x])
      ensures hf.Free(q) && (b.Free(q) <==> was)
    {
      FreeAfter(h, hf, end, p, q, back, forward, x);
      Distinct(h, end, p, back, forward);
      OutcomeSize(h, end, hf, p, q, back, forward);
    }
  }

  lemma FreeSizes(h: Heap, end: int)
    requires h.Tiled(end)
    ensures forall x :: h.Free(x) ==> h.size[x] >= 0
  {
  }

  lemma LinkedApart(m: Mem, g: Heap, bins: seq<seq<int>>)
    requires Linked(m, g, bins)
    ensures Apart(bins)
  {
  }

  lemma RemainderApart(bins: seq<seq<int>>)
    requires Apart(bins)
    ensures |bins| == NAV
    ensures forall i, k :: 2 <= i < NAV && 0 <= k < |bins[i]| ==> bins[i][k] !in bins[LAST_REMAINDER]
  {
  }

  lemma TagsLater(m0: Mem, m5: Mem, m: Mem, h: Heap, hf: Heap, p: int, q: int, forward: bool)
    requires p in h.size && q in hf.size && FreedTags(m0, m5, h, hf, p, q, forward) && TagsKept(m5, m, hf)
    ensures FreedTags(m0, m, h, hf, p, q, forward)
  {
    hide Word, Head;
  }

  lemma FreeStart(m: Mem, h: Heap, bins: seq<seq<int>>, word: bv32, p: int)
    requires Good(m, h, bins, word) && p in h.used
    ensures p in h.size && 0 <= p && p + 4 < |m| && ClearPrevInUse(m[p + 4]) == h.size[p]
    ensures var next := p + h.size[p];
            next in h.size && 0 <= next + 4 < |m| && ChunkSize(m[next + 4]) == h.size[next]
  {
    hide Filed, Lists, Apart, h.Tiled, h.Tagged, h.Coalesced, Head;
    UsedAreChunks(h, |m|);
    ReadBlock(m, h, p);
    hide ClearPrevInUse, ChunkSize;
  }

  lemma GoodStarted(m: Mem, h: Heap, bins: seq<seq<int>>, word: bv32)
    requires Good(m, h, bins, word)
    ensures h.top != INITIAL_TOP
  {
    TopReadable(m, h, bins, word);
  }

  lemma SettleReads(m: Mem, h: Heap, bins: seq<seq<int>>, word: bv32, p: int)
    requires Resizing(m, h, bins, word, p)
    ensures var n := h.Next(p);
            && n in h.size && 0 <= n && n + 4 < |m| && SetPrevInUse(m[n + 4]) == Head(h.size[n], true) && n != p
            && 0 <= p && p + 4 < |m| && h.size[p] % 8 == 0 && h.size[p] >= MINSIZE
            && GoodBut(m, h, bins, word, {p, n}) && BitRight(m, h, p) && SizeRight(m, h, n)
    ensures forall x :: x in h.used ==> x in h.size
  {
    hide h.Coalesced, Lists, Apart, Marked, Filed, h.TaggedBut, Head, SetPrevInUse;
    SetBit(m, h, h.Next(p));
    ChunkInRange(h, p, |m|);
    UsedAreChunks(h, |m|);
    hide h.Forward, h.Backward, h.Ordered;
  }

  lemma CutGivenBack(m0: Mem, m1: Mem, m: Mem, h0: Heap, h1: Heap, h: Heap, p: int, n: int)
    requires p in h0.size && p in h0.used && p + n !in h0.used && n > 0 && h1 == h0.Split(p, n).Use(p + n)
    requires forall x :: x in h0.used ==> x in h0.size
    requires PayloadKept(m0, m1, h0.Split(p, n)) && Returned(h1, h, p + n) && PayloadKept(m1, m, Released(h1, p + n))
    ensures h.used == h0.used && p in h.size && h.size[p] == n && PayloadKept(m0, m, h)
    ensures forall x :: x in h.used && x != p ==> x in h.size && x in h0.size && h.size[x] == h0.size[x]
  {
    hide Word;
  }

  lemma EightLess(d: int)
    requires d % 4 == 0
    ensures (d - 8) % 4 == 0
  {
    assert d == 4 * (d / 4) && d - 8 == 4 * (d / 4 - 2);
  }

  lemma FourLess(n: int)
    requires n % 8 == 0
    ensures (n - SIZE_SZ) % 4 == 0
  {
    assert n == 8 * (n / 8) && n - 4 == 4 * (2 * (n / 8) - 1);
  }

  lemma CopiedInside(m0: Mem, m: Mem, h: Heap, q: int, n: int)
    requires q in h.size && n <= h.size[q] && |m| == |m0|
    requires forall a :: a < q + 8 || a > q + 8 + (n - SIZE_SZ) - 4 ==> Word(m, a) == Word(m0, a)
    ensures Inside(m0, m, h, q)
  {
  }

  lemma PayloadWords(m0: Mem, p: int, m: Mem, q: int, n: int)
    requires forall d :: 0 <= d < n - SIZE_SZ && d % 4 == 0 ==> WordIn(m, q + 8, d) == WordIn(m0, p + 8, d)
    requires n % 8 == 0
    ensures SameWords(m0, p, m, q, n)
  {
    forall d | 8 <= d <= n && d % 4 == 0 ensures WordIn(m, q, d) == WordIn(m0, p, d) {
      var e := d - 8;
      EightLess(d);
      assert WordIn(m, q + 8, e) == WordIn(m0, p + 8, e);
    }
  }

  lemma ShiftRange(m: Mem, h: Heap, bins: seq<seq<int>>, word: bv32, q: int)
    requires Resizing(m, h, bins, word, q)
    ensures 0 <= q && q + h.size[q] + 4 <= |m|
    ensures q in h.size
  {
    hide h.Coalesced, Lists, Apart, Marked, Filed, h.TaggedBut;
    ChunkInRange(h, q, |m|);
  }

  lemma BorrowReads(m: Mem, h: Heap, bins: seq<seq<int>>, word: bv32, p: int, n: int)
    requires Resizing(m, h, bins, word, p) && h.Next(p) == h.top && h.top in h.size && n % 8 == 0
    requires MINSIZE <= n <= h.size[p] + h.size[h.top] - MINSIZE
    ensures GoodBut(m, h, bins, word, {p, h.top}) && BitRight(m, h, p) && h.top in h.size
    ensures 0 <= p && p + 4 < |m| && BorrowedFrom(h, Borrowed(h, p, n), p, n) && p + n > INITIAL_TOP
    ensures forall x :: x in h.used ==> x in h.size
  {
    hide h.Coalesced, Lists, Apart, Marked, Filed;
    UsedAreChunks(h, |m|);
    ChunkInRange(h, p, |m|);
    TopFree(h);
    BorrowParts(h, |m|, p, n);
    hide h.Forward, h.Backward, h.Ordered;
  }

  /** The block at p has been made wider at its end; the other blocks are the same. */
  ghost predicate Widened(h: Heap, g: Heap, p: int) {
    && p in h.size && p in g.size && p in h.used && g.used == h.used && g.size[p] >= h.size[p]
    && (forall x :: x in h.used && x != p ==> x in h.size && x in g.size && g.size[x] == h.size[x])
  }

  /** A block too small for nb bytes, in a heap in order. */
  ghost predicate Growable(m: Mem, h: Heap, bins: seq<seq<int>>, word: bv32, top: int, p: int, size: int, nb: int) {
    && Good(m, h, bins, word) && h.top == top && p in h.used && p in h.size && size == h.size[p] < nb
    && nb % 8 == 0 && nb >= MINSIZE && top in h.size && top != INITIAL_TOP && p > 0 && size % 8 == 0 && size >= MINSIZE
  }

  /**
   The block at p is now at q with at least nb bytes, and less than MINSIZE more: what it held, as far as it fits, has
   come with it, and no other block has changed.
   */
  ghost predicate Moved(m0: Mem, h0: Heap, m: Mem, h: Heap, p: int, q: int, nb: int) {
    && p in h0.used && p in h0.size && q in h.size && q in h.used && (q == p || q !in h0.used)
    && nb <= h.size[q] < nb + MINSIZE
    && h.used == h0.used - {p} + {q}
    && (forall x :: x in h0.used && x != p ==> x in h0.size && x in h.size && h.size[x] == h0.size[x])
    && PayloadKept(m0, m, Released(h0, p))
    && SameWords(m0, p, m, q, if h0.size[p] < h.size[q] then h0.size[p] else h.size[q])
  }

  lemma GoodParts(m: Mem, h: Heap, bins: seq<seq<int>>, word: bv32)
    requires Good(m, h, bins, word)
    ensures Linked(m, h, bins) && Filed(h, bins) && |bins| == NAV && Marked(bins, word)
  {
    hide h.Tiled, h.Tagged, h.Coalesced, Filed, Marked;
    GoodLinked(m, h, bins, word);
  }

  lemma ResizingParts(m: Mem, h: Heap, bins: seq<seq<int>>, word: bv32, p: int)
    requires Resizing(m, h, bins, word, p)
    ensures Linked(m, h, bins) && Filed(h, bins) && |bins| == NAV && Marked(bins, word)
  {
    hide h.Tiled, h.TaggedBut, h.Coalesced, Filed, Marked;
    ButLinked(m, h, bins, word, {p, h.Next(p)});
  }

  lemma OthersStayFree(h: Heap, g: Heap, end: int, p: int)
    requires h.Tiled(end) && p in h.used && p in h.size && h.Next(p) in h.size && g == h.Use(h.Next(p)).Merge(p)
    requires h.Next(p) != h.top
    ensures forall x :: h.Free(x) && x != h.Next(p) ==> g.Free(x) && g.size[x] == h.size[x]
    ensures h.size[h.Next(p)] >= 0 && p in g.size
  {
    ChunkInRange(h, p, end);
    ChunkInRange(h, h.Next(p), end);
    hide h.Tiled;
  }

  lemma FreeBefore(m: Mem, h: Heap, bins: seq<seq<int>>, word: bv32, p: int, q: int)
    requires Good(m, h, bins, word) && p in h.used && p in h.size && h.Free(q) && h.Next(q) == p
    ensures q + MINSIZE <= p && h.size[q] >= MINSIZE && h.Next(p) != q && h.size[p] >= MINSIZE
  {
    ChunkInRange(h, q, |m|);
    ChunkInRange(h, p, |m|);
    hide h.Tiled, Lists, Apart, Filed;
  }

  /** A block that grew at its end and was then cut to size has kept its contents. */
  lemma GrownMoved(m0: Mem, m1: Mem, m: Mem, h0: Heap, h1: Heap, h: Heap, p: int, nb: int)
    requires Widened(h0, h1, p) && PayloadKept(m0, m1, h0) && PayloadKept(m1, m, h)
    requires h.used == h1.used && p in h.size && nb <= h.size[p] < nb + MINSIZE
    requires forall x :: x in h.used && x != p ==> x in h.size && x in h1.size && h.size[x] == h1.size[x]
    ensures Moved(m0, h0, m, h, p, p, nb)
  {
    hide Word;
  }

  /** A block that grew at its end or not, was shifted back and then cut to size, has kept its contents. */
  lemma ShiftedMoved(m0: Mem, m1: Mem, m2: Mem, m3: Mem, m: Mem, h0: Heap, h1: Heap, h2: Heap, h: Heap, p: int, q: int,
                     nb: int)
    requires Widened(h0, h1, p) && PayloadKept(m0, m1, h0)
    requires Shifted(h1, h2, p, q) && PayloadKept(m1, m2, h1)
    requires PayloadKept(m2, m3, Released(h2, q)) && SameWords(m2, p, m3, q, h0.size[p])
    requires h.used == h2.used && q in h.size && nb <= h.size[q] < nb + MINSIZE && PayloadKept(m3, m, h)
    requires forall x :: x in h.used && x != q ==> x in h.size && x in h2.size && h.size[x] == h2.size[x]
    ensures Moved(m0, h0, m, h, p, q, nb)
  {
    hide Word;
    ShiftedWords(m0, m1, m2, m3, m, h0, h1, h, p, q);
    hide SameWords;
    forall x, a | x in Released(h0, p).used && x in h0.size && x + 8 <= a <= x + h0.size[x]
      ensures Word(m, a) == Word(m0, a)
    {
      assert x in h1.size && x in h2.size && x in h.size && x != q && x != p;
    }
  }

  lemma ShiftedWords(m0: Mem, m1: Mem, m2: Mem, m3: Mem, m: Mem, h0: Heap, h1: Heap, h: Heap, p: int, q: int)
    requires Widened(h0, h1, p) && PayloadKept(m0, m1, h0) && PayloadKept(m1, m2, h1)
    requires SameWords(m2, p, m3, q, h0.size[p]) && q in h.used && q in h.size && PayloadKept(m3, m, h)
    ensures SameWords(m0, p, m, q, if h0.size[p] < h.size[q] then h0.size[p] else h.size[q])
  {
    hide Word;
    forall d | 8 <= d <= (if h0.size[p] < h.size[q] then h0.size[p] else h.size[q]) && d % 4 == 0
      ensures WordIn(m, q, d) == WordIn(m0, p, d)
    {
      assert WordIn(m3, q, d) == WordIn(m2, p, d);
      assert Word(m, q + d) == Word(m3, q + d);
      assert Word(m2, p + d) == Word(m1, p + d);
      assert Word(m1, p + d) == Word(m0, p + d);
    }
  }

  lemma SameWidened(h: Heap, p: int)
    requires p in h.used && p in h.size && forall x :: x in h.used ==> x in h.size
    ensures Widened(h, h, p)
  {
  }

  /** How many bytes the chunk before p could give to the block at p. */
  ghost function Behind(h: Heap, p: int): int {
    if !h.AfterUsed(p) && h.Prev(p) in h.size then h.size[h.Prev(p)] else 0
  }

  /** How many bytes the chunk after the block at p could give to it. */
  ghost function Ahead(h: Heap, p: int): int
    requires p in h.size
  {
    if h.Free(h.Next(p)) then h.size[h.Next(p)] else 0
  }

  /** The block at p with so many bytes from behind holds nb bytes, once it has taken all or what it needs of top. */
  ghost predicate Room(h: Heap, p: int, behind: int, nb: int)
    requires p in h.size
  {
    || behind + h.size[p] + Ahead(h, p) >= nb
    || (h.Next(p) == h.top && h.top in h.size && behind + h.size[p] + h.size[h.top] >= nb + MINSIZE)
  }

  /** What memory tells about the neighbours of a block. */
  lemma GrowReads(m: Mem, h: Heap, bins: seq<seq<int>>, word: bv32, top: int, p: int, size: int, nb: int)
    requires Growable(m, h, bins, word, top, p, size, nb)
    ensures 0 < p && p + 4 < |m| && 0 <= p + size && p + size + 4 < |m| && p + size in h.size && p != top
    ensures var next := p + size;
            var nextSize := ChunkSize(m[next + 4]);
            && nextSize == h.size[next]
            && (next != top ==> next + nextSize + 4 < |m| && next + nextSize >= 0)
            && (next != top ==> (PrevInUse(m[next + nextSize + 4]) <==> !h.Free(next)))
    ensures !PrevInUse(m[p + 4]) ==> var q := p - m[p]; h.Free(q) && h.Next(q) == p && m[p] == h.size[q] && q > 0
    ensures Behind(h, p) == (if PrevInUse(m[p + 4]) then 0 else m[p]) && Behind(h, p) >= 0 && Ahead(h, p) >= 0
  {
    hide Lists, Apart, Filed, Marked, Head, ChunkSize, PrevInUse, ClearPrevInUse, h.Tiled, h.Tagged, h.Coalesced;
    ReadBlock(m, h, p);
    ChunkPositive(h, p, |m|);
    if !h.AfterUsed(p) {
      ChunkPositive(h, h.before[p], |m|);
    }
    ChunkPositive(h, p + size, |m|);
  }

  lemma ChunkPositive(h: Heap, p: int, end: int)
    requires h.Tiled(end) && p in h.size
    ensures p > 0 && h.size[p] >= MINSIZE
  {
    hide h.Forward, h.Backward, h.Ordered;
  }

  /** The block just served from new memory starts where the block at p ends: the two become one. */
  lemma JoinServed(m: Mem, h: Heap, bins: seq<seq<int>>, word: bv32, p: int, q: int)
    requires Good(m, h, bins, word) && p in h.used && q in h.used && p in h.size && q in h.size && q == h.Next(p)
    ensures Resizing(m, h.Merge(p), bins, word, p) && 0 <= q && q + 4 < |m| && ChunkSize(m[q + 4]) == h.size[q]
    ensures h.Merge(p).size[p] == h.size[p] + h.size[q] && h.Merge(p).used == h.used - {q} && h.Merge(p).top == h.top
    ensures forall x :: x in h.used && x != p && x != q ==>
      x in h.size && x in h.Merge(p).size && h.Merge(p).size[x] == h.size[x]
  {
    hide h.Tiled, h.Coalesced, Lists, Apart, Marked, Filed, h.TaggedBut, BitRight, SizeRight, h.Merge, h.Tagged, Head;
    hide ChunkSize;
    UsedAreChunks(h, |m|);
    TopFree(h);
    ChunkPositive(h, p, |m|);
    ReadChunk(m, h, q);
    GoodIsBut(m, h, bins, word);
    MergeBut(m, h, bins, word, {}, p);
    MergeSame(h, p);
    var g := h.Merge(p);
    NextAfterMerge(h, |m|, p);
    assert g.Next(p) == h.Next(q);
    ButMore(m, g, bins, word, {} + {p} - {q}, {p, g.Next(p)});
    TaggedIsBut(m, h);
    HeadRead(m, h, |m|, {}, p);
    HeadRead(m, h, |m|, {}, h.Next(q));
    SameSizeRight(m, h, g, h.Next(q));
    SameBefore(m, h, g, |m|, p);
  }

  lemma SameBefore(m: Mem, h: Heap, g: Heap, end: int, p: int)
    requires h.Tiled(end) && p in h.size && p != h.top && h.Next(p) in h.size && g == h.Merge(p) && BitRight(m, h, p)
    requires h.Next(p) in h.used && h.Next(p) != h.top
    ensures BitRight(m, g, p)
  {
    BeforeIsNot(h, end, p);
    hide h.Tiled, PrevInUse;
  }

  lemma JoinedWidened(h0: Heap, h1: Heap, g: Heap, p: int, q: int, nb: int)
    requires Served(h0, h1, q, nb) && p in h0.used && p in h0.size && p in g.size && nb >= 0
    requires g.used == h1.used - {q} && p in h1.size && g.size[p] == h1.size[p] + h1.size[q]
    requires forall x :: x in h1.used && x != p && x != q ==> x in h1.size && x in g.size && g.size[x] == h1.size[x]
    ensures Widened(h0, g, p)
  {
  }

  /** What is copied into a block stays inside it. */
  lemma FillServed(m: Mem, m': Mem, h: Heap, bins: seq<seq<int>>, word: bv32, p: int, q: int, n: int)
    requires Good(m, h, bins, word) && q in h.used && q in h.size && n <= h.size[q] && |m'| == |m| && n % 8 == 0
    requires forall a :: a < q + 8 || a > q + 8 + (n - SIZE_SZ) - 4 ==> Word(m', a) == Word(m, a)
    requires forall d :: 0 <= d < n - SIZE_SZ && d % 4 == 0 ==> WordIn(m', q + 8, d) == WordIn(m, p + 8, d)
    ensures Good(m', h, bins, word) && PayloadKept(m, m', Released(h, q)) && SameWords(m, p, m', q, n)
  {
    hide h.Tiled, h.Coalesced, Lists, Apart, Marked, Filed, h.TaggedBut, Word, WordIn, SameWords, h.Tagged, GoodBut;
    hide Good, PayloadKept;
    CopiedInside(m, m', h, q, n);
    GoodIsBut(m, h, bins, word);
    InsideKept(m, m', h, bins, word, {}, q);
    GoodIsBut(m', h, bins, word);
    PayloadWords(m, p, m', q, n);
  }

  /** Two blocks in use do not overlap. */
  lemma BlocksApart(m: Mem, h: Heap, bins: seq<seq<int>>, word: bv32, p: int, q: int)
    requires Good(m, h, bins, word) && p in h.used && q in h.used && p != q && p in h.size && q in h.size
    ensures q + h.size[q] <= p || p + h.size[p] <= q
    ensures p >= 0 && q >= 0 && p + h.size[p] + 4 <= |m| && q + h.size[q] + 4 <= |m|
  {
    hide h.Coalesced, Lists, Apart, Marked, Filed, h.Tagged, h.Forward, h.Backward;
    TopFree(h);
    ChunkInRange(h, p, |m|);
    ChunkInRange(h, q, |m|);
    BelowTop(h, p, |m|);
    BelowTop(h, q, |m|);
    ChunkInRange(h, h.top, |m|);
  }

  /** A new block served, filled from the old one, and the old one given back. */
  lemma CopiedMoved(m0: Mem, m1: Mem, m2: Mem, m: Mem, h0: Heap, h1: Heap, h: Heap, p: int, q: int, nb: int)
    requires p in h0.used && p in h0.size && h0.size[p] < nb
    requires Served(h0, h1, q, nb) && PayloadKept(m0, m1, h0)
    requires PayloadKept(m1, m2, Released(h1, q)) && SameWords(m1, p, m2, q, h0.size[p])
    requires Returned(h1, h, p) && PayloadKept(m2, m, Released(h1, p))
    ensures Moved(m0, h0, m, h, p, q, nb)
  {
    hide Word;
    CopiedWords(m0, m1, m2, m, h0, h1, p, q);
    hide SameWords;
    forall x, a | x in Released(h0, p).used && x in h0.size && x + 8 <= a <= x + h0.size[x]
      ensures Word(m, a) == Word(m0, a)
    {
      assert x in h1.size && x in h.size && x != q && x != p;
    }
  }

  lemma CopiedWords(m0: Mem, m1: Mem, m2: Mem, m: Mem, h0: Heap, h1: Heap, p: int, q: int)
    requires p in h0.used && p in h0.size && p != q && PayloadKept(m0, m1, h0) && SameWords(m1, p, m2, q, h0.size[p])
    requires q in h1.used && q in h1.size && h0.size[p] <= h1.size[q] && PayloadKept(m2, m, Released(h1, p))
    ensures SameWords(m0, p, m, q, h0.size[p])
  {
    hide Word;
    forall d | 8 <= d <= h0.size[p] && d % 4 == 0 ensures WordIn(m, q, d) == WordIn(m0, p, d) {
      assert WordIn(m2, q, d) == WordIn(m1, p, d);
      assert Word(m, q + d) == Word(m2, q + d);
      assert Word(m1, p + d) == Word(m0, p + d);
    }
  }

  lemma ResizeReads(m: Mem, h: Heap, bins: seq<seq<int>>, word: bv32, p: int)
    requires Good(m, h, bins, word) && p in h.used
    ensures p in h.size && 0 < p && p + 4 < |m| && ChunkSize(m[p + 4]) == h.size[p] && h.size[p] % 8 == 0
    ensures h.size[p] >= MINSIZE
    ensures h.top in h.size
  {
    hide Lists, Apart, Filed, Marked, Head, ChunkSize, PrevInUse, ClearPrevInUse, h.Tagged, h.Coalesced, h.Forward;
    hide h.Backward, h.Ordered;
    UsedAreChunks(h, |m|);
    ReadChunk(m, h, p);
    ChunkPositive(h, p, |m|);
  }

  /** What the static table of bin heads holds: every head linked to itself. */
  function InitialWord(a: int): int {
    if a < BinAt(1) then 0 else AV + (a - AV - 8) / 8 * 8
  }

  lemma EmptyBins(m: Mem, bins: seq<seq<int>>)
    requires bins == seq(NAV, _ => []) && |m| >= BinAt(NAV) + 16
    requires forall a :: 0 <= a < |m| ==> m[a] == InitialWord(a)
    ensures Lists(m, bins)
  {
    forall i | 1 <= i < NAV ensures Ring(m, BinAt(i), bins[i]) {
      assert m[BinAt(i) + 8] == InitialWord(BinAt(i) + 8) && m[BinAt(i) + 12] == InitialWord(BinAt(i) + 12);
      assert (8 * i + 4) / 8 == i;
    }
  }

  lemma StoreInRange(m: Mem, h: Heap, bins: seq<seq<int>>, word: bv32, p: int)
    requires Good(m, h, bins, word) && p in h.used
    ensures p in h.size && p >= 0 && p + h.size[p] < |m|
  {
    hide h.Coalesced, Lists, Apart, Marked, Filed, h.Tagged, h.Forward, h.Backward;
    UsedAreChunks(h, |m|);
    TopFree(h);
    ChunkPositive(h, p, |m|);
    BelowTop(h, p, |m|);
    ChunkPositive(h, h.top, |m|);
  }

  class Allocator {
    var mem: Mem
    var top: int
    var binblocks: bv32
    var sbrkBase: int
    ghost var h: Heap
    ghost var bins: seq<seq<int>>
    ghost var refusals: nat

    ghost predicate Started() reads this { top != INITIAL_TOP }

    ghost predicate Fresh()
      reads this
    {
      && top == INITIAL_TOP && binblocks == 0
      && h.size == map[] && h.used == {} && bins == seq(NAV, _ => [])
      && Lists(mem, bins) && |mem| >= BinAt(NAV) + 16
    }

    ghost predicate Valid()
      reads this
    {
      if Started() then Good(mem, h, bins, binblocks) && h.top == top else Fresh()
    }

    /** The allocator as it is loaded: every bin is empty, and there is no heap yet. */
    constructor (brk: nat)
      requires brk >= BinAt(NAV) + 16
      ensures Valid() && h.used == {} && |mem| == brk && refusals == 0
    {
      mem := seq(brk, a => InitialWord(a));
      top, binblocks, sbrkBase := INITIAL_TOP, 0, -1;
      h := Heap(map[], map[], {}, 0, INITIAL_TOP);
      bins, refusals := seq(NAV, _ => []), 0;
      new;
      EmptyBins(mem, bins);
    }

    /** The program writes a word of one of its own blocks. */
    method Store(p: int, a: int, v: int)
      requires Valid() && p in h.used && p in h.size && p + 8 <= a <= p + h.size[p] && a % 4 == 0
      modifies `mem
      ensures Valid() && Word(mem, a) == v && PayloadKept(old(mem), mem, Released(h, p))
      ensures forall b :: b != a ==> Word(mem, b) == Word(old(mem), b)
    {
      hide Good, PayloadKept, GoodBut;
      StoreInRange(mem, h, bins, binblocks, p);
      GoodIsBut(mem, h, bins, binblocks);
      InsideKept(mem, mem[a := v], h, bins, binblocks, {}, p);
      GoodIsBut(mem[a := v], h, bins, binblocks);
      mem := mem[a := v];
    }

    /** The last chunk of bin i, from the back, that nb bytes fit in; the bin head when there is none. */
    method LastFit(nb: int, i: nat) returns (victim: int, ghost k: nat)
      requires Browsable(mem, h, bins) && 2 <= i < NAV
      ensures victim == BinAt(i) ==> forall l :: 0 <= l < |bins[i]| ==> h.size[bins[i][l]] < nb
      ensures victim != BinAt(i) ==> k < |bins[i]| && bins[i][k] == victim && h.size[victim] >= nb
      ensures victim != BinAt(i) ==> forall l :: k < l < |bins[i]| ==> h.size[bins[i][l]] < nb
    {
      hide Lists, Ring, Apart, ChunkSize, Node, Filed;
      ghost var list := bins[i];
      ghost var n: nat := |list|;
      BinEnds(mem, h, bins, i);
      victim := mem[BinAt(i) + 12];
      while victim != BinAt(i)
        invariant n <= |list| && victim == Follow(BinAt(i), list, n - 1)
        invariant forall l :: n <= l < |list| ==> h.size[list[l]] < nb
        decreases n
      {
        ghost var l: nat := n - 1;
        assert Readable(mem, h, list[l]);
        BinLinks(mem, h, bins, i, l);
        if ChunkSize(mem[victim + 4]) - nb >= 0 {
          return victim, l;
        }
        victim := mem[victim + 12];
        n := l;
      }
      k := 0;
    }

    /** The search for an exact fit when both the bin of the request and the next are small. */
    method SmallFit(nb: int) returns (found: bool, victim: int, idx: int, ghost i: nat, ghost k: nat)
      requires Browsable(mem, h, bins) && MINSIZE <= nb < MAX_SMALLBIN_SIZE - SMALLBIN_WIDTH && nb % 8 == 0
      ensures found ==> FoundAt(h, bins, nb, victim, i, k)
      ensures !found ==> GoOnFrom(h, bins, nb, idx)
    {
      hide Lists, Ring, Apart, ChunkSize, Node, Filed, BinIndex, Readable, NoFitBelow, FitsFrom, SmallestFit;
      BinsAround(h, bins, nb);
      BinIndexRange(nb);
      found, victim, i, k := false, 0, 0, 0;
      idx := SmallBinIndex(nb);
      SmallBins(mem, h, bins, idx);
      BinEnds(mem, h, bins, idx);
      BinEnds(mem, h, bins, idx + 1);
      var q := BinAt(idx);
      victim := mem[q + 12];
      i := idx;
      if victim == q {
        q := BinAt(idx + 1);
        victim := mem[q + 12];
        i := idx + 1;
        SkipEmpty(h, bins, nb, idx);
      }
      if victim != q {
        k := |bins[i]| - 1;
        FitIsSmallest(h, bins, nb, i, k);
        return true, victim, idx, i, k;
      }
      SkipEmpty(h, bins, nb, idx + 1);
      idx := idx + 2;
    }

    /** The search for an exact fit in the bin of a large request. */
    method LargeFit(nb: int) returns (found: bool, victim: int, idx: int, ghost i: nat, ghost k: nat)
      requires Browsable(mem, h, bins) && nb >= MAX_SMALLBIN_SIZE - SMALLBIN_WIDTH && nb % 8 == 0
      ensures found ==> FoundAt(h, bins, nb, victim, i, k)
      ensures !found ==> GoOnFrom(h, bins, nb, idx)
    {
      hide Lists, Ring, Apart, ChunkSize, Node, Filed, BinIndex, NoFitBelow, FitsFrom, SmallestFit;
      BinsAround(h, bins, nb);
      BinIndexRange(nb);
      idx := BinIndex(nb);
      found, i := false, idx;
      victim, k := LastFit(nb, idx);
      if victim == BinAt(idx) {
        SkipOne(h, bins, nb);
        idx := idx + 1;
      } else {
        BinChunk(mem, h, bins, idx, k);
        if ChunkSize(mem[victim + 4]) - nb >= MINSIZE {
          RescanOne(h, bins, nb, k);
        } else {
          FitIsSmallest(h, bins, nb, idx, k);
          found := true;
        }
      }
    }

    /** Scans the bins from idx to the end of its block for the first chunk that fits. */
    method ScanBlock(nb: int, start: int) returns (found: bool, victim: int, idx: int, ghost k: nat)
      requires Browsable(mem, h, bins) && 2 <= start < NAV
      requires NoFitBelow(h, bins, nb, start) && FitsFrom(h, bins, nb, start)
      ensures found ==> 2 <= idx < NAV && k < |bins[idx]| && bins[idx][k] == victim && SmallestFit(h, bins, nb, victim)
      ensures !found ==> idx == start / BINBLOCKWIDTH * BINBLOCKWIDTH + BINBLOCKWIDTH
      ensures !found ==> NoFitBelow(h, bins, nb, idx) && FitsFrom(h, bins, nb, idx)
      ensures !found ==> forall j :: start <= j < idx ==> bins[j] == []
    {
      hide Lists, Ring, Apart, Node, Filed, NoFitBelow, FitsFrom, SmallestFit, Readable;
      idx := start;
      while true
        invariant start <= idx < start / BINBLOCKWIDTH * BINBLOCKWIDTH + BINBLOCKWIDTH
        invariant NoFitBelow(h, bins, nb, idx) && FitsFrom(h, bins, nb, idx)
        invariant forall j :: start <= j < idx ==> bins[j] == []
        decreases NAV - idx
      {
        victim, k := LastFit(nb, idx);
        if victim != BinAt(idx) {
          FitIsSmallest(h, bins, nb, idx, k);
          return true, victim, idx, k;
        }
        EmptyOrFits(h, bins, nb, idx);
        SkipEmpty(h, bins, nb, idx);
        idx := idx + 1;
        if idx % BINBLOCKWIDTH == 0 {
          break;
        }
      }
      found := false;
    }

    /** Clears the mark of a block that is found to be empty, going back over the bins before start. */
    method ClearIfEmpty(start: int, block: bv32)
      requires Browsable(mem, h, bins) && Marked(bins, binblocks) && 2 <= start < NAV
      requires block == Mark(start / BINBLOCKWIDTH)
      requires forall j :: start <= j < start / BINBLOCKWIDTH * BINBLOCKWIDTH + BINBLOCKWIDTH ==> bins[j] == []
      requires start / BINBLOCKWIDTH > 0
      modifies `binblocks
      ensures Marked(bins, binblocks)
    {
      hide Lists, Ring, Apart, Node, Filed, Marked, Mark, Readable, Cleared;
      var startidx := start;
      while true
        invariant start / BINBLOCKWIDTH * BINBLOCKWIDTH <= startidx <= start
        invariant binblocks == old(binblocks)
        invariant forall j :: startidx <= j < start / BINBLOCKWIDTH * BINBLOCKWIDTH + BINBLOCKWIDTH ==> bins[j] == []
        decreases startidx
      {
        if startidx % BINBLOCKWIDTH == 0 {
          ClearMark(bins, binblocks, start / BINBLOCKWIDTH);
          binblocks := Cleared(binblocks, block);
          break;
        }
        startidx := startidx - 1;
        var q := BinAt(startidx);
        BinEnds(mem, h, bins, startidx);
        if mem[q + 8] != q {
          break;
        }
      }
    }

    /** Best fit: the bins from idx on, skipping the blocks that have no mark. */
    method ScanBins(nb: int, start: int) returns (found: bool, victim: int, ghost i: nat, ghost k: nat)
      requires Browsable(mem, h, bins) && Marked(bins, binblocks) && 4 <= start < NAV
      requires NoFitBelow(h, bins, nb, start) && FitsFrom(h, bins, nb, start)
      modifies `binblocks
      ensures Marked(bins, binblocks) && (old(binblocks) == 0 ==> binblocks == 0)
      ensures found ==> 2 <= i < NAV && k < |bins[i]| && bins[i][k] == victim && SmallestFit(h, bins, nb, victim)
      ensures !found ==> NoFitBelow(h, bins, nb, NAV)
    {
      hide Lists, Apart, Filed, NoFitBelow, FitsFrom, SmallestFit, Marked, Mark, Readable, Reaches, Meets, NextBlock;
      hide Cleared;
      var idx := start;
      found, victim, i, k := false, 0, 0, 0;
      var block := Mark(idx / BINBLOCKWIDTH);
      ZeroReachesNone(idx / BINBLOCKWIDTH);
      if Reaches(binblocks, block) {
        idx, block := NextMarked(nb, idx, block);
        while true
          invariant 4 <= idx < NAV && block == Mark(idx / BINBLOCKWIDTH)
          invariant old(binblocks) != 0 && Marked(bins, binblocks) && NoFitBelow(h, bins, nb, idx)
          invariant FitsFrom(h, bins, nb, idx)
          decreases NAV - idx
        {
          var next;
          found, victim, next, k := ScanBlock(nb, idx);
          if found {
            i := next;
            return;
          }
          ClearIfEmpty(idx, block);
          idx := next;
          block := NextBlock(block);
          MarkNext(idx / BINBLOCKWIDTH);
          if Reaches(binblocks, block) && block != 0 {
            idx, block := NextMarked(nb, idx, block);
          } else {
            NothingLeft(h, bins, nb, idx, binblocks);
            return;
          }
        }
      } else {
        NothingLeft(h, bins, nb, idx, binblocks);
      }
    }

    /** Goes on to the first block from idx on that is marked; at least one is. */
    method NextMarked(nb: int, start: int, startBlock: bv32) returns (idx: int, block: bv32)
      requires Filed(h, bins) && |bins| == NAV && Marked(bins, binblocks) && 4 <= start < NAV
      requires startBlock == Mark(start / BINBLOCKWIDTH) && Reaches(binblocks, startBlock)
      requires NoFitBelow(h, bins, nb, start) && FitsFrom(h, bins, nb, start)
      ensures start <= idx < NAV && block == Mark(idx / BINBLOCKWIDTH)
      ensures NoFitBelow(h, bins, nb, idx) && FitsFrom(h, bins, nb, idx)
    {
      hide Filed, NoFitBelow, FitsFrom, Marked, Mark, Reaches, Meets, NextBlock;
      idx, block := start, startBlock;
      if !Meets(binblocks, block) {
        SkipBlock(h, bins, nb, idx, binblocks);
        idx := idx / BINBLOCKWIDTH * BINBLOCKWIDTH + BINBLOCKWIDTH;
        block := NextBlock(block);
        while !Meets(binblocks, block)
          invariant start <= idx < NAV && idx % BINBLOCKWIDTH == 0
          invariant block == Mark(idx / BINBLOCKWIDTH) && Reaches(binblocks, block)
          invariant NoFitBelow(h, bins, nb, idx) && FitsFrom(h, bins, nb, idx)
          decreases NAV - idx
        {
          SkipBlock(h, bins, nb, idx, binblocks);
          idx := idx + BINBLOCKWIDTH;
          block := NextBlock(block);
        }
      }
    }

    /** Takes the chunk p off its list. */
    method Unlink(p: int, ghost g: Heap, ghost i: nat, ghost k: nat)
      requires Linked(mem, g, bins) && 1 <= i < NAV && k < |bins[i]| && bins[i][k] == p
      modifies `mem, `bins
      ensures bins == old(bins)[i := Without(old(bins)[i], k)] && !Listed(bins, p)
      ensures |mem| == old(|mem|) && Linked(mem, g, bins)
      ensures TagsKept(old(mem), mem, g) && PayloadKept(old(mem), mem, g)
    {
      hide Apart, Lists, TagsKept, PayloadKept, Linkable;
      UnlinkKept(mem, g, bins, i, k);
      var back := mem[p + 12];
      var forward := mem[p + 8];
      mem := mem[forward + 12 := back];
      mem := mem[back + 8 := forward];
      bins := bins[i := Without(bins[i], k)];
    }

    /** Makes p the last remainder. */
    method LinkLastRemainder(p: int, ghost g: Heap)
      requires Linked(mem, g, bins) && p in g.size && p !in g.used && !Listed(bins, p)
      modifies `mem, `bins
      ensures bins == old(bins)[LAST_REMAINDER := [p]]
      ensures |mem| == old(|mem|) && Linked(mem, g, bins)
      ensures TagsKept(old(mem), mem, g) && PayloadKept(old(mem), mem, g)
    {
      hide Apart, Lists, TagsKept, PayloadKept, Linkable, Listed;
      RelinkKept(mem, g, bins, p);
      var lastRemainder := BinAt(LAST_REMAINDER);
      mem := mem[p + 12 := lastRemainder];
      mem := mem[p + 8 := lastRemainder];
      mem := mem[lastRemainder + 12 := p];
      mem := mem[lastRemainder + 8 := p];
      bins := bins[LAST_REMAINDER := [p]];
    }

    method ClearLastRemainder(ghost g: Heap)
      requires Linked(mem, g, bins)
      modifies `mem, `bins
      ensures bins == old(bins)[LAST_REMAINDER := []]
      ensures |mem| == old(|mem|) && Linked(mem, g, bins)
      ensures TagsKept(old(mem), mem, g) && PayloadKept(old(mem), mem, g)
    {
      hide Apart, Lists, TagsKept, PayloadKept, Linkable;
      ClearKept(mem, g, bins);
      var lastRemainder := BinAt(LAST_REMAINDER);
      mem := mem[lastRemainder + 12 := lastRemainder];
      mem := mem[lastRemainder + 8 := lastRemainder];
      bins := bins[LAST_REMAINDER := []];
    }

    /** The first chunk of bin i that is no larger than s; the bin head when all are. */
    method FindPlace(ghost g: Heap, i: nat, s: int) returns (fwd: int, ghost k: nat)
      requires Browsable(mem, g, bins) && 2 <= i < NAV
      ensures k <= |bins[i]| && fwd == Follow(BinAt(i), bins[i], k)
      ensures var list := bins[i]; forall j :: 0 <= j < k ==> g.size[list[j]] >= s
      ensures var list := bins[i]; forall j :: k <= j < |list| ==> g.size[list[j]] <= s
    {
      hide Apart, Lists, Filed, ChunkSize, Node;
      ghost var list := bins[i];
      k := 0;
      BinEnds(mem, g, bins, i);
      BackOf(mem, g, bins, i, 0);
      fwd := mem[BinAt(i) + 8];
      while fwd != BinAt(i) && s < ChunkSize(mem[fwd + 4])
        invariant 0 <= k <= |list| && fwd == Follow(BinAt(i), list, k)
        invariant 0 <= fwd && fwd + 12 < |mem|
        invariant forall j :: 0 <= j < k ==> g.size[list[j]] >= s
        decreases |list| - k
      {
        BinChunk(mem, g, bins, i, k);
        BinLinks(mem, g, bins, i, k);
        BackOf(mem, g, bins, i, k + 1);
        fwd := mem[fwd + 8];
        k := k + 1;
      }
      if k < |list| {
        BinChunk(mem, g, bins, i, k);
      }
      RestSmaller(mem, g, bins, i, k, s);
    }

    /** Where the free chunk p of size s goes: in front of its bin when small, else in size order. */
    method PlaceFor(p: int, s: int, ghost g: Heap) returns (idx: nat, bck: int, fwd: int, ghost k: nat)
      requires Browsable(mem, g, bins) && Marked(bins, binblocks)
      requires p in g.size && g.size[p] == s && s % 8 == 0 && s >= MINSIZE
      modifies `binblocks
      ensures 2 <= idx < NAV && idx == BinIndex(s) && k <= |bins[idx]|
      ensures bck == Follow(BinAt(idx), bins[idx], k - 1) && fwd == Follow(BinAt(idx), bins[idx], k)
      ensures var list := bins[idx]; forall j :: 0 <= j < k ==> g.size[list[j]] >= s
      ensures var list := bins[idx]; forall j :: k <= j < |list| ==> g.size[list[j]] <= s
      ensures Marked(bins[idx := With(bins[idx], k, p)], binblocks)
    {
      hide Apart, Lists, Marked, Mark, WithMark, Filed, BinIndex, ChunkSize, Node, Readable;
      BinIndexRange(s);
      idx := BinIndex(s);
      k := 0;
      ghost var list := bins[idx];
      bck := BinAt(idx);
      BinEnds(mem, g, bins, idx);
      fwd := mem[bck + 8];
      if s < MAX_SMALLBIN_SIZE {
        SameSize(mem, g, bins, p);
        SetMark(bins, binblocks, idx, With(list, 0, p));
        binblocks := WithMark(binblocks, Mark(idx / BINBLOCKWIDTH));
      } else if fwd == bck {
        SetMark(bins, binblocks, idx, With(list, 0, p));
        binblocks := WithMark(binblocks, Mark(idx / BINBLOCKWIDTH));
      } else {
        fwd, k := FindPlace(g, idx, s);
        KeepMark(bins, binblocks, idx, With(list, k, p));
        BackOf(mem, g, bins, idx, k);
        bck := mem[fwd + 12];
      }
    }

    /** Links p in at place k of bin i. */
    method LinkIn(p: int, bck: int, fwd: int, ghost g: Heap, ghost i: nat, ghost k: nat)
      requires Linked(mem, g, bins) && 1 <= i < NAV && k <= |bins[i]|
      requires p in g.size && p !in g.used && !Listed(bins, p)
      requires bck == Follow(BinAt(i), bins[i], k - 1) && fwd == Follow(BinAt(i), bins[i], k)
      modifies `mem, `bins
      ensures bins == old(bins)[i := With(old(bins)[i], k, p)]
      ensures |mem| == old(|mem|) && Linked(mem, g, bins)
      ensures TagsKept(old(mem), mem, g) && PayloadKept(old(mem), mem, g)
    {
      hide Apart, Lists, TagsKept, PayloadKept, Linkable, Listed, Follow;
      InsertKept(mem, g, bins, i, k, p);
      mem := mem[p + 12 := bck];
      mem := mem[p + 8 := fwd];
      mem := mem[fwd + 12 := p];
      mem := mem[bck + 8 := p];
      bins := bins[i := With(bins[i], k, p)];
    }

    /** Files the free chunk p of size s. */
    method Frontlink(p: int, s: int)
      requires Linked(mem, h, bins) && h.Tagged(mem) && h.Free(p) && h.size[p] == s
      requires Filed(h.Use(p), bins) && !Listed(bins, p) && Marked(bins, binblocks)
      modifies `mem, `bins, `binblocks
      ensures |mem| == old(|mem|) && Linked(mem, h, bins)
      ensures TagsKept(old(mem), mem, h) && PayloadKept(old(mem), mem, h)
      ensures Filed(h, bins) && Marked(bins, binblocks) && bins[LAST_REMAINDER] == old(bins)[LAST_REMAINDER]
    {
      hide Linked, TagsKept, PayloadKept, Listed, Marked, Filed, BinIndex, h.Tagged;
      FrontlinkReady(mem, h, bins, p);
      hide Browsable;
      var idx, bck, fwd;
      ghost var k: nat;
      idx, bck, fwd, k := PlaceFor(p, s, h.Use(p));
      FileKept(h, bins, k, p);
      LinkIn(p, bck, fwd, h, idx, k);
    }

    /** Puts the whole free chunk at place k of bin i in use; the last remainder is cleared instead of unlinked. */
    method Take(victim: int, size: int, isRemainder: bool, ghost i: nat, ghost k: nat)
      requires Good(mem, h, bins, binblocks) && 1 <= i < NAV && k < |bins[i]| && bins[i][k] == victim
      requires victim in h.size && size == h.size[victim] && (isRemainder <==> i == LAST_REMAINDER)
      modifies `mem, `bins, `h
      ensures Good(mem, h, bins, binblocks) && |mem| == old(|mem|)
      ensures h == old(h).Use(victim) && bins == old(bins)[i := Without(old(bins)[i], k)]
      ensures forall nb :: nb <= size < nb + MINSIZE ==> Served(old(h), h, victim, nb)
      ensures PayloadKept(old(mem), mem, old(h))
    {
      ghost var m0, g, bins0 := mem, h, bins;
      hide *;
      TakeStart(m0, g, bins0, binblocks, i, k);
      if isRemainder {
        ClearLastRemainder(g);
        AloneRemainder(m0, g, bins0, binblocks, k);
      } else {
        Unlink(victim, g, i, k);
      }
      TakeDone(m0, mem, g, bins0, bins, binblocks, i, k);
      var next := victim + size;
      mem := mem[next + 4 := SetPrevInUse(mem[next + 4])];
      h := g.Use(victim);
      forall nb | nb <= size < nb + MINSIZE ensures Served(g, h, victim, nb) {
        UseServed(m0, g, bins0, binblocks, victim, nb);
      }
    }

    /**
     Puts the first nb bytes of the free chunk at place k of bin i in use; the rest
     becomes the last remainder.
     */
    method TakeFront(victim: int, size: int, nb: int, isRemainder: bool, ghost i: nat, ghost k: nat)
      requires Good(mem, h, bins, binblocks) && 1 <= i < NAV && k < |bins[i]| && bins[i][k] == victim
      requires victim in h.size && size == h.size[victim] && MINSIZE <= nb <= size - MINSIZE && nb % 8 == 0
      requires if isRemainder then i == LAST_REMAINDER else i != LAST_REMAINDER && bins[LAST_REMAINDER] == []
      modifies `mem, `bins, `h
      ensures Good(mem, h, bins, binblocks) && |mem| == old(|mem|)
      ensures h == old(h).Split(victim, nb).Use(victim) && Served(old(h), h, victim, nb)
      ensures PayloadKept(old(mem), mem, old(h))
    {
      ghost var m0, g, bins0 := mem, h, bins;
      hide Good, Linked, Listed, TagsKept, TagsExcept, PayloadKept, Head, Word, CutTags, Marked, g.Split, Without;
      ghost var cut := g.Split(victim, nb);
      SplitStart(m0, g, bins0, binblocks, i, k, victim, nb);
      var remainder := victim + nb;
      HeadWrite(mem, cut, bins, victim, Head(nb, true));
      mem := mem[victim + 4 := Head(nb, true)];
      ghost var m1 := mem;
      NothingChanged(mem, cut);
      if !isRemainder {
        Unlink(victim, cut, i, k);
        UnlinkedStill(bins0, i, k, remainder);
      }
      ghost var m2 := mem;
      LinkLastRemainder(remainder, cut);
      ghost var m3 := mem;
      HeadWrite(mem, cut, bins, remainder, Head(size - nb, true));
      mem := mem[remainder + 4 := Head(size - nb, true)];
      ghost var m4 := mem;
      FootWrite(mem, cut, bins, remainder, size - nb);
      mem := mem[remainder + (size - nb) := size - nb];
      h := cut.Use(victim);
      SplitTags(m0, m1, m2, m3, m4, mem, g, cut, victim, nb);
      assert bins == bins0[i := Without(bins0[i], k)][LAST_REMAINDER := [remainder]];
      SplitDone(m0, mem, g, bins0, bins, binblocks, i, k, victim, nb);
      CutServed(g, victim, nb);
    }

    /**
     Tries the last remainder: cuts it, uses it up, or, when nb bytes do not fit in it,
     files it in its bin.
     */
    method TryRemainder(nb: int) returns (victim: int)
      requires Browsable(mem, h, bins) && nb >= MINSIZE && nb % 8 == 0
      requires bins[LAST_REMAINDER] != [] ==> Good(mem, h, bins, binblocks)
      modifies `mem, `bins, `binblocks, `h
      ensures |mem| == old(|mem|) && PayloadKept(old(mem), mem, old(h)) && h.top == old(h.top)
      ensures old(bins)[LAST_REMAINDER] == [] ==> mem == old(mem) && bins == old(bins) && binblocks == old(binblocks)
      ensures old(bins)[LAST_REMAINDER] != [] ==> Good(mem, h, bins, binblocks)
      ensures victim == BinAt(LAST_REMAINDER) ==> h == old(h) && bins[LAST_REMAINDER] == []
      ensures victim == BinAt(LAST_REMAINDER) ==>
        forall p :: p in old(bins)[LAST_REMAINDER] ==> p in h.size && h.size[p] < nb
      ensures victim != BinAt(LAST_REMAINDER) ==> old(bins)[LAST_REMAINDER] == [victim] && Served(old(h), h, victim, nb)
    {
      hide Good, PayloadKept, Filed, Apart, Lists, ChunkSize, Marked;
      var lastRemainder := BinAt(LAST_REMAINDER);
      NothingChanged(mem, h);
      BinEnds(mem, h, bins, LAST_REMAINDER);
      victim := mem[lastRemainder + 8];
      if victim != lastRemainder {
        BinChunk(mem, h, bins, LAST_REMAINDER, 0);
        OneRemainder(mem, h, bins);
        var size := ChunkSize(mem[victim + 4]);
        if size - nb >= MINSIZE {
          TakeFront(victim, size, nb, true, LAST_REMAINDER, 0);
        } else if size - nb >= 0 {
          Take(victim, size, true, LAST_REMAINDER, 0);
        } else {
          ghost var m0, bins0, word0 := mem, bins, binblocks;
          RemainderOut(mem, h, bins, binblocks, victim);
          ClearLastRemainder(h);
          ghost var m1, bins1 := mem, bins;
          RemainderLoose(m0, m1, h, bins0, binblocks, victim);
          Frontlink(victim, size);
          RemainderFiledBack(m0, m1, mem, h, bins0, bins1, bins, word0, binblocks);
          victim := lastRemainder;
        }
      }
    }

    /** The system's break moves up by n bytes, or it refuses; refusals counts how often it has refused. */
    method Sbrk(n: nat) returns (brk: int)
      modifies `mem, `refusals
      ensures brk == -1 ==> mem == old(mem) && refusals == old(refusals) + 1
      ensures brk != -1 ==> brk == old(|mem|) && old(mem) <= mem && |mem| == brk + n && refusals == old(refusals)
    {
      if * {
        brk := -1;
        refusals := refusals + 1;
      } else {
        brk := |mem|;
        mem := mem + seq(n, _ => 0);
      }
    }

    /** The size of top; before the heap exists this reads the empty block word. */
    method TopSize() returns (size: int)
      requires Valid()
      ensures size == if Started() then h.size[top] else 0
    {
      if top == INITIAL_TOP {
        size := (binblocks & 0xFFFF_FFFC) as int;
      } else {
        TopReadable(mem, h, bins, binblocks);
        size := ChunkSize(mem[top + 4]);
      }
    }

    /** Adds memory to top when it exists already. */
    method GrowTop(nb: int)
      requires Valid() && Started() && nb >= MINSIZE
      modifies `mem, `h, `refusals
      ensures Valid() && OnlyTopGrew(old(h), h) && PayloadKept(old(mem), mem, old(h))
      ensures refusals == old(refusals) ==> top != INITIAL_TOP && h.top == top && TopFits(h, nb)
      ensures refusals != old(refusals) ==> refusals == old(refusals) + 1 && h == old(h) && top == old(top)
    {
      hide Good, PayloadKept, ChunkSize, OnlyTopGrew, Head, Grow;
      TopReadable(mem, h, bins, binblocks);
      NothingChanged(mem, h);
      SameTop(h);
      ghost var m0, g := mem, h;
      var oldSize := TopSize();
      var sbrkSize := (nb + MINSIZE + (PAGE_SIZE - 1)) / PAGE_SIZE * PAGE_SIZE;
      WholePages(nb + MINSIZE + (PAGE_SIZE - 1));
      var brk := Sbrk(sbrkSize);
      if brk != -1 {
        GrowDone(m0, mem, g, bins, binblocks, sbrkSize);
        mem := mem[top + 4 := Head(sbrkSize + oldSize, true)];
        h := Grow(g, sbrkSize);
        GrewTop(g, sbrkSize);
      }
    }

    /** Obtains the first memory of the heap, aligned in front and ending on a page. */
    method FirstTop(nb: int)
      requires Valid() && !Started() && nb >= MINSIZE && nb % 8 == 0
      modifies `mem, `h, `top, `sbrkBase, `refusals
      ensures Valid() && OnlyTopGrew(old(h), h) && PayloadKept(old(mem), mem, old(h))
      ensures refusals == old(refusals) ==> top != INITIAL_TOP && h.top == top && TopFits(h, nb)
      ensures refusals != old(refusals) ==> refusals == old(refusals) + 1 && h == old(h) && top == old(top)
    {
      hide Good, Lists, PayloadKept, Head;
      ghost var m0, bins0 := mem, bins;
      assert forall m' :: PayloadKept(m0, m', h) by { NoPayload(m0, h); }
      var sbrkSize := nb + MINSIZE;
      if sbrkBase != -1 {
        sbrkSize := (sbrkSize + (PAGE_SIZE - 1)) / PAGE_SIZE * PAGE_SIZE;
      }
      var brk := Sbrk(sbrkSize);
      if brk == -1 {
        return;
      }
      ghost var start := brk;
      LongerFresh(m0, mem, bins);
      if sbrkBase == -1 {
        sbrkBase := brk;
      }
      var correction := 0;
      if (brk + 8) % 8 > 0 {
        correction := 8 - (brk + 8) % 8;
        brk := brk + correction;
      }
      correction := correction + PAGE_SIZE - (brk + sbrkSize) % PAGE_SIZE;
      PageEnd(start, brk, sbrkSize, correction);
      var newBrk := Sbrk(correction);
      if newBrk == -1 {
        return;
      }
      FirstDone(m0, mem, bins0, brk);
      top := brk;
      var topSize := newBrk - brk + correction;
      assert topSize == |mem| - brk;
      mem := mem[top + 4 := Head(topSize, true)];
      h := OneChunk(brk, |mem|);
    }

    /** Adds to top what nb bytes need, unless the system refuses. */
    method ExtendTop(nb: int)
      requires Valid() && nb >= MINSIZE && nb % 8 == 0
      modifies `mem, `h, `top, `sbrkBase, `refusals
      ensures old(Started()) ==> top == old(top)
      ensures Valid() && OnlyTopGrew(old(h), h) && PayloadKept(old(mem), mem, old(h))
      ensures refusals == old(refusals) ==> top != INITIAL_TOP && h.top == top && TopFits(h, nb)
      ensures refusals != old(refusals) ==> refusals == old(refusals) + 1 && h == old(h) && top == old(top)
    {
      if top == INITIAL_TOP {
        FirstTop(nb);
      } else {
        GrowTop(nb);
      }
    }

    lemma ValidBrowsable()
      requires Valid()
      ensures Browsable(mem, h, bins) && Marked(bins, binblocks)
      ensures Started() || bins == seq(NAV, _ => [])
    {
      if Started() {
        GoodBrowsable(mem, h, bins, binblocks);
      }
    }

    lemma BlocksAreChunks()
      requires Valid()
      ensures forall q :: q in h.used ==> q in h.size
    {
      if Started() {
        TopReadable(mem, h, bins, binblocks);
      }
    }

    lemma BlockPositive(h0: Heap, c: int, nb: int)
      requires Valid() && Served(h0, h, c, nb)
      ensures c > 0 && Started()
    {
      hide h.Forward, h.Backward, h.Ordered;
    }

    /** Step 1: an exact fit. */
    method TakeExact(nb: int) returns (victim: int, idx: int)
      requires Valid() && nb >= MINSIZE && nb % 8 == 0
      modifies `mem, `bins, `h
      ensures Valid() && PayloadKept(old(mem), mem, old(h)) && Browsable(old(mem), old(h), old(bins))
      ensures victim == 0 ==> mem == old(mem) && h == old(h) && bins == old(bins) && GoOnFrom(h, bins, nb, idx)
      ensures victim != 0 ==> Served(old(h), h, victim, nb) && BestFit(old(h), old(bins), nb, victim)
    {
      hide Good, PayloadKept, Filed, Apart, Lists, ChunkSize, Marked, GoOnFrom, Served, BinIndex, SmallestFit, BestFit;
      ValidBrowsable();
      NothingChanged(mem, h);
      var found;
      ghost var i: nat, k: nat;
      if nb < MAX_SMALLBIN_SIZE - SMALLBIN_WIDTH {
        found, victim, idx, i, k := SmallFit(nb);
      } else {
        found, victim, idx, i, k := LargeFit(nb);
      }
      if found {
        BinChunk(mem, h, bins, i, k);
        FoundChunk(mem, h, bins, nb, victim, i, k);
        var size := ChunkSize(mem[victim + 4]);
        Take(victim, size, false, i, k);
      } else {
        victim := 0;
      }
    }

    /** Step 3: the smallest chunk of the bins from idx on that is big enough, cut when there is room for a rest. */
    method TakeBest(nb: int, idx: int) returns (victim: int)
      requires Valid() && nb >= MINSIZE && nb % 8 == 0 && 4 <= idx < NAV && Browsable(mem, h, bins)
      requires bins[LAST_REMAINDER] == [] && NoFitBelow(h, bins, nb, idx) && FitsFrom(h, bins, nb, idx)
      modifies `mem, `bins, `binblocks, `h
      ensures Valid() && PayloadKept(old(mem), mem, old(h))
      ensures victim == 0 ==> h == old(h) && NothingFits(h, nb)
      ensures victim != 0 ==> Served(old(h), h, victim, nb) && BestFit(old(h), old(bins), nb, victim)
    {
      hide Good, PayloadKept, Filed, Apart, Lists, ChunkSize, Marked, Served, BinIndex, SmallestFit, BestFit;
      hide NoFitBelow, FitsFrom;
      ValidBrowsable();
      NothingChanged(mem, h);
      var found;
      ghost var i: nat, k: nat;
      ghost var word := binblocks;
      found, victim, i, k := ScanBins(nb, idx);
      Remarked(word);
      if found {
        BinChunk(mem, h, bins, i, k);
        FitChunk(mem, h, bins, nb, victim, i, k);
        var size := ChunkSize(mem[victim + 4]);
        if size - nb >= MINSIZE {
          TakeFront(victim, size, nb, false, i, k);
        } else {
          Take(victim, size, false, i, k);
        }
      } else {
        NoneLeft(h, bins, nb);
        victim := 0;
      }
    }

    /** Scanning only unmarks blocks; a heap that does not exist yet has none marked. */
    lemma Remarked(word: bv32)
      requires |bins| == NAV && Marked(bins, binblocks) && (word == 0 ==> binblocks == 0)
      requires if Started() then Good(mem, h, bins, word) && h.top == top
               else top == INITIAL_TOP && word == 0 && h.size == map[] && h.used == {} && bins == seq(NAV, _ => []) &&
                    Lists(mem, bins) && |mem| >= BinAt(NAV) + 16
      ensures Valid()
    {
    }

    /** Steps 1 to 3: serves nb bytes from the free chunks, if one has room; the null result is 0. */
    method FromChunks(nb: int) returns (victim: int, ghost source: Source)
      requires Valid() && nb >= MINSIZE && nb % 8 == 0
      modifies `mem, `bins, `binblocks, `h
      ensures Valid() && PayloadKept(old(mem), mem, old(h)) && |old(bins)| == NAV
      ensures victim == 0 ==> h == old(h) && NothingFits(h, nb)
      ensures victim != 0 ==> Served(old(h), h, victim, nb) && Chosen(old(h), old(bins), nb, victim, source)
      ensures victim != 0 ==> source != NoMemory
    {
      hide Good, PayloadKept, Filed, Apart, Lists, ChunkSize, Marked, GoOnFrom, Served, BinIndex, BestFit, NoFitBelow;
      hide FitsFrom;
      ghost var m0, h0, bins0 := mem, h, bins;
      source := NoMemory;
      var idx;
      victim, idx := TakeExact(nb);
      if victim != 0 {
        return victim, BinTaken;
      }
      ValidBrowsable();
      ExactKnown(h, bins, nb, idx);
      victim := TryRemainder(nb);
      if victim != BinAt(LAST_REMAINDER) {
        RemainderPositive(m0, h0, bins0, victim);
        return victim, RemainderTaken;
      }
      assert Valid();
      ValidBrowsable();
      BrowsableFiled(m0, h0, bins0);
      BrowsableFiled(mem, h, bins);
      AfterRemainder(h, bins0, bins, nb, idx);
      ghost var m1, bins1 := mem, bins;
      victim := TakeBest(nb, idx);
      PayloadChain(m0, m1, mem, h0);
      if victim != 0 {
        BestStays(h0, bins0, bins1, nb, victim);
        source := BinTaken;
      }
    }

    /** Step 4: the front of top, extended when it is not big enough to leave a new top. */
    method FromTop(nb: int) returns (victim: int)
      requires Valid() && nb >= MINSIZE && nb % 8 == 0
      modifies `mem, `h, `top, `sbrkBase, `refusals
      ensures Valid() && PayloadKept(old(mem), mem, old(h))
      ensures victim == 0 <==> refusals != old(refusals)
      ensures victim == 0 ==> refusals == old(refusals) + 1 && h == old(h) && !(old(Started()) && TopFits(h, nb))
      ensures victim != 0 ==> Served(old(h), h, victim, nb) && (old(Started()) ==> victim == old(top))
    {
      hide Good, PayloadKept, Filed, Apart, Lists, ChunkSize, Marked, Served, BinIndex, OnlyTopGrew, Head;
      SameTop(h);
      NothingChanged(mem, h);
      BlocksAreChunks();
      ghost var m0, h0 := mem, h;
      var size := TopSize();
      if size - nb < MINSIZE {
        ExtendTop(nb);
        size := TopSize();
        if size - nb < MINSIZE {
          return 0;
        }
      }
      ghost var m1, h1 := mem, h;
      TopReadable(mem, h, bins, binblocks);
      TopDone(mem, h, bins, binblocks, nb);
      CutTopServed(h0, h, nb);
      victim := top;
      mem := mem[victim + 4 := Head(nb, true)];
      top := victim + nb;
      mem := mem[top + 4 := Head(size - nb, true)];
      h := h1.Split(victim, nb).Use(victim);
      PayloadOverGrown(m0, m1, mem, h0, h1);
    }

    /**
     Allocates a block of at least bytes bytes; returns its address, or 0 when the system refused the memory that
     neither a free chunk nor top could give.
     */
    method Malloc(bytes: nat) returns (p: int, ghost source: Source)
      requires Valid()
      modifies `mem, `bins, `binblocks, `h, `top, `sbrkBase, `refusals
      ensures Valid() && |old(bins)| == NAV && PayloadKept(old(mem), mem, old(h))
      ensures Chosen(old(h), old(bins), RequestToSize(bytes), p - 8, source)
      ensures p == 0 <==> source == NoMemory
      ensures p == 0 <==> refusals != old(refusals)
      ensures p == 0 ==> refusals == old(refusals) + 1 && h == old(h)
      ensures p != 0 ==> Served(old(h), h, p - 8, RequestToSize(bytes))
    {
      hide Good, PayloadKept, Filed, Apart, Lists, ChunkSize, Marked, Served, BinIndex, OnlyTopGrew, Head, BestFit;
      hide NothingFits;
      ghost var m0, h0 := mem, h;
      var nb := RequestToSize(bytes);
      var victim;
      victim, source := FromChunks(nb);
      if victim == 0 {
        ghost var m1 := mem;
        victim := FromTop(nb);
        PayloadChain(m0, m1, mem, h0);
        if victim == 0 {
          return 0, NoMemory;
        }
        source := TopCut;
      }
      BlockPositive(h0, victim, nb);
      p := victim + 8;
    }

    /**
     Joins the chunk before p, when it is free: it is taken off its list, unless it is
     the last remainder, which stays so.
     */
    method JoinBack(p: int, free: bool, ghost a: Heap) returns (q: int, added: int, isRemainder: bool)
      requires Linked(mem, Released(h, p), bins) && Filed(h, bins) && Marked(bins, binblocks) && p in h.size
      requires p in h.used
      requires free ==> p in h.before && h.Free(h.before[p])
      requires free ==> h.before[p] + h.size[h.before[p]] == p && Word(mem, p) == h.size[h.before[p]]
      requires 0 <= p < |mem| && !Listed(bins, p)
      requires a == if free then h.Use(h.before[p]) else h
      modifies `mem, `bins
      ensures |mem| == old(|mem|) && Linked(mem, Released(h, p), bins) && Marked(bins, binblocks) && !Listed(bins, p)
      ensures TagsKept(old(mem), mem, Released(h, p)) && PayloadKept(old(mem), mem, Released(h, p))
      ensures q == (if free then h.before[p] else p) && added == (if free then h.size[h.before[p]] else 0)
      ensures isRemainder ==> free && bins == old(bins) && bins[LAST_REMAINDER] == [q]
      ensures !isRemainder ==> Filed(a, bins) && !Listed(bins, q)
    {
      hide Apart, Lists, Filed, Marked, TagsKept, PayloadKept, Without;
      NothingChanged(mem, Released(h, p));
      if free {
        added := mem[p];
        q := p - added;
        FiledBins(h, bins);
        ghost var i, k := WhereFiled(h, bins, q);
        FiledOnce(h, bins);
        RemainderTest(mem, Released(h, p), bins, i, k);
        if mem[q + 8] == BinAt(LAST_REMAINDER) {
          AloneInBin(bins, k, q);
          isRemainder := true;
        } else {
          UseFiled(h, bins, i, k);
          MarkedLess(bins, binblocks, i, k);
          UnlinkedStill(bins, i, k, p);
          Unlink(q, Released(h, p), i, k);
          isRemainder := false;
        }
      } else {
        q, added, isRemainder := p, 0, false;
      }
    }

    /**
     Joins the chunk after q's old end, when it is free: it is taken off its list, unless
     it is the last remainder, which q becomes in its place.
     */
    method JoinForward(q: int, next: int, nextFree: bool, wasRemainder: bool, ghost g: Heap, ghost a: Heap,
                       ghost b: Heap)
      returns (isRemainder: bool)
      requires Linked(mem, g, bins) && Marked(bins, binblocks) && q in g.size && q !in g.used && q != next
      requires Filed(a, bins) && (nextFree ==> a.Free(next)) && b == if nextFree then a.Use(next) else a
      requires if wasRemainder then bins[LAST_REMAINDER] == [q] else !Listed(bins, q)
      modifies `mem, `bins
      ensures |mem| == old(|mem|) && Linked(mem, g, bins) && Marked(bins, binblocks)
      ensures nextFree ==> !Listed(bins, next)
      ensures TagsKept(old(mem), mem, g) && PayloadKept(old(mem), mem, g)
      ensures wasRemainder ==> isRemainder && bins[LAST_REMAINDER] == [q] && Filed(b, bins)
      ensures !wasRemainder && !isRemainder ==> Filed(b, bins) && !Listed(bins, q)
      ensures !wasRemainder && isRemainder ==> nextFree && !Listed(bins[LAST_REMAINDER := []], q)
      ensures !wasRemainder && isRemainder ==> Filed(b, bins[LAST_REMAINDER := []]) && bins[LAST_REMAINDER] == [q]
      ensures forall x :: x != q && !Listed(old(bins), x) ==> !Listed(bins, x)
    {
      hide Apart, Lists, Filed, Marked, TagsKept, PayloadKept, Without, a.Use;
      NothingChanged(mem, g);
      FiledOnce(a, bins);
      isRemainder := wasRemainder;
      if nextFree {
        ghost var i, k := WhereFiled(a, bins, next);
        RemainderTest(mem, g, bins, i, k);
        if !wasRemainder && mem[next + 8] == BinAt(LAST_REMAINDER) {
          AloneInBin(bins, k, next);
          isRemainder := true;
          TakeOver(mem, g, a, bins, binblocks, next, q);
          LinkLastRemainder(q, g);
        } else {
          UseFiled(a, bins, i, k);
          MarkedLess(bins, binblocks, i, k);
          ghost var bins0 := bins;
          Unlink(next, g, i, k);
          StayUnlisted(bins0, i, k, q, wasRemainder);
        }
      }
    }

    /** Gives back a block that borders top. */
    method FreeToTop(p: int, next: int, nextSize: int)
      requires Good(mem, h, bins, binblocks) && p in h.used && p in h.size
      requires next == h.Next(p) == h.top && next in h.size && nextSize == h.size[next] && 0 <= p && p + 4 < |mem|
      modifies `mem, `bins, `h, `top
      ensures Good(mem, h, bins, binblocks) && top == h.top && |mem| == old(|mem|)
      ensures Returned(old(h), h, p) && PayloadKept(old(mem), mem, Released(old(h), p))
    {
      hide Filed, Lists, Apart, Marked, TagsKept, TagsExcept, PayloadKept, h.Tiled, h.Coalesced, h.Tagged, Head;
      hide PrevInUse, ClearPrevInUse, ChunkSize;
      ghost var m0, h0, bins0 := mem, h, bins;
      ghost var back := !h.AfterUsed(p);
      ghost var r := Released(h, p);
      ReadBlock(mem, h, p);
      TopFree(h);
      NothingChanged(mem, r);
      GoodLinked(mem, h, bins, binblocks);
      ReleasedLinked(mem, h, bins, p);
      var hd := mem[p + 4];
      var q, size := p, ClearPrevInUse(hd) + nextSize;
      ghost var a := h;
      if !PrevInUse(hd) {
        var prevSize := mem[p];
        q := p - prevSize;
        size := size + prevSize;
        ghost var i, k := WhereFiled(h, bins, q);
        UseFiled(h, bins, i, k);
        MarkedLess(bins, binblocks, i, k);
        UnlinkedStill(bins, i, k, p);
        a := h.Use(q);
        Unlink(q, r, i, k);
      }
      ghost var m3 := mem;
      ghost var hf := Coalesced(h, p, back, true);
      CoalescedTiled(h, |mem|, p, back, true);
      CoalescedOutcome(h, |mem|, p, back, true);
      CoalescedFollows(h, |mem|, p, back, true);
      TopUnlisted(a, bins, next);
      JoinedLinked(mem, h, hf, bins, p, q, back, true);
      HeadWrite(mem, hf, bins, q, Head(size, true));
      mem := mem[q + 4 := Head(size, true)];
      top := q;
      h := hf;
      TagsKeptExcept(m0, m3, r);
      TagsWeaken(m0, m3, r, next);
      FreedTagsFrom(m0, m3, mem, mem, h0, hf, |m0|, p, q, back, true);
      FiledWithTop(h0, hf, a, |m0|, bins, p, q, back);
      FreedGood(m0, m3, mem, h0, hf, bins0, bins, binblocks, binblocks, p, q, back, true);
      BlocksReturned(h0, hf, |m0|, p, q, back, true);
    }

    /** Takes the free neighbours of p off their lists; the joined chunk may become, or stay, the last remainder. */
    method Absorb(p: int, next: int, nextSize: int, ghost back: bool, ghost forward: bool, ghost hf: Heap)
      returns (q: int, size: int, isRemainder: bool)
      requires Good(mem, h, bins, binblocks) && Readings(mem, h, p, back, forward)
      requires hf == Coalesced(h, p, back, forward)
      requires next == h.Next(p) != h.top && nextSize == h.size[next]
      modifies `mem, `bins
      ensures |mem| == old(|mem|) && Linked(mem, Released(h, p), bins) && Marked(bins, binblocks)
      ensures TagsExcept(old(mem), mem, Released(h, p), {next}, {}) && Word(mem, next + 4) == Head(h.size[next], false)
      ensures PayloadKept(old(mem), mem, Released(h, p))
      ensures q == Start(h, p, back) && q in hf.size && size == hf.size[q]
      ensures (back ==> !Listed(bins, p)) && (forward ==> !Listed(bins, next))
      ensures isRemainder ==> Filed(hf, bins)
      ensures !isRemainder ==> Filed(hf.Use(q), bins) && !Listed(bins, q)
    {
      hide Filed, Lists, Apart, Marked, TagsKept, TagsExcept, PayloadKept, h.Tiled, h.Coalesced, h.Tagged, Head;
      hide PrevInUse, ClearPrevInUse, ChunkSize;
      hide Linked, Listed, Coalesced, Outcome, Good;
      ghost var m0, bins0 := mem, bins;
      ghost var r := Released(h, p);
      AbsorbStart(mem, h, bins, binblocks, p, back, forward);
      var hd := mem[p + 4];
      size := ClearPrevInUse(hd);
      HeadWrite(mem, r, bins, next, nextSize);
      mem := mem[next + 4 := nextSize];
      ghost var m1 := mem;
      FootStays(m0, m1, h, p, back, forward);
      ghost var a := if back then h.Use(h.before[p]) else h;
      var added;
      q, added, isRemainder := JoinBack(p, !PrevInUse(hd), a);
      size := size + added;
      ghost var was := isRemainder;
      ghost var m2 := mem;
      BitStays(m0, m1, m2, h, p, back, forward);
      var nextFree := !PrevInUse(mem[next + nextSize + 4]);
      ghost var a' := if was then h else a;
      ghost var b := if forward then a'.Use(next) else a';
      Distinct(h, |m0|, p, back, forward);
      isRemainder := JoinForward(q, next, nextFree, isRemainder, r, a', b);
      if nextFree {
        size := size + nextSize;
      }
      AbsorbTags(m0, m1, m2, mem, r, next);
      LinkedApart(mem, r, bins);
      CoalescedTiled(h, |m0|, p, back, forward);
      CoalescedOutcome(h, |m0|, p, back, forward);
      OutcomeSize(h, |m0|, hf, p, q, back, forward);
      FiledAfter(h, hf, |m0|, b, bins, p, q, back, forward, was, isRemainder);
    }

    /** Gives back a block that does not border top. */
    method FreeChunk(p: int, next: int, nextSize: int)
      requires Good(mem, h, bins, binblocks) && p in h.used && p in h.size
      requires next == h.Next(p) != h.top && next in h.size && nextSize == h.size[next]
      modifies `mem, `bins, `binblocks, `h
      ensures Good(mem, h, bins, binblocks) && h.top == old(h.top) && |mem| == old(|mem|)
      ensures Returned(old(h), h, p) && PayloadKept(old(mem), mem, Released(old(h), p))
    {
      hide Filed, Lists, Apart, Marked, TagsKept, TagsExcept, PayloadKept, h.Tiled, h.Coalesced, h.Tagged, Head;
      hide PrevInUse, ClearPrevInUse, ChunkSize;
      hide Linked, Listed, Coalesced, FreedTags, Returned, Follows;
      ghost var m0, h0, bins0, word0 := mem, h, bins, binblocks;
      ghost var back, forward := !h.AfterUsed(p), h.Next(p) !in h.used;
      ReadBlock(mem, h, p);
      ghost var hf := Coalesced(h, p, back, forward);
      var q, size, isRemainder := Absorb(p, next, nextSize, back, forward, hf);
      ghost var m3 := mem;
      CoalescedTiled(h0, |m0|, p, back, forward);
      CoalescedOutcome(h0, |m0|, p, back, forward);
      CoalescedFollows(h0, |m0|, p, back, forward);
      FreeAfter(h0, hf, |m0|, p, q, back, forward, q);
      JoinedLinked(mem, h0, hf, bins, p, q, back, forward);
      HeadWrite(mem, hf, bins, q, Head(size, true));
      mem := mem[q + 4 := Head(size, true)];
      ghost var m4 := mem;
      FootWrite(mem, hf, bins, q, size);
      mem := mem[q + size := size];
      ghost var m5 := mem;
      h := hf;
      FreedTagsFrom(m0, m3, m4, m5, h0, hf, |m0|, p, q, back, forward);
      FreedTagged(m0, m5, h0, hf, |m0|, p, q, back, forward);
      PayloadChain(m3, m4, m5, hf);
      TagsKeptExcept(m5, m5, hf);
      NothingChanged(m5, hf);
      if !isRemainder {
        Frontlink(q, size);
        PayloadChain(m3, m5, mem, hf);
      }
      TagsLater(m0, m5, mem, h0, hf, p, q, forward);
      FreedGood(m0, m3, mem, h0, hf, bins0, bins, word0, binblocks, p, q, back, forward);
      BlocksReturned(h0, hf, |m0|, p, q, back, forward);
    }

    /** Frees the block at address m; freeing null does nothing. */
    method Free(m: int)
      requires Valid() && (m == 0 || m - 8 in h.used)
      modifies `mem, `bins, `binblocks, `h, `top
      ensures Valid()
      ensures m == 0 ==> mem == old(mem) && h == old(h) && bins == old(bins) && binblocks == old(binblocks)
      ensures m != 0 ==> Returned(old(h), h, m - 8) && PayloadKept(old(mem), mem, Released(old(h), m - 8))
    {
      hide Good, PayloadKept, ClearPrevInUse, ChunkSize, Returned, Readings;
      if m == 0 {
        return;
      }
      var p := m - 8;
      FreeStart(mem, h, bins, binblocks, p);
      var hd := mem[p + 4];
      var size := ClearPrevInUse(hd);
      var next := p + size;
      var nextSize := ChunkSize(mem[next + 4]);
      if next == top {
        FreeToTop(p, next, nextSize);
      } else {
        FreeChunk(p, next, nextSize);
      }
      GoodStarted(mem, h, bins, binblocks);
    }

    /** Copies n bytes, word by word from the front; the two may overlap when the destination comes first. */
    method CopyWords(dst: int, src: int, n: nat)
      requires 0 <= dst && 0 <= src && n % 4 == 0 && dst + n <= |mem| && src + n <= |mem|
      requires dst <= src || src + n <= dst
      modifies `mem
      ensures |mem| == old(|mem|)
      ensures forall d :: 0 <= d < n && d % 4 == 0 ==> WordIn(mem, dst, d) == WordIn(old(mem), src, d)
      ensures forall a :: a < dst || a > dst + n - 4 ==> Word(mem, a) == Word(old(mem), a)
    {
      var i := 0;
      while i < n
        invariant 0 <= i <= n && i % 4 == 0 && |mem| == old(|mem|)
        invariant forall d :: 0 <= d < i && d % 4 == 0 ==> WordIn(mem, dst, d) == WordIn(old(mem), src, d)
        invariant forall a :: a < dst || a > dst + i - 4 ==> Word(mem, a) == Word(old(mem), a)
      {
        assert Word(mem, src + i) == Word(old(mem), src + i);
        mem := mem[dst + i := mem[src + i]];
        i := i + 4;
      }
    }

    /** Gives back what the block p of size bytes has beyond nb, when that makes a chunk. */
    method SplitBlock(p: int, size: int, nb: int)
      requires Resizing(mem, h, bins, binblocks, p) && h.top == top && top != INITIAL_TOP
      requires size == h.size[p] >= nb >= MINSIZE && nb % 8 == 0
      modifies `mem, `bins, `binblocks, `h, `top
      ensures Valid() && p in h.used && p in h.size && nb <= h.size[p] < nb + MINSIZE && h.used == old(h.used)
      ensures forall x :: x in h.used && x != p ==> x in h.size && x in old(h.size) && h.size[x] == old(h.size[x])
      ensures PayloadKept(old(mem), mem, h)
    {
      hide Good, PayloadKept, Released, WithSize, SetPrevInUse, Head, Returned, GoodBut;
      ghost var m0, h0 := mem, h;
      var next := p + size;
      SettleReads(mem, h, bins, binblocks, p);
      if size - nb >= MINSIZE {
        var remainder := p + nb;
        SettleCut(mem, h, bins, binblocks, p, nb, next);
        mem := mem[p + 4 := WithSize(mem[p + 4], nb)];
        mem := mem[remainder + 4 := Head(size - nb, true)];
        mem := mem[next + 4 := SetPrevInUse(mem[next + 4])];
        h := h.Split(p, nb).Use(remainder);
        ghost var m1, h1 := mem, h;
        Free(remainder + 8);
        CutGivenBack(m0, m1, mem, h0, h1, h, p, nb);
      } else {
        SettleWhole(mem, h, bins, binblocks, p, next, SetPrevInUse(mem[next + 4]));
        mem := mem[p + 4 := WithSize(mem[p + 4], size)];
        mem := mem[next + 4 := SetPrevInUse(mem[next + 4])];
      }
    }

    /** Moves the contents of the block that began at p to where it begins now. */
    method ShiftContents(p: int, oldSize: int, q: int)
      requires Resizing(mem, h, bins, binblocks, q) && q <= p && oldSize >= MINSIZE && oldSize % 8 == 0
      requires p + oldSize <= q + h.size[q]
      modifies `mem
      ensures |mem| == old(|mem|) && Resizing(mem, h, bins, binblocks, q)
      ensures PayloadKept(old(mem), mem, Released(h, q)) && SameWords(old(mem), p, mem, q, oldSize)
    {
      hide Resizing, Released, PayloadKept, SameWords, Word, WordIn, Inside;
      ghost var m0 := mem;
      ShiftRange(mem, h, bins, binblocks, q);
      FourLess(oldSize);
      CopyWords(q + 8, p + 8, oldSize - SIZE_SZ);
      CopiedInside(m0, mem, h, q, oldSize);
      InsideResizing(m0, mem, h, bins, binblocks, q);
      PayloadWords(m0, p, mem, q, oldSize);
    }

    /** The part of top that the block at p needs becomes its own. */
    method ExtendIntoTop(p: int, size: int, nb: int)
      requires Resizing(mem, h, bins, binblocks, p) && h.top == top && top != INITIAL_TOP && h.Next(p) == top
      requires size == h.size[p] + h.size[top] && nb % 8 == 0 && MINSIZE <= nb <= size - MINSIZE
      modifies `mem, `h, `top
      ensures Valid() && h.used == old(h.used) && p in h.size && h.size[p] == nb
      ensures forall x :: x in h.used && x != p ==> x in h.size && x in old(h.size) && h.size[x] == old(h.size[x])
      ensures PayloadKept(old(mem), mem, h)
    {
      hide Good, PayloadKept, WithSize, Head, Borrowed, GoodBut;
      ghost var m0, h0 := mem, h;
      BorrowReads(mem, h, bins, binblocks, p, nb);
      Borrow(mem, h, bins, binblocks, p, nb);
      top := p + nb;
      mem := mem[top + 4 := Head(size - nb, true)];
      mem := mem[p + 4 := WithSize(mem[p + 4], nb)];
      h := Borrowed(h, p, nb);
    }

    /** Takes the free chunk after the block p off its list and into the block. */
    method AbsorbNext(p: int, next: int)
      requires Good(mem, h, bins, binblocks) && p in h.used && p in h.size && next == h.Next(p) && h.Free(next)
      modifies `mem, `bins, `h
      ensures Resizing(mem, h, bins, binblocks, p) && Widened(old(h), h, p) && |mem| == old(|mem|)
      ensures h.top == old(h.top)
      ensures h.size[p] == old(h.size[p]) + old(h.size[next])
      ensures forall x :: old(h).Free(x) && x != next ==> h.Free(x) && h.size[x] == old(h.size[x])
      ensures PayloadKept(old(mem), mem, old(h))
    {
      hide Good, Filed, TagsKept, PayloadKept, Resizing, Listed, h.Merge, Without;
      ghost var m0, h0, bins0 := mem, h, bins;
      GoodParts(mem, h, bins, binblocks);
      ghost var i, k := WhereFiled(h, bins, next);
      MarkedLess(bins, binblocks, i, k);
      Unlink(next, h, i, k);
      TakeNext(m0, mem, h0, bins0, bins, binblocks, p, i, k);
      h := h.Use(next).Merge(p);
      OthersStayFree(h0, h, |m0|, p);
    }

    /** Takes the free chunk q before the block p off its list; the block begins there. */
    method AbsorbPrev(p: int, q: int)
      requires Resizing(mem, h, bins, binblocks, p) && h.Free(q) && h.Next(q) == p
      modifies `mem, `bins, `h
      ensures Resizing(mem, h, bins, binblocks, q) && Shifted(old(h), h, p, q) && |mem| == old(|mem|)
      ensures PayloadKept(old(mem), mem, old(h))
    {
      hide Filed, TagsKept, PayloadKept, Resizing, Listed, h.Merge, Without;
      ghost var m0, h0, bins0 := mem, h, bins;
      ResizingParts(mem, h, bins, binblocks, p);
      ghost var i, k := WhereFiled(h, bins, q);
      MarkedLess(bins, binblocks, i, k);
      Unlink(q, h, i, k);
      TakePrev(m0, mem, h0, h0.Use(q).Merge(q), bins0, bins, binblocks, p, q, i, k);
      h := h.Use(q).Merge(q);
    }

    /** Grows forward, into the chunk after the block. */
    method GrowForward(p: int, size: int, next: int, nextSize: int, nb: int)
      requires Growable(mem, h, bins, binblocks, top, p, size, nb) && next == p + size && h.Free(next)
      requires nextSize == h.size[next]
      requires size + nextSize >= nb
      modifies `mem, `bins, `binblocks, `h, `top
      ensures Valid() && Moved(old(mem), old(h), mem, h, p, p, nb)
    {
      hide Good, PayloadKept, Resizing, Moved;
      ghost var m0, h0 := mem, h;
      AbsorbNext(p, next);
      ghost var m1, h1 := mem, h;
      SplitBlock(p, size + nextSize, nb);
      GrownMoved(m0, m1, mem, h0, h1, h, p, nb);
    }

    /** Grows into top. */
    method GrowIntoTop(p: int, size: int, topSize: int, nb: int)
      requires Growable(mem, h, bins, binblocks, top, p, size, nb) && top == p + size && topSize == h.size[top]
      requires size + topSize >= nb + MINSIZE
      modifies `mem, `h, `top
      ensures Valid() && Moved(old(mem), old(h), mem, h, p, p, nb)
    {
      hide Good, PayloadKept, Resizing, Moved;
      ghost var m0, h0 := mem, h;
      BlocksAreChunks();
      StartResizing(mem, h, bins, binblocks, p);
      NothingChanged(mem, h);
      SameWidened(h, p);
      ExtendIntoTop(p, size + topSize, nb);
      GrownMoved(m0, m0, mem, h0, h0, h, p, nb);
    }

    /** Shifts back into the chunk before the block, having taken the one after it when that is wanted. */
    method GrowBackward(p: int, size: int, q: int, prevSize: int, next: int, nextSize: int, both: bool, nb: int)
      requires Growable(mem, h, bins, binblocks, top, p, size, nb) && h.Free(q) && h.Next(q) == p
      requires prevSize == h.size[q]
      requires both ==> next == p + size && h.Free(next) && nextSize == h.size[next]
      requires prevSize + size + (if both then nextSize else 0) >= nb
      modifies `mem, `bins, `binblocks, `h, `top
      ensures Valid() && Moved(old(mem), old(h), mem, h, p, q, nb)
    {
      hide Good, PayloadKept, Resizing, Moved, SameWords;
      ghost var m0, h0 := mem, h;
      BlocksAreChunks();
      FreeBefore(mem, h, bins, binblocks, p, q);
      StartResizing(mem, h, bins, binblocks, p);
      NothingChanged(mem, h);
      SameWidened(h, p);
      var newSize := size;
      if both {
        AbsorbNext(p, next);
        newSize := newSize + nextSize;
      }
      ghost var m1, h1 := mem, h;
      AbsorbPrev(p, q);
      newSize := newSize + prevSize;
      ghost var m2, h2 := mem, h;
      ShiftContents(p, size, q);
      ghost var m3 := mem;
      SplitBlock(q, newSize, nb);
      ShiftedMoved(m0, m1, m2, m3, mem, h0, h1, h2, h, p, q, nb);
    }

    /** Shifts back, and takes what is still missing from top. */
    method GrowBackIntoTop(p: int, size: int, q: int, prevSize: int, topSize: int, nb: int)
      requires Growable(mem, h, bins, binblocks, top, p, size, nb) && h.Free(q) && h.Next(q) == p
      requires prevSize == h.size[q]
      requires top == p + size && topSize == h.size[top] && topSize + prevSize + size >= nb + MINSIZE
      modifies `mem, `bins, `h, `top
      ensures Valid() && Moved(old(mem), old(h), mem, h, p, q, nb)
    {
      hide Good, PayloadKept, Resizing, Moved, SameWords;
      ghost var m0, h0 := mem, h;
      BlocksAreChunks();
      FreeBefore(mem, h, bins, binblocks, p, q);
      StartResizing(mem, h, bins, binblocks, p);
      NothingChanged(mem, h);
      SameWidened(h, p);
      AbsorbPrev(p, q);
      ghost var m2, h2 := mem, h;
      ShiftContents(p, size, q);
      ghost var m3 := mem;
      ExtendIntoTop(q, size + prevSize + topSize, nb);
      ShiftedMoved(m0, m0, m2, m3, mem, h0, h0, h2, h, p, q, nb);
    }

    /** Grows the block without serving another, when its neighbours give it room; returns where it is now, or 0. */
    method GrowInPlace(p: int, size: int, nb: int) returns (q: int)
      requires Growable(mem, h, bins, binblocks, top, p, size, nb)
      modifies `mem, `bins, `binblocks, `h, `top
      ensures Valid()
      ensures q == 0 ==>
        mem == old(mem) && h == old(h) && bins == old(bins) && binblocks == old(binblocks) && top == old(top)
      ensures q >= 0 && (q != 0 ==> Moved(old(mem), old(h), mem, h, p, q, nb))
      ensures q == p <==> old(Room(h, p, 0, nb))
      ensures q == 0 <==> !old(Room(h, p, Behind(h, p), nb))
    {
      hide Good, Moved, ChunkSize, PrevInUse;
      GrowReads(mem, h, bins, binblocks, top, p, size, nb);
      var next := p + size;
      var nextSize := ChunkSize(mem[next + 4]);
      var open := next == top || !PrevInUse(mem[next + nextSize + 4]);
      if next == top {
        if nextSize + size >= nb + MINSIZE {
          GrowIntoTop(p, size, nextSize, nb);
          return p;
        }
      } else if open && nextSize + size >= nb {
        GrowForward(p, size, next, nextSize, nb);
        return p;
      }
      if !PrevInUse(mem[p + 4]) {
        var prevSize := mem[p];
        var prev := p - prevSize;
        if open {
          if next == top {
            if nextSize + prevSize + size >= nb + MINSIZE {
              GrowBackIntoTop(p, size, prev, prevSize, nextSize, nb);
              return prev;
            }
          } else if nextSize + prevSize + size >= nb {
            GrowBackward(p, size, prev, prevSize, next, nextSize, true, nb);
            return prev;
          }
        }
        if prevSize + size >= nb {
          GrowBackward(p, size, prev, prevSize, next, nextSize, false, nb);
          return prev;
        }
      }
      return 0;
    }

    /** Serves a new block for what the block at p holds. */
    method GrowElsewhere(p: int, size: int, bytes: nat, nb: int) returns (q: int)
      requires Growable(mem, h, bins, binblocks, top, p, size, nb) && nb == RequestToSize(bytes)
      modifies `mem, `bins, `binblocks, `h, `top, `sbrkBase, `refusals
      ensures Valid()
      ensures q == 0 <==> refusals != old(refusals)
      ensures q == 0 ==> refusals == old(refusals) + 1 && h == old(h) && PayloadKept(old(mem), mem, old(h))
      ensures |old(bins)| == NAV && (q == 0 ==> Chosen(h, old(bins), nb, 0, NoMemory))
      ensures q != 0 ==> Moved(old(mem), old(h), mem, h, p, q - 8, nb)
    {
      hide Good, Moved, ChunkSize, PayloadKept, OnlyTopGrew, Resizing, RequestToSize, Returned, BestFit, NothingFits;
      ghost var m0, h0 := mem, h;
      ghost var source;
      BlocksAreChunks();
      q, source := Malloc(bytes);
      if q == 0 {
        return;
      }
      ghost var m1, h1 := mem, h;
      var newp := q - 8;
      BlockPositive(h0, newp, nb);
      if newp == p + size {
        JoinServed(mem, h, bins, binblocks, p, newp);
        var newSize := size + ChunkSize(mem[newp + 4]);
        h := h.Merge(p);
        ghost var g := h;
        JoinedWidened(h0, h1, g, p, newp, nb);
        SplitBlock(p, newSize, nb);
        GrownMoved(m0, m1, mem, h0, g, h, p, nb);
        return p + 8;
      }
      BlocksApart(mem, h, bins, binblocks, p, newp);
      FourLess(size);
      CopyWords(q, p + 8, size - SIZE_SZ);
      ghost var m2 := mem;
      FillServed(m1, mem, h, bins, binblocks, p, newp, size);
      Free(p + 8);
      CopiedMoved(m0, m1, m2, mem, h0, h1, h, p, newp, nb);
    }

    /**
     Resizes the block at address oldmem to at least bytes bytes and returns where it is now;
     with no block given, allocates one.  When it must grow, its neighbours and the free chunks have no room and the
     system refuses more memory, returns 0 and keeps the block.
     */
    method Realloc(oldmem: int, bytes: nat) returns (newmem: int)
      requires Valid() && (oldmem == 0 || oldmem - 8 in h.used)
      modifies `mem, `bins, `binblocks, `h, `top, `sbrkBase, `refusals
      ensures Valid()
      ensures newmem == 0 <==> refusals != old(refusals)
      ensures newmem == 0 ==> refusals == old(refusals) + 1 && h == old(h) && PayloadKept(old(mem), mem, old(h))
      ensures |old(bins)| == NAV && (newmem == 0 ==> Chosen(h, old(bins), RequestToSize(bytes), 0, NoMemory))
      ensures newmem == 0 && oldmem != 0 ==>
        var p, nb := oldmem - 8, RequestToSize(bytes);
        p in h.size && h.size[p] < nb && !Room(h, p, Behind(h, p), nb)
      ensures oldmem != 0 ==> oldmem - 8 in old(h).size
      ensures oldmem != 0 && old(h.size[oldmem - 8]) >= RequestToSize(bytes) ==> newmem == oldmem
      ensures oldmem != 0 && old(Room(h, oldmem - 8, 0, RequestToSize(bytes))) ==> newmem == oldmem
      ensures newmem != 0 && oldmem == 0 ==>
        Served(old(h), h, newmem - 8, RequestToSize(bytes)) && PayloadKept(old(mem), mem, old(h))
      ensures newmem != 0 && oldmem != 0 ==>
        Moved(old(mem), old(h), mem, h, oldmem - 8, newmem - 8, RequestToSize(bytes))
    {
      hide Good, Moved, ChunkSize, PayloadKept, OnlyTopGrew, Resizing, Served, BestFit, NothingFits;
      ValidBrowsable();
      if oldmem == 0 {
        ghost var source;
        newmem, source := Malloc(bytes);
        return;
      }
      var oldp := oldmem - 8;
      ResizeReads(mem, h, bins, binblocks, oldp);
      var oldSize := ChunkSize(mem[oldp + 4]);
      var nb := RequestToSize(bytes);
      ghost var m0, h0 := mem, h;
      if oldSize < nb {
        var newp := GrowInPlace(oldp, oldSize, nb);
        if newp != 0 {
          return newp + 8;
        }
        newmem := GrowElsewhere(oldp, oldSize, bytes, nb);
        return;
      }
      BlocksAreChunks();
      StartResizing(mem, h, bins, binblocks, oldp);
      NothingChanged(mem, h);
      SameWidened(h, oldp);
      SplitBlock(oldp, oldSize, nb);
      GrownMoved(m0, m0, mem, h0, h0, h, oldp, nb);
      newmem := oldmem;
    }
  }
}
