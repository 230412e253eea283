/**
 The allocator's global invariant over memory, bins and chunks, and the frames
 that its writes keep to.
 */
module MallocState {
  import opened MallocBins
  import opened MallocHeap
  import opened MallocFit

  /** The bin of the last remainder. */
  const LAST_REMAINDER := 1

  /** Every free chunk but top is filed: in the bin of its size, in decreasing order, or as the last remainder. */
  ghost predicate Filed(h: Heap, bins: seq<seq<int>>) {
    && |bins| == NAV && bins[0] == [] && |bins[LAST_REMAINDER]| <= 1
    && (forall i, k :: 0 <= i < NAV && 0 <= k < |bins[i]| ==> h.Free(bins[i][k]))
    && (forall i, k :: 2 <= i < NAV && 0 <= k < |bins[i]| ==>
        h.size[bins[i][k]] >= 0 && BinIndex(h.size[bins[i][k]]) == i)
    && (forall i, j, k :: 2 <= i < NAV && 0 <= j < k < |bins[i]| ==> h.size[bins[i][j]] >= h.size[bins[i][k]])
    && (forall p :: h.Free(p) ==> h.size[p] >= 0 && (p in bins[LAST_REMAINDER] || InOwnBin(h, bins, p)))
  }

  ghost predicate InOwnBin(h: Heap, bins: seq<seq<int>>, p: int)
    requires p in h.size && h.size[p] >= 0
  {
    var i := BinIndex(h.size[p]);
    0 <= i < |bins| && p in bins[i]
  }

  /** Every block that holds a nonempty bin is marked. */
  ghost predicate Marked(bins: seq<seq<int>>, word: bv32)
    requires |bins| == NAV
  {
    forall i :: 2 <= i < NAV && bins[i] != [] ==> IsMarked(i / BINBLOCKWIDTH, word)
  }

  ghost predicate Good(m: Mem, h: Heap, bins: seq<seq<int>>, word: bv32) {
    && h.Tiled(|m|) && h.Tagged(m) && h.Coalesced() && |bins| == NAV
    && Filed(h, bins) && Apart(bins) && Lists(m, bins) && Marked(bins, word)
  }

  /** The payload of every block in use reads as before. */
  ghost predicate PayloadKept(m: Mem, m': Mem, h: Heap) {
    forall p, a :: p in h.used && p in h.size && p + 8 <= a <= p + h.size[p] ==> Word(m', a) == Word(m, a)
  }

  /** The tag words of every chunk read as before. */
  ghost predicate TagsKept(m: Mem, m': Mem, h: Heap) {
    forall p :: p in h.size ==> Word(m', p + 4) == Word(m, p + 4) && Word(m', p + h.size[p]) == Word(m, p + h.size[p])
  }

  /** The links of every node read as before. */
  ghost predicate LinksKept(m: Mem, m': Mem, bins: seq<seq<int>>)
    requires |bins| == NAV
  {
    && (forall i :: 1 <= i < NAV ==> Fd(m', BinAt(i)) == Fd(m, BinAt(i)) && Bk(m', BinAt(i)) == Bk(m, BinAt(i)))
    && (forall i, k | 0 <= i < NAV && 0 <= k < |bins[i]| ::
          Fd(m', bins[i][k]) == Fd(m, bins[i][k]) && Bk(m', bins[i][k]) == Bk(m, bins[i][k]))
  }

  lemma ListsKept(m: Mem, m': Mem, bins: seq<seq<int>>)
    requires |bins| == NAV && Lists(m, bins) && LinksKept(m, m', bins)
    ensures Lists(m', bins)
  {
    forall i | 1 <= i < NAV ensures Ring(m', BinAt(i), bins[i]) {
      RingKept(m, m', BinAt(i), bins[i]);
    }
  }

  /** Tag words and link words never meet. */
  lemma TagsClearOfLinks(h: Heap, end: int, p: int, n: int)
    requires h.Tiled(end) && p in h.size && n in h.size
    ensures p + 4 != n + 8 && p + 4 != n + 12 && p + h.size[p] != n + 8 && p + h.size[p] != n + 12
  {
    hide h.Forward, h.Backward;
  }

  /** A chunk's tags and a free chunk's links lie outside the payload of every block in use. */
  lemma PayloadClear(h: Heap, end: int, p: int, q: int, a: int)
    requires h.Tiled(end) && p in h.size && q in h.used && q + 8 <= a <= q + h.size[q]
    ensures a != p + 4
    ensures p !in h.used ==> a < p + 4 || a > p + h.size[p]
  {
    hide h.Forward, h.Backward;
  }

  /** A link may be written at a bin head or at a chunk that is not in use. */
  ghost predicate Linkable(g: Heap, n: int) {
    (exists i :: 0 <= i < NAV && n == BinAt(i)) || (n in g.size && n !in g.used)
  }

  /** The bins are well linked, and list only chunks of g that are not in use. */
  ghost predicate Linked(m: Mem, g: Heap, bins: seq<seq<int>>) {
    && g.Tiled(|m|) && |bins| == NAV && Apart(bins) && Lists(m, bins)
    && forall i, k :: 0 <= i < NAV && 0 <= k < |bins[i]| ==> bins[i][k] in g.size && bins[i][k] !in g.used
  }

  lemma BelowTop(g: Heap, n: int, end: int)
    requires g.Tiled(end) && n in g.size && n != g.top
    ensures n + g.size[n] <= g.top
  {
    hide g.Forward, g.Backward;
  }

  lemma LinkableInRange(g: Heap, n: int, end: int)
    requires g.Tiled(end) && Linkable(g, n)
    ensures 0 <= n && n + 12 < end && n % 8 == 0
  {
    hide g.Forward, g.Backward, g.Ordered;
    assert g.base + 16 <= end;
    if n in g.size && n != g.top {
      BelowTop(g, n, end);
    }
  }

  /** Writing links of linkable nodes disturbs no tag and no payload. */
  lemma JoinKept(m: Mem, g: Heap, back: int, forward: int)
    requires g.Tiled(|m|) && Linkable(g, back) && Linkable(g, forward)
    ensures 0 <= back && back + 12 < |m| && 0 <= forward && forward + 12 < |m|
    ensures var m' := Joined(m, back, forward); |m'| == |m| && TagsKept(m, m', g) && PayloadKept(m, m', g)
  {
    hide Joined, Word, g.Tiled, Linkable;
    LinkableInRange(g, back, |m|);
    LinkableInRange(g, forward, |m|);
    var m' := Joined(m, back, forward);
    forall p | p in g.size
      ensures Word(m', p + 4) == Word(m, p + 4) && Word(m', p + g.size[p]) == Word(m, p + g.size[p])
    {
      LinkAwayFromTags(g, |m|, p, back);
      LinkAwayFromTags(g, |m|, p, forward);
      JoinedElsewhere(m, back, forward, p + 4);
      JoinedElsewhere(m, back, forward, p + g.size[p]);
    }
    forall p, a | p in g.used && p in g.size && p + 8 <= a <= p + g.size[p] ensures Word(m', a) == Word(m, a) {
      LinkAwayFromPayload(g, |m|, p, a, back);
      LinkAwayFromPayload(g, |m|, p, a, forward);
      JoinedElsewhere(m, back, forward, a);
    }
  }

  lemma JoinedElsewhere(m: Mem, back: int, forward: int, a: int)
    requires 0 <= back && back + 12 < |m| && 0 <= forward && forward + 12 < |m|
    requires a != back + 8 && a != forward + 12
    ensures Word(Joined(m, back, forward), a) == Word(m, a)
  {
  }

  lemma InsertedElsewhere(m: Mem, back: int, forward: int, p: int, a: int)
    requires 0 <= back && back + 12 < |m| && 0 <= forward && forward + 12 < |m| && 0 <= p && p + 12 < |m|
    requires a != back + 8 && a != forward + 12 && a != p + 8 && a != p + 12
    ensures Word(Inserted(m, back, forward, p), a) == Word(m, a)
  {
  }

  lemma LinkAwayFromTags(g: Heap, end: int, p: int, n: int)
    requires g.Tiled(end) && p in g.size && Linkable(g, n)
    ensures p + 4 != n + 8 && p + 4 != n + 12 && p + g.size[p] != n + 8 && p + g.size[p] != n + 12
  {
    if n in g.size {
      TagsClearOfLinks(g, end, p, n);
    } else {
      hide g.Forward, g.Backward, g.Ordered;
    }
  }

  lemma LinkAwayFromPayload(g: Heap, end: int, p: int, a: int, n: int)
    requires g.Tiled(end) && p in g.used && p in g.size && Linkable(g, n) && p + 8 <= a <= p + g.size[p]
    ensures a != n + 8 && a != n + 12
  {
    if n in g.size {
      hide g.Forward, g.Backward;
    } else {
      hide g.Forward, g.Backward, g.Ordered;
    }
  }

  lemma BinNodes(m: Mem, g: Heap, bins: seq<seq<int>>, i: nat)
    requires Linked(m, g, bins) && 1 <= i < NAV
    ensures Nodes(m, BinAt(i), bins[i])
    ensures forall k :: -1 <= k <= |bins[i]| ==> Linkable(g, Follow(BinAt(i), bins[i], k))
  {
    forall j | 0 <= j < |bins[i]| ensures 0 <= bins[i][j] && bins[i][j] + 12 < |m| {
      LinkableInRange(g, bins[i][j], |m|);
    }
    LinkableInRange(g, BinAt(i), |m|);
  }

  lemma UnlinkKept(m: Mem, g: Heap, bins: seq<seq<int>>, i: nat, k: nat)
    requires Linked(m, g, bins) && 1 <= i < NAV && k < |bins[i]|
    ensures var p := bins[i][k];
            && Linkable(g, Bk(m, p)) && Linkable(g, Fd(m, p))
            && 0 <= Bk(m, p) && Bk(m, p) + 12 < |m| && 0 <= Fd(m, p) && Fd(m, p) + 12 < |m|
            && var m' := Joined(m, Bk(m, p), Fd(m, p));
            && Linked(m', g, bins[i := Without(bins[i], k)]) && TagsKept(m, m', g) && PayloadKept(m, m', g)
            && !Listed(bins[i := Without(bins[i], k)], p) && 0 <= p && p + 12 < |m|
  {
    hide Joined, Fd, Bk, Linkable, Node, g.Tiled, Ring, Nodes, Apart;
    var list := bins[i];
    var back, forward := Follow(BinAt(i), list, k - 1), Follow(BinAt(i), list, k + 1);
    BinNodes(m, g, bins, i);
    RingAt(m, BinAt(i), list, k);
    JoinKept(m, g, back, forward);
    JoinOthers(m, g, bins, i, back, forward);
    UnlinkRing(m, BinAt(i), list, k);
    OtherBins(m, Joined(m, back, forward), bins, i, Without(list, k));
    WithoutApart(bins, i, k);
  }

  lemma WithoutApart(bins: seq<seq<int>>, i: nat, k: nat)
    requires Apart(bins) && i < NAV && k < |bins[i]|
    ensures Apart(bins[i := Without(bins[i], k)])
    ensures !Listed(bins[i := Without(bins[i], k)], bins[i][k])
  {
  }

  lemma JoinOthers(m: Mem, g: Heap, bins: seq<seq<int>>, i: nat, back: int, forward: int)
    requires Linked(m, g, bins) && 1 <= i < NAV
    requires back == BinAt(i) || back in bins[i]
    requires forward == BinAt(i) || forward in bins[i]
    requires 0 <= back && back + 12 < |m| && 0 <= forward && forward + 12 < |m|
    ensures var m' := Joined(m, back, forward);
            && (forall j :: 1 <= j < NAV && j != i ==>
                Fd(m', BinAt(j)) == Fd(m, BinAt(j)) && Bk(m', BinAt(j)) == Bk(m, BinAt(j)))
            && (forall j, l | 1 <= j < NAV && j != i && 0 <= l < |bins[j]| ::
                  Fd(m', bins[j][l]) == Fd(m, bins[j][l]) && Bk(m', bins[j][l]) == Bk(m, bins[j][l]))
  {
    forall j | 1 <= j < NAV && j != i
      ensures var m' := Joined(m, back, forward);
              Fd(m', BinAt(j)) == Fd(m, BinAt(j)) && Bk(m', BinAt(j)) == Bk(m, BinAt(j))
    {
      JoinedLinks(m, back, forward, BinAt(j));
    }
    forall j, l | 1 <= j < NAV && j != i && 0 <= l < |bins[j]|
      ensures var m' := Joined(m, back, forward);
              Fd(m', bins[j][l]) == Fd(m, bins[j][l]) && Bk(m', bins[j][l]) == Bk(m, bins[j][l])
    {
      JoinedLinks(m, back, forward, bins[j][l]);
    }
  }

  lemma InsertFrames(m: Mem, g: Heap, back: int, forward: int, p: int)
    requires g.Tiled(|m|) && Linkable(g, back) && Linkable(g, forward) && Linkable(g, p)
    ensures 0 <= back && back + 12 < |m| && 0 <= forward && forward + 12 < |m| && 0 <= p && p + 12 < |m|
    ensures var m' := Inserted(m, back, forward, p); |m'| == |m| && TagsKept(m, m', g) && PayloadKept(m, m', g)
  {
    hide Inserted, Word, g.Tiled, Linkable;
    LinkableInRange(g, back, |m|);
    LinkableInRange(g, forward, |m|);
    LinkableInRange(g, p, |m|);
    var m' := Inserted(m, back, forward, p);
    forall q | q in g.size
      ensures Word(m', q + 4) == Word(m, q + 4) && Word(m', q + g.size[q]) == Word(m, q + g.size[q])
    {
      LinkAwayFromTags(g, |m|, q, back);
      LinkAwayFromTags(g, |m|, q, forward);
      LinkAwayFromTags(g, |m|, q, p);
      InsertedElsewhere(m, back, forward, p, q + 4);
      InsertedElsewhere(m, back, forward, p, q + g.size[q]);
    }
    forall q, a | q in g.used && q in g.size && q + 8 <= a <= q + g.size[q] ensures Word(m', a) == Word(m, a) {
      LinkAwayFromPayload(g, |m|, q, a, back);
      LinkAwayFromPayload(g, |m|, q, a, forward);
      LinkAwayFromPayload(g, |m|, q, a, p);
      InsertedElsewhere(m, back, forward, p, a);
    }
  }

  lemma ChunkIsNode(g: Heap, end: int, p: int)
    requires g.Tiled(end) && p in g.size
    ensures Node(p) && forall i :: 0 <= i < NAV ==> p != BinAt(i)
  {
    hide g.Forward, g.Backward, g.Ordered;
  }

  lemma InsertKept(m: Mem, g: Heap, bins: seq<seq<int>>, i: nat, k: nat, p: int)
    requires Linked(m, g, bins) && 1 <= i < NAV && k <= |bins[i]|
    requires p in g.size && p !in g.used && !Listed(bins, p)
    ensures var back, forward := Follow(BinAt(i), bins[i], k - 1), Follow(BinAt(i), bins[i], k);
            && Linkable(g, back) && Linkable(g, forward)
            && 0 <= back && back + 12 < |m| && 0 <= forward && forward + 12 < |m| && 0 <= p && p + 12 < |m|
            && var m' := Inserted(m, back, forward, p);
            && Linked(m', g, bins[i := With(bins[i], k, p)]) && TagsKept(m, m', g) && PayloadKept(m, m', g)
  {
    hide Inserted, Fd, Bk, g.Tiled, Ring, Nodes, Apart;
    var list := bins[i];
    var back, forward := Follow(BinAt(i), list, k - 1), Follow(BinAt(i), list, k);
    BinNodes(m, g, bins, i);
    ChunkIsNode(g, |m|, p);
    assert p !in list;
    InsertFrames(m, g, back, forward, p);
    InsertOthers(m, g, bins, i, back, forward, p);
    InsertRing(m, BinAt(i), list, k, p);
    OtherBins(m, Inserted(m, back, forward, p), bins, i, With(list, k, p));
    WithApart(bins, i, k, p);
  }

  lemma WithApart(bins: seq<seq<int>>, i: nat, k: nat, p: int)
    requires Apart(bins) && i < NAV && k <= |bins[i]| && !Listed(bins, p) && Node(p)
    ensures Apart(bins[i := With(bins[i], k, p)])
  {
    var more := bins[i := With(bins[i], k, p)];
    forall a, b | 0 <= a < NAV && 0 <= b < |bins[a]| ensures bins[a][b] != p {
      assert bins[a][b] in bins[a];
    }
  }

  lemma InsertOthers(m: Mem, g: Heap, bins: seq<seq<int>>, i: nat, back: int, forward: int, p: int)
    requires Linked(m, g, bins) && 1 <= i < NAV && !Listed(bins, p) && p % 8 == 0 && p >= BinAt(NAV)
    requires back == BinAt(i) || back in bins[i]
    requires forward == BinAt(i) || forward in bins[i]
    requires 0 <= back && back + 12 < |m| && 0 <= forward && forward + 12 < |m| && 0 <= p && p + 12 < |m|
    ensures var m' := Inserted(m, back, forward, p);
            && (forall j :: 1 <= j < NAV && j != i ==>
                Fd(m', BinAt(j)) == Fd(m, BinAt(j)) && Bk(m', BinAt(j)) == Bk(m, BinAt(j)))
            && (forall j, l | 1 <= j < NAV && j != i && 0 <= l < |bins[j]| ::
                  Fd(m', bins[j][l]) == Fd(m, bins[j][l]) && Bk(m', bins[j][l]) == Bk(m, bins[j][l]))
  {
    forall j | 1 <= j < NAV && j != i
      ensures var m' := Inserted(m, back, forward, p);
              Fd(m', BinAt(j)) == Fd(m, BinAt(j)) && Bk(m', BinAt(j)) == Bk(m, BinAt(j))
    {
      InsertedLinks(m, back, forward, p, BinAt(j));
    }
    forall j, l | 1 <= j < NAV && j != i && 0 <= l < |bins[j]|
      ensures var m' := Inserted(m, back, forward, p);
              Fd(m', bins[j][l]) == Fd(m, bins[j][l]) && Bk(m', bins[j][l]) == Bk(m, bins[j][l])
    {
      assert bins[j][l] in bins[j];
      InsertedLinks(m, back, forward, p, bins[j][l]);
    }
  }

  /** Making p the last remainder, whatever was. */
  lemma RelinkKept(m: Mem, g: Heap, bins: seq<seq<int>>, p: int)
    requires Linked(m, g, bins) && p in g.size && p !in g.used && !Listed(bins, p)
    ensures var lr := BinAt(LAST_REMAINDER);
            && lr + 12 < |m| && 0 <= p && p + 12 < |m|
            && Linked(Inserted(m, lr, lr, p), g, bins[LAST_REMAINDER := [p]])
            && TagsKept(m, Inserted(m, lr, lr, p), g) && PayloadKept(m, Inserted(m, lr, lr, p), g)
  {
    hide Inserted, Fd, Bk, g.Tiled, Nodes, Apart;
    var lr := BinAt(LAST_REMAINDER);
    assert Linkable(g, lr);
    ChunkIsNode(g, |m|, p);
    InsertFrames(m, g, lr, lr, p);
    InsertOthers(m, g, bins, LAST_REMAINDER, lr, lr, p);
    InsertedLinks(m, lr, lr, p, lr);
    InsertedLinks(m, lr, lr, p, p);
    OtherBins(m, Inserted(m, lr, lr, p), bins, LAST_REMAINDER, [p]);
    OneApart(bins, p);
  }

  lemma OneApart(bins: seq<seq<int>>, p: int)
    requires Apart(bins) && !Listed(bins, p) && Node(p)
    ensures Apart(bins[LAST_REMAINDER := [p]])
  {
    forall a, b | 0 <= a < NAV && 0 <= b < |bins[a]| ensures bins[a][b] != p {
      assert bins[a][b] in bins[a];
    }
  }

  lemma ClearKept(m: Mem, g: Heap, bins: seq<seq<int>>)
    requires Linked(m, g, bins)
    ensures var lr := BinAt(LAST_REMAINDER);
            && lr + 12 < |m|
            && Linked(Joined(m, lr, lr), g, bins[LAST_REMAINDER := []])
            && TagsKept(m, Joined(m, lr, lr), g) && PayloadKept(m, Joined(m, lr, lr), g)
  {
    hide Joined, Fd, Bk, g.Tiled, Nodes;
    var lr := BinAt(LAST_REMAINDER);
    assert Linkable(g, lr);
    JoinKept(m, g, lr, lr);
    JoinOthers(m, g, bins, LAST_REMAINDER, lr, lr);
    JoinedLinks(m, lr, lr, lr);
    OtherBins(m, Joined(m, lr, lr), bins, LAST_REMAINDER, []);
  }

  /** The tag words read as before but for the heads of some chunks and the feet of some. */
  ghost predicate TagsExcept(m: Mem, m': Mem, g: Heap, heads: set<int>, feet: set<int>) {
    forall p :: p in g.size ==>
      && (p !in heads ==> Word(m', p + 4) == Word(m, p + 4))
      && (p !in feet ==> Word(m', p + g.size[p]) == Word(m, p + g.size[p]))
  }

  lemma HeadWrite(m: Mem, g: Heap, bins: seq<seq<int>>, p: int, v: int)
    requires Linked(m, g, bins) && p in g.size
    ensures 0 <= p && p + 4 < |m|
    ensures var m' := m[p + 4 := v];
            Linked(m', g, bins) && PayloadKept(m, m', g) && TagsExcept(m, m', g, {p}, {}) && Word(m', p + 4) == v
  {
    hide g.Tiled, Apart, Lists;
    ChunkInRange(g, p, |m|);
    var m' := m[p + 4 := v];
    forall q | q in g.size
      ensures q != p ==> Word(m', q + 4) == Word(m, q + 4)
      ensures Word(m', q + g.size[q]) == Word(m, q + g.size[q])
    {
      TagsApart(g, |m|, p, q);
    }
    forall q, a | q in g.used && q in g.size && q + 8 <= a <= q + g.size[q] ensures Word(m', a) == Word(m, a) {
      PayloadClear(g, |m|, p, q, a);
    }
    TagWriteLists(m, g, bins, p, p + 4, v);
  }

  lemma FootWrite(m: Mem, g: Heap, bins: seq<seq<int>>, p: int, v: int)
    requires Linked(m, g, bins) && p in g.size && p !in g.used && p != g.top
    ensures 0 <= p + g.size[p] < |m|
    ensures var m' := m[p + g.size[p] := v];
            Linked(m', g, bins) && PayloadKept(m, m', g) && TagsExcept(m, m', g, {}, {p})
              && Word(m', p + g.size[p]) == v
  {
    hide g.Tiled, Apart, Lists;
    ChunkInRange(g, p, |m|);
    BelowTop(g, p, |m|);
    ChunkInRange(g, g.top, |m|);
    var m' := m[p + g.size[p] := v];
    forall q | q in g.size
      ensures Word(m', q + 4) == Word(m, q + 4)
      ensures q != p ==> Word(m', q + g.size[q]) == Word(m, q + g.size[q])
    {
      TagsApart(g, |m|, q, p);
    }
    forall q, a | q in g.used && q in g.size && q + 8 <= a <= q + g.size[q] ensures Word(m', a) == Word(m, a) {
      PayloadClear(g, |m|, p, q, a);
    }
    TagWriteLists(m, g, bins, p, p + g.size[p], v);
  }

  lemma ChunkInRange(g: Heap, p: int, end: int)
    requires g.Tiled(end) && p in g.size
    ensures 0 <= p && p + 16 <= p + g.size[p] <= end && g.top in g.size
  {
    if p != g.top {
      BelowTop(g, p, end);
    }
    hide g.Forward, g.Backward, g.Ordered;
  }

  lemma TagsApart(g: Heap, end: int, p: int, q: int)
    requires g.Tiled(end) && p in g.size && q in g.size
    ensures p + 4 != q + g.size[q] && (p != q ==> p + 4 != q + 4 && p + g.size[p] != q + g.size[q])
  {
    hide g.Forward, g.Backward;
  }

  lemma TagWriteLists(m: Mem, g: Heap, bins: seq<seq<int>>, p: int, a: int, v: int)
    requires Linked(m, g, bins) && p in g.size && 0 <= a < |m| && (a == p + 4 || a == p + g.size[p])
    ensures Linked(m[a := v], g, bins)
  {
    hide g.Tiled, Apart, Ring;
    var m' := m[a := v];
    forall i | 1 <= i < NAV ensures Fd(m', BinAt(i)) == Fd(m, BinAt(i)) && Bk(m', BinAt(i)) == Bk(m, BinAt(i)) {
      LinkAwayFromTags(g, |m|, p, BinAt(i));
    }
    forall i, k | 0 <= i < NAV && 0 <= k < |bins[i]|
      ensures Fd(m', bins[i][k]) == Fd(m, bins[i][k]) && Bk(m', bins[i][k]) == Bk(m, bins[i][k])
    {
      LinkAwayFromTags(g, |m|, p, bins[i][k]);
    }
    ListsKept(m, m', bins);
  }

  lemma TagsChain(m: Mem, m': Mem, m'': Mem, g: Heap, h1: set<int>, f1: set<int>, h2: set<int>, f2: set<int>)
    requires TagsExcept(m, m', g, h1, f1) && TagsExcept(m', m'', g, h2, f2)
    ensures TagsExcept(m, m'', g, h1 + h2, f1 + f2)
  {
  }

  lemma TagsKeptExcept(m: Mem, m': Mem, g: Heap)
    ensures TagsKept(m, m', g) <==> TagsExcept(m, m', g, {}, {})
  {
  }

  lemma PayloadChain(m: Mem, m': Mem, m'': Mem, g: Heap)
    requires PayloadKept(m, m', g) && PayloadKept(m', m'', g)
    ensures PayloadKept(m, m'', g)
  {
  }

  lemma NothingChanged(m: Mem, g: Heap)
    ensures PayloadKept(m, m, g) && TagsKept(m, m, g)
  {
  }
}
