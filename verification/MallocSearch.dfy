/** Which bins can hold a chunk that fits, and how frontlink keeps bins ordered and marked. */
module MallocSearch {
  import opened MallocBins
  import opened MallocHeap
  import opened MallocFit
  import opened MallocState

  /** No chunk in the bins below idx fits. */
  ghost predicate NoFitBelow(h: Heap, bins: seq<seq<int>>, nb: int, idx: int)
    requires Filed(h, bins)
  {
    forall j, k :: 2 <= j < idx && j < NAV && 0 <= k < |bins[j]| ==> h.size[bins[j][k]] < nb
  }

  /** From idx on, every nonempty bin holds a chunk that fits. */
  ghost predicate FitsFrom(h: Heap, bins: seq<seq<int>>, nb: int, idx: int)
    requires Filed(h, bins)
  {
    forall j :: 2 <= idx <= j < NAV && bins[j] != [] ==> h.size[bins[j][0]] >= nb
  }

  /** The bins of smaller index hold only smaller chunks, and those of larger index only larger ones. */
  lemma BinsAround(h: Heap, bins: seq<seq<int>>, nb: nat)
    requires Filed(h, bins)
    ensures NoFitBelow(h, bins, nb, BinIndex(nb))
    ensures FitsFrom(h, bins, nb, BinIndex(nb) + 1)
  {
    forall j, k | 2 <= j < BinIndex(nb) && j < NAV && 0 <= k < |bins[j]| ensures h.size[bins[j][k]] < nb {
      if h.size[bins[j][k]] >= nb {
        BinIndexMonotone(nb, h.size[bins[j][k]]);
      }
    }
    forall j | 2 <= BinIndex(nb) + 1 <= j < NAV && bins[j] != [] ensures h.size[bins[j][0]] >= nb {
      if h.size[bins[j][0]] < nb {
        BinIndexMonotone(h.size[bins[j][0]], nb);
      }
    }
  }

  lemma SkipEmpty(h: Heap, bins: seq<seq<int>>, nb: int, i: nat)
    requires Filed(h, bins) && 2 <= i < NAV && bins[i] == []
    ensures NoFitBelow(h, bins, nb, i) ==> NoFitBelow(h, bins, nb, i + 1)
    ensures FitsFrom(h, bins, nb, i) ==> FitsFrom(h, bins, nb, i + 1)
    ensures FitsFrom(h, bins, nb, i + 1) ==> FitsFrom(h, bins, nb, i)
  {
    hide Filed;
    assert |bins| == NAV by { FiledBins(h, bins); }
  }

  /** A bin all of whose chunks are too small is empty when its largest should fit. */
  lemma EmptyOrFits(h: Heap, bins: seq<seq<int>>, nb: int, i: nat)
    requires Filed(h, bins) && 2 <= i < NAV && FitsFrom(h, bins, nb, i)
    requires forall l :: 0 <= l < |bins[i]| ==> h.size[bins[i][l]] < nb
    ensures bins[i] == []
  {
  }

  /** An unmarked block is skipped; some later block is marked. */
  lemma SkipBlock(h: Heap, bins: seq<seq<int>>, nb: int, i: nat, word: bv32)
    requires Filed(h, bins) && |bins| == NAV && Marked(bins, word) && 4 <= i < NAV
    requires NoFitBelow(h, bins, nb, i) && FitsFrom(h, bins, nb, i)
    requires var b := i / BINBLOCKWIDTH; Reaches(word, Mark(b)) && !IsMarked(b, word)
    ensures var next := i / BINBLOCKWIDTH * BINBLOCKWIDTH + BINBLOCKWIDTH;
            && next < NAV && Mark(next / BINBLOCKWIDTH) == NextBlock(Mark(i / BINBLOCKWIDTH))
            && Reaches(word, Mark(next / BINBLOCKWIDTH))
            && NoFitBelow(h, bins, nb, next) && FitsFrom(h, bins, nb, next)
  {
    hide Filed, NoFitBelow, FitsFrom, IsMarked, Mark, Reaches, NextBlock;
    SomeMarkedAbove(i / BINBLOCKWIDTH, word);
    SkipToBlockEnd(h, bins, nb, i, word, i);
  }

  lemma SkipToBlockEnd(h: Heap, bins: seq<seq<int>>, nb: int, i: nat, word: bv32, j: nat)
    requires Filed(h, bins) && |bins| == NAV && Marked(bins, word) && 4 <= i <= j < NAV
    requires j / BINBLOCKWIDTH == i / BINBLOCKWIDTH && !IsMarked(i / BINBLOCKWIDTH, word)
    requires NoFitBelow(h, bins, nb, j) && FitsFrom(h, bins, nb, j)
    ensures var next := i / BINBLOCKWIDTH * BINBLOCKWIDTH + BINBLOCKWIDTH;
            NoFitBelow(h, bins, nb, next) && FitsFrom(h, bins, nb, next)
    decreases NAV - j
  {
    hide Filed, NoFitBelow, FitsFrom, IsMarked;
    assert bins[j] == [];
    SkipEmpty(h, bins, nb, j);
    if (j + 1) / BINBLOCKWIDTH == i / BINBLOCKWIDTH {
      SkipToBlockEnd(h, bins, nb, i, word, j + 1);
    } else {
      assert j + 1 == i / BINBLOCKWIDTH * BINBLOCKWIDTH + BINBLOCKWIDTH;
    }
  }

  /** Past the last marked block nothing fits. */
  lemma NothingLeft(h: Heap, bins: seq<seq<int>>, nb: int, i: nat, word: bv32)
    requires Filed(h, bins) && |bins| == NAV && Marked(bins, word) && 4 <= i <= NAV
    requires NoFitBelow(h, bins, nb, i)
    requires i < NAV ==> !Reaches(word, Mark(i / BINBLOCKWIDTH))
    ensures NoFitBelow(h, bins, nb, NAV)
  {
    hide Filed, Mark, Reaches, Marked;
    if i < NAV {
      UnmarkedEmpty(bins, word, i);
    }
  }

  lemma FiledOnce(h: Heap, bins: seq<seq<int>>)
    requires Filed(h, bins)
    ensures |bins| == NAV && |bins[LAST_REMAINDER]| <= 1
  {
  }

  lemma FiledBins(h: Heap, bins: seq<seq<int>>)
    requires Filed(h, bins)
    ensures |bins| == NAV
  {
  }

  lemma SkipOne(h: Heap, bins: seq<seq<int>>, nb: nat)
    requires Filed(h, bins) && 2 <= BinIndex(nb) < NAV
    requires NoFitBelow(h, bins, nb, BinIndex(nb))
    requires var list := bins[BinIndex(nb)]; forall l :: 0 <= l < |list| ==> h.size[list[l]] < nb
    ensures NoFitBelow(h, bins, nb, BinIndex(nb) + 1)
    ensures NoExact(h, bins, nb)
  {
    hide BinIndex;
  }

  lemma RescanOne(h: Heap, bins: seq<seq<int>>, nb: nat, k: nat)
    requires Filed(h, bins) && 2 <= BinIndex(nb) < NAV && k < |bins[BinIndex(nb)]|
    requires FitsFrom(h, bins, nb, BinIndex(nb) + 1)
    requires var list := bins[BinIndex(nb)];
             h.size[list[k]] >= nb + MINSIZE && forall l :: k < l < |list| ==> h.size[list[l]] < nb
    ensures FitsFrom(h, bins, nb, BinIndex(nb))
    ensures NoExact(h, bins, nb)
  {
    hide BinIndex;
    var list := bins[BinIndex(nb)];
    assert k > 0 ==> h.size[list[0]] >= h.size[list[k]];
    forall l | 0 <= l < |list| ensures h.size[list[l]] < nb || h.size[list[l]] >= nb + MINSIZE {
      if l < k {
        assert h.size[list[l]] >= h.size[list[k]];
      }
    }
  }

  /** The bin of the request's size has no chunk that exceeds it by less than MINSIZE. */
  ghost predicate NoExact(h: Heap, bins: seq<seq<int>>, nb: nat)
    requires Filed(h, bins)
  {
    var i := BinIndex(nb);
    0 <= i < NAV && forall l :: 0 <= l < |bins[i]| ==> h.size[bins[i][l]] < nb || h.size[bins[i][l]] >= nb + MINSIZE
  }

  /** An exact fit: the smallest chunk that fits, at place k of bin i, with no room for another chunk. */
  ghost predicate FoundAt(h: Heap, bins: seq<seq<int>>, nb: int, c: int, i: nat, k: nat)
    requires Filed(h, bins)
  {
    && 2 <= i < NAV && k < |bins[i]| && bins[i][k] == c
    && SmallestFit(h, bins, nb, c) && h.size[c] < nb + MINSIZE
  }

  /** There was no exact fit, and bins from idx on hold all that fits. */
  ghost predicate GoOnFrom(h: Heap, bins: seq<seq<int>>, nb: nat, idx: int)
    requires Filed(h, bins)
  {
    && 4 <= idx < NAV && NoFitBelow(h, bins, nb, idx) && FitsFrom(h, bins, nb, idx) && NoExact(h, bins, nb)
    && (idx > BinIndex(nb) || (idx == BinIndex(nb) && bins[idx] != []))
  }

  /** Filing a last remainder that is too small does not change where to go on. */
  lemma AfterRemainder(h: Heap, bins0: seq<seq<int>>, bins: seq<seq<int>>, nb: nat, idx: int)
    requires Filed(h, bins0) && Filed(h, bins) && GoOnFrom(h, bins0, nb, idx) && bins[LAST_REMAINDER] == []
    requires forall p :: p in bins0[LAST_REMAINDER] ==> h.size[p] < nb
    requires nb >= MINSIZE
    ensures NoFitBelow(h, bins, nb, idx) && FitsFrom(h, bins, nb, idx)
  {
    hide Filed, NoFitBelow, FitsFrom, BinIndex;
    FiledBins(h, bins);
    BinIndexRange(nb);
    NoFitAfter(h, bins0, bins, nb, idx);
    BinsAround(h, bins, nb);
    FitsLater(h, bins, nb, idx);
    if idx == BinIndex(nb) {
      FirstStillFits(h, bins0, bins, nb, idx);
      FitsAlso(h, bins, nb, idx);
    }
  }

  lemma NoFitAfter(h: Heap, bins0: seq<seq<int>>, bins: seq<seq<int>>, nb: nat, idx: int)
    requires Filed(h, bins0) && Filed(h, bins) && NoFitBelow(h, bins0, nb, idx) && 4 <= idx < NAV
    requires forall p :: p in bins0[LAST_REMAINDER] ==> h.size[p] < nb
    ensures NoFitBelow(h, bins, nb, idx)
  {
    hide BinIndex;
    forall j, k | 2 <= j < idx && j < NAV && 0 <= k < |bins[j]| ensures h.size[bins[j][k]] < nb {
      var p := bins[j][k];
      assert h.Free(p);
      if p !in bins0[LAST_REMAINDER] {
        var l :| 0 <= l < |bins0[j]| && bins0[j][l] == p;
      }
    }
  }

  lemma FirstStillFits(h: Heap, bins0: seq<seq<int>>, bins: seq<seq<int>>, nb: nat, i: int)
    requires Filed(h, bins0) && Filed(h, bins) && 4 <= i < NAV && FitsFrom(h, bins0, nb, i) && bins0[i] != []
    requires bins[LAST_REMAINDER] == []
    ensures bins[i] != [] && h.size[bins[i][0]] >= nb
  {
    hide BinIndex;
    var p := bins0[i][0];
    assert h.Free(p) && h.size[p] >= nb;
    var l :| 0 <= l < |bins[i]| && bins[i][l] == p;
  }

  lemma FitsLater(h: Heap, bins: seq<seq<int>>, nb: nat, i: int)
    requires Filed(h, bins) && FitsFrom(h, bins, nb, BinIndex(nb) + 1) && BinIndex(nb) >= 1
    ensures i > BinIndex(nb) ==> FitsFrom(h, bins, nb, i)
  {
    hide Filed, BinIndex;
    FiledBins(h, bins);
  }

  lemma FitsAlso(h: Heap, bins: seq<seq<int>>, nb: int, i: nat)
    requires Filed(h, bins) && 2 <= i < |bins| && FitsFrom(h, bins, nb, i + 1)
    requires (bins[i] != [] ==> h.size[bins[i][0]] >= nb)
    ensures FitsFrom(h, bins, nb, i)
  {
  }

  /** Among all free chunks but the last remainder, c is the smallest that nb bytes fit in. */
  ghost predicate BestFit(h: Heap, bins: seq<seq<int>>, nb: int, c: int)
    requires |bins| == NAV
  {
    && h.Free(c) && c !in bins[LAST_REMAINDER] && h.size[c] >= nb
    && forall q :: h.Free(q) && q !in bins[LAST_REMAINDER] && h.size[q] >= nb ==> h.size[c] <= h.size[q]
  }

  /** No free chunk, the last remainder included, has room for nb bytes. */
  ghost predicate NothingFits(h: Heap, nb: int) {
    forall q :: h.Free(q) ==> h.size[q] < nb
  }

  lemma SmallestIsBest(h: Heap, bins: seq<seq<int>>, nb: int, i: nat, k: nat)
    requires Filed(h, bins) && Apart(bins) && 2 <= i < NAV && k < |bins[i]| && SmallestFit(h, bins, nb, bins[i][k])
    ensures BestFit(h, bins, nb, bins[i][k])
  {
    BinIndexInRange(h, bins);
    hide BinIndex;
    forall q | h.Free(q) && q !in bins[LAST_REMAINDER] && h.size[q] >= nb ensures h.size[bins[i][k]] <= h.size[q] {
      var j := BinIndex(h.size[q]);
      var l :| 0 <= l < |bins[j]| && bins[j][l] == q;
    }
  }

  /** Own bins are never the bin of the last remainder, since chunks have at least MINSIZE bytes. */
  lemma BinIndexInRange(h: Heap, bins: seq<seq<int>>)
    requires Filed(h, bins)
    ensures forall q :: h.Free(q) && q !in bins[LAST_REMAINDER] ==> h.size[q] >= 0 && 1 <= BinIndex(h.size[q])
  {
    forall q | h.Free(q) && q !in bins[LAST_REMAINDER] ensures h.size[q] >= 0 && 1 <= BinIndex(h.size[q]) {
      assert InOwnBin(h, bins, q);
      assert bins[0] == [];
    }
  }

  lemma NoneLeft(h: Heap, bins: seq<seq<int>>, nb: int)
    requires Filed(h, bins) && bins[LAST_REMAINDER] == [] && NoFitBelow(h, bins, nb, NAV)
    ensures NothingFits(h, nb)
  {
    BinIndexInRange(h, bins);
    hide BinIndex;
    forall q | h.Free(q) ensures h.size[q] < nb {
      var j := BinIndex(h.size[q]);
      var l :| 0 <= l < |bins[j]| && bins[j][l] == q;
      assert j == 1 ==> false;
    }
  }

  /** Blocks whose mark is beyond the word have no chunks. */
  lemma UnmarkedEmpty(bins: seq<seq<int>>, word: bv32, idx: nat)
    requires |bins| == NAV && Marked(bins, word) && idx < NAV && !Reaches(word, Mark(idx / BINBLOCKWIDTH))
    ensures forall j :: 2 <= j < NAV && idx <= j ==> bins[j] == []
  {
    hide IsMarked, Mark, Reaches, Cleared, WithMark;
    forall j | 2 <= j < NAV && idx <= j ensures bins[j] == [] {
      NoneMarked(idx / BINBLOCKWIDTH, j / BINBLOCKWIDTH, word);
    }
  }

  /** Clearing the mark of a block whose bins are empty. */
  lemma ClearMark(bins: seq<seq<int>>, word: bv32, b: nat)
    requires |bins| == NAV && Marked(bins, word) && b < 32
    requires forall j :: 4 * b <= j < 4 * b + 4 && j >= 2 ==> bins[j] == []
    ensures Marked(bins, Cleared(word, Mark(b)))
  {
    hide IsMarked, Mark, Reaches, Cleared, WithMark;
    forall i | 2 <= i < NAV && bins[i] != [] ensures IsMarked(i / BINBLOCKWIDTH, Cleared(word, Mark(b))) {
      ClearOther(i / BINBLOCKWIDTH, b, word);
    }
  }

  lemma SetMark(bins: seq<seq<int>>, word: bv32, i: nat, list: seq<int>)
    requires |bins| == NAV && Marked(bins, word) && i < NAV
    ensures Marked(bins[i := list], WithMark(word, Mark(i / BINBLOCKWIDTH)))
  {
    hide IsMarked, Mark, Reaches, Cleared, WithMark;
    forall j | 2 <= j < NAV && bins[i := list][j] != []
      ensures IsMarked(j / BINBLOCKWIDTH, WithMark(word, Mark(i / BINBLOCKWIDTH)))
    {
      SetMarks(j / BINBLOCKWIDTH, i / BINBLOCKWIDTH, word);
    }
  }

  /** A bin that was not empty is already marked. */
  lemma KeepMark(bins: seq<seq<int>>, word: bv32, i: nat, list: seq<int>)
    requires |bins| == NAV && Marked(bins, word) && 2 <= i < NAV && bins[i] != []
    ensures Marked(bins[i := list], word)
  {
    hide IsMarked;
  }

  /** Filing the chunk p of g at place k of its bin. */
  lemma FileKept(g: Heap, bins: seq<seq<int>>, k: nat, p: int)
    requires g.Free(p) && g.size[p] >= MINSIZE && Filed(g.Use(p), bins)
    requires var i := BinIndex(g.size[p]); 2 <= i < NAV && k <= |bins[i]|
    requires var i := BinIndex(g.size[p]); forall j :: 0 <= j < k ==> g.size[bins[i][j]] >= g.size[p]
    requires var i := BinIndex(g.size[p]); forall j :: k <= j < |bins[i]| ==> g.size[bins[i][j]] <= g.size[p]
    ensures var i := BinIndex(g.size[p]); Filed(g, bins[i := With(bins[i], k, p)])
  {
    hide BinIndex;
    var i := BinIndex(g.size[p]);
    var more := bins[i := With(bins[i], k, p)];
    assert With(bins[i], k, p)[k] == p;
    FileSorted(g, bins, k, p);
    forall q | g.Free(q) ensures g.size[q] >= 0 && (q in more[LAST_REMAINDER] || InOwnBin(g, more, q)) {
      if q != p {
        assert g.Use(p).Free(q);
        StillThere(bins, i, k, p, q);
      }
    }
  }

  lemma FileSorted(g: Heap, bins: seq<seq<int>>, k: nat, p: int)
    requires g.Free(p) && g.size[p] >= MINSIZE && Filed(g.Use(p), bins)
    requires var i := BinIndex(g.size[p]); 2 <= i < NAV && k <= |bins[i]|
    requires var i := BinIndex(g.size[p]); forall j :: 0 <= j < k ==> g.size[bins[i][j]] >= g.size[p]
    requires var i := BinIndex(g.size[p]); forall j :: k <= j < |bins[i]| ==> g.size[bins[i][j]] <= g.size[p]
    ensures var i := BinIndex(g.size[p]);
            var list := With(bins[i], k, p);
            && (forall j :: 0 <= j < |list| ==>
                g.Free(list[j]) && g.size[list[j]] >= 0 && BinIndex(g.size[list[j]]) == i)
            && (forall j, l :: 0 <= j < l < |list| ==> g.size[list[j]] >= g.size[list[l]])
  {
    hide BinIndex;
    var i := BinIndex(g.size[p]);
    var list := With(bins[i], k, p);
    forall j | 0 <= j < |list| ensures g.Free(list[j]) && g.size[list[j]] >= 0 && BinIndex(g.size[list[j]]) == i {
      if j != k {
        assert list[j] == bins[i][if j < k then j else j - 1];
      }
    }
  }

  lemma StillThere(bins: seq<seq<int>>, i: nat, k: nat, p: int, q: int)
    requires |bins| == NAV && i < NAV && k <= |bins[i]|
    ensures forall j :: 0 <= j < NAV && q in bins[j] ==> q in bins[i := With(bins[i], k, p)][j]
  {
    if q in bins[i] {
      var l :| 0 <= l < |bins[i]| && bins[i][l] == q;
      assert With(bins[i], k, p)[if l < k then l else l + 1] == q;
    }
  }

  /** The chunk c is the smallest of those in the bins that nb bytes fit in. */
  ghost predicate SmallestFit(h: Heap, bins: seq<seq<int>>, nb: int, c: int)
    requires Filed(h, bins)
  {
    && c in h.size && h.size[c] >= nb
    && forall j, l :: 2 <= j < NAV && 0 <= l < |bins[j]| && h.size[bins[j][l]] >= nb ==> h.size[c] <= h.size[bins[j][l]]
  }

  /** The last fitting chunk of the first bin that has one is the smallest fit. */
  lemma FitIsSmallest(h: Heap, bins: seq<seq<int>>, nb: int, i: nat, k: nat)
    requires Filed(h, bins) && 2 <= i < NAV && k < |bins[i]| && h.size[bins[i][k]] >= nb
    requires forall l :: k < l < |bins[i]| ==> h.size[bins[i][l]] < nb
    requires NoFitBelow(h, bins, nb, i)
    ensures SmallestFit(h, bins, nb, bins[i][k])
  {
    hide BinIndex;
    var c := bins[i][k];
    forall j, l | 2 <= j < NAV && 0 <= l < |bins[j]| && h.size[bins[j][l]] >= nb
      ensures h.size[c] <= h.size[bins[j][l]]
    {
      if j > i && h.size[bins[j][l]] < h.size[c] {
        BinIndexMonotone(h.size[bins[j][l]], h.size[c]);
      }
    }
  }
}
