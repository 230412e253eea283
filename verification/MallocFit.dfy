/** Padding of requests, the bin a size belongs to, and the word that marks blocks of nonempty bins. */
module MallocFit {
  import opened MallocHeap

  const SIZE_SZ := 4
  const ALIGN_MASK := 7
  const MAX_SMALLBIN_SIZE := 512
  const SMALLBIN_WIDTH := 8
  const BINBLOCKWIDTH := 4

  /** The chunk size that serves a request of req bytes. */
  function RequestToSize(req: nat): (nb: int)
    ensures nb % 8 == 0 && nb >= MINSIZE && nb >= req + SIZE_SZ
    ensures nb == MINSIZE || nb < req + SIZE_SZ + 8
  {
    var padded := req + (SIZE_SZ + ALIGN_MASK);
    if padded < MINSIZE + ALIGN_MASK then MINSIZE else padded / 8 * 8
  }

  function SmallBinIndex(size: nat): int { size / 8 }

  function BinIndex(size: nat): int {
    if size / 512 == 0 then size / 8
    else if size / 512 <= 4 then 56 + size / 64
    else if size / 512 <= 20 then 91 + size / 512
    else if size / 512 <= 84 then 110 + size / 4096
    else if size / 512 <= 340 then 119 + size / 32768
    else if size / 512 <= 1364 then 124 + size / 262144
    else 126
  }

  lemma BinIndexRange(size: nat)
    ensures size >= MINSIZE ==> 2 <= BinIndex(size) <= 126
    ensures size < MAX_SMALLBIN_SIZE ==> BinIndex(size) == SmallBinIndex(size) <= 63
    ensures size >= MAX_SMALLBIN_SIZE ==> BinIndex(size) >= 64
  {
  }

  /** Larger chunks never have smaller bins. */
  lemma BinIndexMonotone(a: nat, b: nat)
    requires a <= b
    ensures BinIndex(a) <= BinIndex(b)
  {
    if a / 512 == 0 && b / 512 > 0 {
      assert a / 8 <= 63 && 64 <= BinIndex(b);
    } else if 0 < a / 512 <= 4 && b / 512 > 4 {
      assert a / 64 <= 39 && 96 <= BinIndex(b);
    } else if 4 < a / 512 <= 20 && b / 512 > 20 {
      assert 112 <= BinIndex(b);
    } else if 20 < a / 512 <= 84 && b / 512 > 84 {
      assert a / 4096 <= 10 && 120 <= BinIndex(b);
    } else if 84 < a / 512 <= 340 && b / 512 > 340 {
      assert a / 32768 <= 5 && 124 <= BinIndex(b);
    }
  }

  /** The mark of the j-th block of bins. */
  function Mark(j: nat): bv32 {
    if j == 0 then 1 else Mark(j - 1) << 1
  }

  /** Tests and moves on block marks. */
  predicate Reaches(word: bv32, block: bv32) { block <= word }
  predicate Meets(word: bv32, block: bv32) { block & word != 0 }
  function NextBlock(block: bv32): bv32 { block << 1 }
  function Cleared(word: bv32, block: bv32): bv32 { word & !block }
  function WithMark(word: bv32, block: bv32): bv32 { word | block }

  ghost predicate IsMarked(j: nat, word: bv32) {
    Meets(word, Mark(j))
  }

  lemma MarkZero(j: nat, k: nat)
    requires j <= k && Mark(j) == 0
    ensures Mark(k) == 0
    decreases k - j
  {
    if j < k {
      MarkZero(j + 1, k);
    }
  }

  lemma {:induction false} MarkPower(j: nat)
    ensures j < 32 ==> Mark(j) != 0
    ensures j >= 32 ==> Mark(j) == 0
    ensures Mark(j) & (Mark(j) - 1) == 0
  {
    assert Mark(31) == 0x8000_0000 by { MarkLast(); }
    if j < 32 && Mark(j) == 0 {
      MarkZero(j, 31);
    }
    if j >= 32 {
      assert Mark(32) == 0;
      MarkZero(32, j);
    }
    if j > 0 {
      MarkPower(j - 1);
      ShiftPower(Mark(j - 1));
    }
  }

  lemma MarkLast()
    ensures Mark(31) == 0x8000_0000
  {
    assert Mark(8) == 0x100;
    assert Mark(16) == 0x1_0000;
    assert Mark(24) == 0x100_0000;
  }

  lemma ShiftPower(b: bv32)
    requires b & (b - 1) == 0
    ensures (b << 1) & ((b << 1) - 1) == 0
  {
  }

  lemma ShiftGrows(b: bv32)
    requires b & (b - 1) == 0 && b << 1 != 0
    ensures b < b << 1
  {
  }

  lemma {:induction false} MarksOrdered(j: nat, k: nat)
    requires j < k < 32
    ensures Mark(j) < Mark(k)
  {
    MarkPower(k - 1);
    MarkPower(k);
    ShiftGrows(Mark(k - 1));
    if j < k - 1 {
      MarksOrdered(j, k - 1);
    }
  }

  lemma BelowPower(b: bv32, word: bv32)
    requires b & (b - 1) == 0 && word < b
    ensures b & word == 0
  {
  }

  lemma MarksDistinct(j: nat, k: nat)
    requires j < 32 && k < 32 && j != k
    ensures Mark(j) & Mark(k) == 0
  {
    if j < k {
      MarksOrdered(j, k);
      MarkPower(k);
      BelowPower(Mark(k), Mark(j));
      assert Mark(j) & Mark(k) == Mark(k) & Mark(j);
    } else {
      MarksOrdered(k, j);
      MarkPower(j);
      BelowPower(Mark(j), Mark(k));
    }
  }

  /** When the mark of block j exceeds the word, no later block is marked. */
  lemma NoneMarked(j: nat, k: nat, word: bv32)
    requires j <= k < 32 && !Reaches(word, Mark(j))
    ensures !IsMarked(k, word)
  {
    if j < k {
      MarksOrdered(j, k);
    }
    MarkPower(k);
    BelowPower(Mark(k), word);
  }

  /** Clearing one mark leaves the others. */
  lemma ClearOther(j: nat, b: nat, word: bv32)
    requires j < 32 && b < 32 && j != b && IsMarked(j, word)
    ensures IsMarked(j, Cleared(word, Mark(b)))
  {
    MarksDistinct(j, b);
    ClearOtherBits(Mark(j), Mark(b), word);
  }

  lemma ClearOtherBits(a: bv32, b: bv32, word: bv32)
    requires a & b == 0
    ensures a & (word & !b) == a & word
  {
  }

  /** Setting a mark sets it and clears no other. */
  lemma SetMarks(j: nat, b: nat, word: bv32)
    requires j < 32 && (j == b || IsMarked(j, word))
    ensures IsMarked(j, WithMark(word, Mark(b)))
  {
    MarkPower(j);
    SetBits(Mark(j), word, Mark(b));
  }

  lemma SetBits(a: bv32, word: bv32, b: bv32)
    requires a & word != 0 || (a == b && b != 0)
    ensures a & (word | b) != 0
  {
  }

  /** A word that reaches block j but does not mark it reaches the next one. */
  lemma SomeMarkedAbove(j: nat, word: bv32)
    requires Reaches(word, Mark(j)) && !IsMarked(j, word) && j < 32
    ensures j + 1 < 32 && Reaches(word, Mark(j + 1)) && Mark(j + 1) == NextBlock(Mark(j))
  {
    MarkPower(j);
    MarkPower(j + 1);
    NextReached(Mark(j), word);
  }

  lemma NextReached(b: bv32, word: bv32)
    requires b & (b - 1) == 0 && b != 0 && b <= word && b & word == 0
    ensures b << 1 != 0 && b << 1 <= word
  {
  }

  lemma MarkNext(j: nat)
    requires 0 < j <= 32
    ensures Mark(j) == NextBlock(Mark(j - 1)) && (Mark(j) != 0 <==> j < 32)
  {
    MarkPower(j);
  }

  lemma ZeroReachesNone(j: nat)
    requires j < 32
    ensures !Reaches(0, Mark(j))
  {
    MarkPower(j);
  }
}
