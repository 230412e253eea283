/**
 The kernel's small blocks of openblt/kernel/memory.c: kmallocP carves blocks of one size from pages and prefers
 blocks that kfreeP has chained; the chain runs through the first words of the free blocks.
 */
module KernelPools {

  type Address = int

  const PAGE := 4096

  predicate PoolSize(size: int) {
    size == 16 || size == 32 || size == 64 || size == 96 || size == 128 || size == 192 || size == 256
  }

  function PerPage(size: int): (n: nat)
    requires PoolSize(size)
    ensures n > 1
  {
    4096 / size
  }

  /** Block k of a page. */
  function BlockOf(page: Address, size: int, k: int): Address { page + k * size }

  predicate Pages(pages: seq<Address>) {
    && (forall i | 0 <= i < |pages| :: pages[i] > 0 && pages[i] % PAGE == 0)
    && (forall i, j | 0 <= i < j < |pages| :: pages[i] != pages[j])
  }

  /** Block b has been cut off: it is on a page before the last, or among the first of the last page. */
  ghost predicate Carved(pages: seq<Address>, size: int, fresh_: int, b: Address)
    requires PoolSize(size)
  {
    exists i, k {:trigger BlockOf(pages[i], size, k)} ::
      && 0 <= i < |pages| && 0 <= k < PerPage(size) && (i < |pages| - 1 || k < PerPage(size) - fresh_)
      && b == BlockOf(pages[i], size, k)
  }

  lemma BlockInPage(page: Address, size: int, k: int)
    requires PoolSize(size) && 0 <= k < PerPage(size)
    ensures page <= BlockOf(page, size, k) && BlockOf(page, size, k) + size <= page + PAGE
  {
  }

  /** Different blocks do not overlap. */
  lemma BlocksApart(pages: seq<Address>, size: int, i: int, k: int, j: int, l: int)
    requires Pages(pages) && PoolSize(size) && 0 <= i < |pages| && 0 <= j < |pages|
    requires 0 <= k < PerPage(size) && 0 <= l < PerPage(size)
    ensures var a, b := BlockOf(pages[i], size, k), BlockOf(pages[j], size, l);
      (i == j && k == l) || a + size <= b || b + size <= a
  {
    BlockInPage(pages[i], size, k);
    BlockInPage(pages[j], size, l);
    if i == j {
      SamePageApart(pages[i], size, k, l);
    } else {
      PagesApart(pages, i, j);
    }
  }

  lemma SamePageApart(page: Address, size: int, k: int, l: int)
    requires PoolSize(size)
    ensures k < l ==> BlockOf(page, size, k) + size <= BlockOf(page, size, l)
    ensures l < k ==> BlockOf(page, size, l) + size <= BlockOf(page, size, k)
  {
  }

  lemma PagesApart(pages: seq<Address>, i: int, j: int)
    requires Pages(pages) && 0 <= i < |pages| && 0 <= j < |pages| && i != j
    ensures pages[i] + PAGE <= pages[j] || pages[j] + PAGE <= pages[i]
  {
    assert pages[i] != pages[j];
    MultiplesApart(pages[i], pages[j]);
  }

  lemma MultiplesApart(a: int, b: int)
    requires a % PAGE == 0 && b % PAGE == 0 && a != b
    ensures a + PAGE <= b || b + PAGE <= a
  {
  }

  /** Cutting off the next block makes it carved, and no other. */
  lemma CarveNext(pages: seq<Address>, size: int, fresh_: int, b: Address)
    requires PoolSize(size) && Pages(pages) && pages != [] && 0 < fresh_ <= PerPage(size)
    ensures var next := BlockOf(pages[|pages| - 1], size, PerPage(size) - fresh_);
      && !Carved(pages, size, fresh_, next)
      && (Carved(pages, size, fresh_ - 1, b) <==> Carved(pages, size, fresh_, b) || b == next)
  {
    hide BlockOf, PerPage, Pages;
    var last, n := |pages| - 1, PerPage(size) - fresh_;
    var next := BlockOf(pages[last], size, n);
    if Carved(pages, size, fresh_, next) {
      var i, k :| 0 <= i < |pages| && 0 <= k < PerPage(size) && (i < last || k < n)
        && next == BlockOf(pages[i], size, k);
      BlocksApart(pages, size, i, k, last, n);
    }
    if Carved(pages, size, fresh_ - 1, b) {
      var i, k :| 0 <= i < |pages| && 0 <= k < PerPage(size) && (i < last || k < n + 1)
        && b == BlockOf(pages[i], size, k);
      assert b == next || i < last || k < n;
    }
  }

  /** A further page starts whole. */
  lemma CarvePage(pages: seq<Address>, size: int, page: Address, b: Address)
    requires PoolSize(size)
    ensures Carved(pages, size, 0, b) <==> Carved(pages + [page], size, PerPage(size), b)
  {
    hide BlockOf, PerPage;
    var more := pages + [page];
    if Carved(pages, size, 0, b) {
      var i, k :| 0 <= i < |pages| && 0 <= k < PerPage(size) && b == BlockOf(pages[i], size, k);
      assert b == BlockOf(more[i], size, k);
    }
    if Carved(more, size, PerPage(size), b) {
      var i, k :| 0 <= i < |more| && 0 <= k < PerPage(size) && i < |more| - 1 && b == BlockOf(more[i], size, k);
      assert b == BlockOf(pages[i], size, k);
    }
  }

  lemma PageJoins(pages: seq<Address>, page: Address)
    requires Pages(pages) && page > 0 && page % PAGE == 0 && page !in pages
    ensures Pages(pages + [page])
  {
  }

  function Next(free: seq<Address>, k: int): Address
    requires 0 <= k < |free|
  {
    if k + 1 < |free| then free[k + 1] else 0
  }

  /** The chain of free blocks. */
  ghost predicate Chained(mem: map<Address, Address>, first: Address, free: seq<Address>) {
    && first == (if free == [] then 0 else free[0])
    && (forall k | 0 <= k < |free| :: free[k] != 0 && free[k] in mem && mem[free[k]] == Next(free, k))
    && (forall j, k | 0 <= j < k < |free| :: free[j] != free[k])
  }

  lemma ChainPopped(mem: map<Address, Address>, first: Address, free: seq<Address>)
    requires Chained(mem, first, free) && free != []
    ensures first == free[0] && first in mem && Chained(mem, mem[first], free[1..]) && first !in free[1..]
  {
    var rest := free[1..];
    assert mem[free[0]] == Next(free, 0);
    forall k | 0 <= k < |rest| ensures rest[k] in mem && mem[rest[k]] == Next(rest, k) && rest[k] != 0 {
      assert rest[k] == free[k + 1];
      assert mem[free[k + 1]] == Next(free, k + 1);
    }
  }

  lemma ChainPushed(mem: map<Address, Address>, first: Address, free: seq<Address>, b: Address)
    requires Chained(mem, first, free) && b != 0 && b !in free
    ensures Chained(mem[b := first], b, [b] + free)
  {
    var e := [b] + free;
    var m := mem[b := first];
    forall k | 0 <= k < |e| ensures e[k] != 0 && e[k] in m && m[e[k]] == Next(e, k) {
      if k > 0 {
        assert e[k] == free[k - 1] && free[k - 1] != b;
        assert mem[free[k - 1]] == Next(free, k - 1);
      }
    }
  }

  function Times(n: nat, size: nat): nat { if n == 0 then 0 else Times(n - 1, size) + size }

  class Pool {
    const size: int
    var usedCount: int
    var freshCount: int
    var freeCount: int
    var freeChain: Address
    var freshChain: Address
    var mem: map<Address, Address>
    ghost var pages: seq<Address>
    ghost var free: seq<Address>
    ghost var live: set<Address>

    ghost predicate Valid()
      reads this
    {
      && PoolSize(size) && Pages(pages) && pages != [] && 0 < freshCount <= PerPage(size)
      && freshChain == BlockOf(pages[|pages| - 1], size, PerPage(size) - freshCount)
      && Chained(mem, freeChain, free)
      && (forall b :: b in live || b in free <==> Carved(pages, size, freshCount, b))
      && (forall b :: !(b in live && b in free))
      && usedCount == |live| && freeCount == |free|
      && usedCount + freeCount + freshCount == Times(|pages|, PerPage(size))
    }

    /** memory_init gives each pool its first page. */
    constructor (size: int, page: Address)
      requires PoolSize(size) && page > 0 && page % PAGE == 0
      ensures Valid() && this.size == size && live == {} && pages == [page]
    {
      this.size := size;
      usedCount, freshCount, freeCount := 0, PerPage(size), 0;
      freeChain, freshChain := 0, page;
      mem, pages, free, live := map[], [page], [], {};
      new;
      assert Times(1, PerPage(size)) == Times(0, PerPage(size)) + PerPage(size);
    }

    /** A block nobody holds; page is what kgetpages would hand out, should the last page be used up. */
    method KmallocP(page: Address) returns (block: Address)
      requires Valid() && page > 0 && page % PAGE == 0 && page !in pages
      modifies this
      ensures Valid() && block !in old(live) && live == old(live) + {block}
      ensures old(free) != [] ==> block == old(free)[0] && free == old(free)[1..] && pages == old(pages)
      ensures old(free) == [] ==> free == [] && block == old(freshChain)
      ensures pages == old(pages) || (old(free) == [] && old(freshCount) == 1 && pages == old(pages) + [page])
    {
      hide BlockOf, PerPage, Pages, Carved, Chained;
      Heads();
      usedCount := usedCount + 1;
      if freeChain != 0 {
        ChainPopped(mem, freeChain, free);
        assert free == [freeChain] + free[1..];
        freeCount := freeCount - 1;
        block := freeChain;
        freeChain := mem[freeChain];
        free := free[1..];
      } else {
        forall b
          ensures Carved(pages, size, freshCount - 1, b) <==> Carved(pages, size, freshCount, b) || b == freshChain
        {
          CarveNext(pages, size, freshCount, b);
        }
        CarveNext(pages, size, freshCount, freshChain);
        freshCount := freshCount - 1;
        block := freshChain;
        if freshCount != 0 {
          Bumped(pages[|pages| - 1], size, PerPage(size) - freshCount - 1);
          freshChain := freshChain + size;
        } else {
          forall b ensures Carved(pages, size, 0, b) <==> Carved(pages + [page], size, PerPage(size), b) {
            CarvePage(pages, size, page, b);
          }
          PageJoins(pages, page);
          First(page, size);
          freshCount := PerPage(size);
          freshChain := page;
          pages := pages + [page];
        }
      }
      live := live + {block};
    }

    /** The block is the next to be handed out. */
    method KfreeP(block: Address)
      requires Valid() && block in live
      modifies this
      ensures Valid() && live == old(live) - {block} && free == [block] + old(free) && pages == old(pages)
    {
      hide BlockOf, PerPage, Pages, Chained;
      NotZero(block);
      ChainPushed(mem, freeChain, free, block);
      freeCount := freeCount + 1;
      usedCount := usedCount - 1;
      mem := mem[block := freeChain];
      freeChain := block;
      free := [block] + free;
      live := live - {block};
    }

    lemma Heads()
      requires Valid()
      ensures freeChain == 0 <==> free == []
      ensures free != [] ==> freeChain == free[0] && freeChain in free
    {
    }

    lemma NotZero(block: Address)
      requires Valid() && (block in live || block in free)
      ensures block > 0
    {
      assert Carved(pages, size, freshCount, block);
      var i, k :| 0 <= i < |pages| && 0 <= k < PerPage(size) && block == BlockOf(pages[i], size, k);
      BlockInPage(pages[i], size, k);
    }

    /** Blocks in use do not overlap, and each lies in a page of the pool. */
    lemma LiveApart(a: Address, b: Address)
      requires Valid() && a in live && b in live && a != b
      ensures a + size <= b || b + size <= a
      ensures exists i :: 0 <= i < |pages| && pages[i] <= a && a + size <= pages[i] + PAGE
    {
      hide BlockOf, PerPage, Pages, Chained;
      assert Carved(pages, size, freshCount, a) && Carved(pages, size, freshCount, b);
      var i, k :| 0 <= i < |pages| && 0 <= k < PerPage(size) && a == BlockOf(pages[i], size, k);
      var j, l :| 0 <= j < |pages| && 0 <= l < PerPage(size) && b == BlockOf(pages[j], size, l);
      BlocksApart(pages, size, i, k, j, l);
      BlockInPage(pages[i], size, k);
    }
  }

  lemma Bumped(page: Address, size: int, k: int)
    ensures BlockOf(page, size, k) + size == BlockOf(page, size, k + 1)
  {
  }

  lemma First(page: Address, size: int)
    ensures BlockOf(page, size, 0) == page
  {
  }
}
