/**
 Areas of openblt/kernel/aspace.c and the page free list of openblt/kernel/memory.c, in place on
 page tables, page-group chains and the free list.  Areas map ordinary pages, not given physical ones.
 */
module AddressSpaces {
  import opened Spans
  import opened PageGroups

  const PAGE := 4096
  const ERR_NONE := 0
  const ERR_RESOURCE := -2
  const ERR_MEMORY := -3

  function Link(pagelist: map<int, int>, p: int): int { if p in pagelist then pagelist[p] else 0 }

  /** The free list runs from its head through these pages. */
  ghost predicate Linked(pagelist: map<int, int>, head: int, free: seq<int>)
    decreases |free|
  {
    if free == [] then head == 0 else head == free[0] && head > 0 && Linked(pagelist, Link(pagelist, head), free[1..])
  }

  lemma {:induction false} LinkedKept(pagelist: map<int, int>, head: int, free: seq<int>, p: int, q: int)
    requires Linked(pagelist, head, free) && p !in free
    ensures Linked(pagelist[p := q], head, free)
    decreases |free|
  {
    if free != [] {
      LinkedKept(pagelist, Link(pagelist, head), free[1..], p, q);
    }
  }

  /** The pages that a request of so many bytes takes. */
  function PagesFor(size: nat): (n: nat)
    ensures n >= 1 && n * PAGE >= size && (size > 0 ==> (n - 1) * PAGE < size)
  {
    var n := if size % PAGE != 0 then size / PAGE + 1 else size / PAGE;
    if n < 1 then 1 else n
  }

  /** A search that can go wrong does not: there is a span, or the table does not end in a free run. */
  ghost predicate Findable(table: seq<int>, start: int, n: int)
    requires |table| == ENTRIES
  {
    SpanExists(table, start, n) || table[ENTRIES - 1] != 0
  }

  function PageRange(bottom: int, top: int): (r: set<int>)
    ensures forall p :: p in r <==> bottom <= p <= top
    decreases top - bottom
  {
    if bottom > top then {} else PageRange(bottom, top - 1) + {top}
  }

  class Memory {
    var pagelist: map<int, int>
    var freepage: int
    var usedPages: int
    var tables: map<Space, seq<int>>
    var areas: map<AreaId, Area>
    var groups: map<GroupId, Group>
    ghost var free: seq<int>
    ghost const all: set<int>

    ghost function Now(): State
      reads this
    {
      State(tables, areas, groups, free)
    }

    ghost predicate Consistent()
      reads this
    {
      Valid(Now(), all) && Linked(pagelist, freepage, free)
    }

    /** A free list of the pages from bottom to top, built from its end as memory_init does; no page is mapped yet. */
    constructor (bottom: nat, top: nat, spaces: set<Space>)
      requires 0 < bottom <= top
      ensures Consistent() && tables.Keys == spaces && areas == map[] && groups == map[]
      ensures |free| == top - bottom + 1 && forall p :: p in all <==> bottom <= p <= top
    {
      pagelist, freepage, usedPages, free := map[], 0, 0, [];
      tables := map s | s in spaces :: seq(ENTRIES, _ => 0);
      areas, groups := map[], map[];
      all := PageRange(bottom, top);
      new;
      var i := top;
      while i >= bottom
        invariant bottom - 1 <= i <= top && |free| == top - i && Linked(pagelist, freepage, free)
        invariant forall k :: 0 <= k < |free| ==> free[k] == i + 1 + k
        invariant tables.Keys == spaces && areas == map[] && groups == map[]
        invariant forall s :: s in tables ==> tables[s] == seq(ENTRIES, _ => 0)
      {
        LinkedKept(pagelist, freepage, free, i, freepage);
        pagelist := pagelist[i := freepage];
        freepage := i;
        free := [i] + free;
        i := i - 1;
      }
      forall p | p in all ensures p in free {
        assert free[p - bottom] == p;
      }
    }

    method PutPage(number: int)
      requires Linked(pagelist, freepage, free) && number > 0 && number !in free
      modifies `pagelist, `freepage, `usedPages, `free
      ensures Linked(pagelist, freepage, free) && free == [number] + old(free) && usedPages == old(usedPages) - 1
    {
      LinkedKept(pagelist, freepage, free, number, freepage);
      pagelist := pagelist[number := freepage];
      freepage := number;
      usedPages := usedPages - 1;
      free := [number] + free;
    }

    /** Takes the first free page; the caller sees to it that there is one. */
    method GetPage() returns (n: int)
      requires Linked(pagelist, freepage, free) && free != []
      modifies `freepage, `usedPages, `free
      ensures Linked(pagelist, freepage, free) && n == old(free)[0] && free == old(free)[1..]
      ensures usedPages == old(usedPages) + 1
    {
      n := freepage;
      freepage := Link(pagelist, n);
      usedPages := usedPages + 1;
      free := free[1..];
    }

    /** A chain of nodes with six slots each, enough for size pages; what is in the slots is arbitrary. */
    method NewChain(size: nat) returns (chain: seq<seq<int>>)
      ensures Nodes(chain) && |Slots(chain)| == SLOTS * |chain| && SLOTS * (|chain| - 1) < size <= SLOTS * |chain|
    {
      chain := [];
      var i := 0;
      while i < size
        invariant Nodes(chain) && i == SLOTS * |chain| && SLOTS * (|chain| - 1) < size
      {
        assert |[0, 0, 0, 0, 0, 0]| == SLOTS;
        var junk: seq<int> :| |junk| == SLOTS;
        chain := [junk] + chain;
        i := i + SLOTS;
      }
      SlotCount(chain);
    }

    /** Takes pages off the free list into the slots of the chain from position done on, and maps them from at on. */
    method FillPages(s: Space, at: nat, chain0: seq<seq<int>>, done: nat, n: nat) returns (chain: seq<seq<int>>)
      requires Linked(pagelist, freepage, free) && n <= |free| && s in tables && at + n <= |tables[s]|
      requires Nodes(chain0) && done + n <= SLOTS * |chain0| && |Slots(chain0)| == SLOTS * |chain0|
      modifies `freepage, `usedPages, `free, `tables
      ensures Linked(pagelist, freepage, free) && free == old(free)[n..] && usedPages == old(usedPages) + n
      ensures tables == old(tables)[s := Written(old(tables[s]), at, old(free)[..n])]
      ensures Nodes(chain) && |chain| == |chain0| && |Slots(chain)| == SLOTS * |chain|
      ensures Slots(chain)[..done + n] == Slots(chain0)[..done] + old(free)[..n]
    {
      hide Slots, Linked, Written, Entry;
      chain := chain0;
      var i, k, ppo := 0, done / SLOTS, done % SLOTS;
      ghost var free0, table0 := free, tables[s];
      assert Written(table0, at, free0[..0]) == table0;
      while i < n
        invariant 0 <= i <= n && Linked(pagelist, freepage, free) && free == free0[i..]
        invariant usedPages == old(usedPages) + i
        invariant Nodes(chain) && |chain| == |chain0| && |Slots(chain)| == SLOTS * |chain|
        invariant 0 <= ppo < SLOTS && SLOTS * k + ppo == done + i
        invariant Slots(chain)[..done + i] == Slots(chain0)[..done] + free0[..i]
        invariant tables == old(tables)[s := Written(table0, at, free0[..i])]
      {
        var p := GetPage();
        SlotStored(chain, k, ppo, p);
        PageStored(Slots(chain), Slots(chain0)[..done], free0, done, i, p);
        WrittenNext(table0, at, free0, i);
        tables := tables[s := tables[s][at + i := Entry(p)]];
        chain := chain[k := chain[k][ppo := p]];
        ppo := ppo + 1;
        if ppo == SLOTS {
          ppo := 0;
          k := k + 1;
        }
        i := i + 1;
      }
    }

    lemma PageStored(slots: seq<int>, before: seq<int>, free0: seq<int>, done: nat, i: nat, p: int)
      requires i < |free0| && p == free0[i] && |before| == done && done + i < |slots|
      requires slots[..done + i] == before + free0[..i]
      ensures slots[done + i := p][..done + i + 1] == before + free0[..i + 1]
    {
      assert slots[done + i := p][..done + i] == slots[..done + i];
      assert slots[done + i := p][..done + i + 1] == slots[done + i := p][..done + i] + [p];
      assert free0[..i + 1] == free0[..i] + [p];
    }

    lemma WrittenNext(table: seq<int>, at: nat, pages: seq<int>, i: nat)
      requires i < |pages| && at + i < |table|
      ensures Written(table, at, pages[..i])[at + i := Entry(pages[i])] == Written(table, at, pages[..i + 1])
    {
    }

    lemma ChainPages(group: Group)
      requires |Slots(group.chain)| == SLOTS * |group.chain| && 0 <= group.size <= SLOTS * |group.chain|
      ensures Pages(group) == Slots(group.chain)[..group.size]
    {
    }

    /**
     Maps a new area of as many pages as size bytes take, at the first free span from the page of virt
     on.  The area's id and the group's address are new; running out of pages stops the machine.
     */
    method AreaCreate(s: Space, size: nat, virt: nat, a: AreaId, g: GroupId) returns (code: int)
      requires Consistent() && s in tables && Fresh(Now(), a, g) && a > 0
      requires |free| >= PagesFor(size)
      requires |tables[s]| == ENTRIES && Findable(tables[s], StartAt(virt / PAGE), PagesFor(size))
      modifies `freepage, `usedPages, `free, `tables, `areas, `groups
      ensures Consistent()
      ensures var n, table := PagesFor(size), old(tables[s]);
              if SpanExists(table, StartAt(virt / PAGE), n) then
                && code == a && a in areas && g in groups && areas[a].length == n && groups[g].refcount == 1
                && FirstSpan(table, StartAt(virt / PAGE), n, areas[a].virt) && Pages(groups[g]) == old(free)[..n]
                && var area := Area(s, g, areas[a].virt, n);
                Now() == MapArea(old(Now()), a, area, old(groups)[g := groups[g]], old(free)[n..])
              else code == ERR_MEMORY && Now() == old(Now())
    {
      hide Valid, Slots, Pages, FreeSpan, SpanExists;
      var n := PagesFor(size);
      ghost var before := Now();
      var at := LocateSpan(tables[s], virt / PAGE, n);
      SpanFound(tables[s], StartAt(virt / PAGE), n, at);
      if at == 0 {
        return ERR_MEMORY;
      }
      var chain := NewChain(n);
      chain := FillPages(s, at, chain, 0, n);
      chain := ZeroRest(chain, n);
      ghost var group := Group(n, 1, chain);
      ChainPages(group);
      assert Slots(chain)[..n] == before.free[..n];
      CreateValid(before, a, Area(s, g, at, n), group, all);
      groups := groups[g := Group(n, 1, chain)];
      areas := areas[a := Area(s, g, at, n)];
      code := a;
    }

    ghost predicate FirstSpan(table: seq<int>, start: int, n: int, at: int) {
      start <= at && FreeSpan(table, at, n) && forall s :: start <= s < at ==> !FreeSpan(table, s, n)
    }

    /** What the search returns, when it cannot go wrong. */
    lemma SpanFound(table: seq<int>, start: int, n: nat, at: int)
      requires |table| == ENTRIES && 1 <= start && n > 0 && Findable(table, start, n)
      requires SpanExists(table, start, n) ==> FirstSpan(table, start, n, at)
      requires !SpanExists(table, start, n) && table[ENTRIES - 1] != 0 ==> at == 0
      ensures at == 0 <==> !SpanExists(table, start, n)
      ensures at != 0 ==> FirstSpan(table, start, n, at) && at + n <= ENTRIES && at >= 1
    {
    }

    /** Zeroes the slots of the last node that no page took. */
    method ZeroRest(chain0: seq<seq<int>>, n: nat) returns (chain: seq<seq<int>>)
      requires Nodes(chain0) && |Slots(chain0)| == SLOTS * |chain0| && SLOTS * (|chain0| - 1) < n <= SLOTS * |chain0|
      ensures Nodes(chain) && |chain| == |chain0| && |Slots(chain)| == SLOTS * |chain|
      ensures Slots(chain)[..n] == Slots(chain0)[..n]
      ensures forall i :: n <= i < |Slots(chain)| ==> Slots(chain)[i] == 0
    {
      hide Slots;
      chain := chain0;
      var k, ppo := n / SLOTS, n % SLOTS;
      while ppo < SLOTS && k < |chain|
        invariant 0 <= ppo <= SLOTS && n <= SLOTS * k + ppo && SLOTS * (|chain| - 1) <= SLOTS * k
        invariant Nodes(chain) && |chain| == |chain0| && |Slots(chain)| == SLOTS * |chain|
        invariant Slots(chain)[..n] == Slots(chain0)[..n]
        invariant forall i :: n <= i < SLOTS * k + ppo && i < |Slots(chain)| ==> Slots(chain)[i] == 0
      {
        SlotStored(chain, k, ppo, 0);
        assert Slots(chain)[SLOTS * k + ppo := 0][..n] == Slots(chain)[..n];
        chain := chain[k := chain[k][ppo := 0]];
        ppo := ppo + 1;
      }
    }

    /** Maps the pages of an area's group once more, at the first free span. */
    method AreaClone(s: Space, a0: AreaId, virt: nat, a: AreaId) returns (code: int)
      requires Consistent() && s in tables && a !in areas && a > 0
      requires |tables[s]| == ENTRIES && (a0 in areas ==> Findable(tables[s], StartAt(virt / PAGE), areas[a0].length))
      modifies `tables, `areas, `groups
      ensures Consistent()
      ensures a0 !in old(areas) ==> code == ERR_RESOURCE && Now() == old(Now())
      ensures a0 in old(areas) ==>
        var n, g, table := old(areas[a0]).length, old(areas[a0]).group, old(tables[s]);
        if SpanExists(table, StartAt(virt / PAGE), n) then
          && code == a && a in areas && FirstSpan(table, StartAt(virt / PAGE), n, areas[a].virt) && g in groups
          && groups[g] == old(groups)[g].(refcount := old(groups)[g].refcount + 1)
          && Now() == MapArea(old(Now()), a, Area(s, g, areas[a].virt, n), old(groups)[g := groups[g]], free)
        else code == ERR_MEMORY && Now() == old(Now())
    {
      hide Valid, Slots, Pages, FreeSpan, SpanExists;
      if a0 !in areas {
        return ERR_RESOURCE;
      }
      ghost var before := Now();
      var g, n := areas[a0].group, areas[a0].length;
      AreaFacts(before, a0, all);
      var at := LocateSpan(tables[s], virt / PAGE, n);
      SpanFound(tables[s], StartAt(virt / PAGE), n, at);
      if at == 0 {
        return ERR_MEMORY;
      }
      var group := groups[g];
      CloneValid(before, a, Area(s, g, at, n), all);
      groups := groups[g := group.(refcount := group.refcount + 1)];
      areas := areas[a := Area(s, g, at, n)];
      MapPages(s, at, group.chain, n);
      ChainPages(group);
      SamePages(group, group.refcount + 1);
      code := a;
    }

    lemma AreaFacts(st: State, a: AreaId, every: set<int>)
      requires Valid(st, every) && a in st.areas
      ensures InRange(st, a)
      ensures var group := st.groups[st.areas[a].group];
              && Nodes(group.chain) && |Slots(group.chain)| == SLOTS * |group.chain| && group.size == st.areas[a].length
              && SLOTS * (|group.chain| - 1) < group.size <= SLOTS * |group.chain| && group.refcount >= 1
    {
      hide Maps, Apart, CoveredBy;
      MapsInRange(st, a);
      var group := st.groups[st.areas[a].group];
      GroupFitsSize(group);
      SlotCount(group.chain);
    }

    /** Maps the pages in the first n slots of a chain from at on. */
    method MapPages(s: Space, at: nat, chain: seq<seq<int>>, n: nat)
      requires Nodes(chain) && |Slots(chain)| == SLOTS * |chain| && n <= SLOTS * |chain|
      requires s in tables && at + n <= |tables[s]|
      modifies `tables
      ensures tables == old(tables)[s := Written(old(tables[s]), at, Slots(chain)[..n])]
    {
      hide Slots;
      var i, k, ppo := 0, 0, 0;
      ghost var table0, slots := tables[s], Slots(chain);
      assert Written(table0, at, slots[..0]) == table0;
      while i < n
        invariant 0 <= i <= n && 0 <= ppo < SLOTS && SLOTS * k + ppo == i
        invariant tables == old(tables)[s := Written(table0, at, slots[..i])]
      {
        SlotAt(chain, k, ppo);
        WrittenNext(table0, at, slots, i);
        tables := tables[s := tables[s][at + i := Entry(chain[k][ppo])]];
        ppo := ppo + 1;
        if ppo == SLOTS {
          ppo := 0;
          k := k + 1;
        }
        i := i + 1;
      }
    }

    /** Unmaps an area; when it was the last of its group, the group goes too and its pages are free again. */
    method AreaDestroy(s: Space, a: AreaId) returns (code: int)
      requires Consistent()
      modifies `pagelist, `freepage, `usedPages, `free, `tables, `areas, `groups
      ensures Consistent()
      ensures code == if a in old(areas) && old(areas)[a].space == s then ERR_NONE else ERR_RESOURCE
      ensures code == ERR_RESOURCE ==> Now() == old(Now())
      ensures code == ERR_NONE ==> InRange(old(Now()), a) && var g := old(areas)[a].group; var group := old(groups)[g];
                Now() == if group.refcount == 1
                  then UnmapArea(old(Now()), a, old(groups) - {g}, Reversed(Pages(group)) + old(free))
                  else UnmapArea(old(Now()), a, old(groups)[g := group.(refcount := group.refcount - 1)], old(free))
    {
      hide Valid, Slots, Pages, FreeSpan;
      if a !in areas || areas[a].space != s {
        return ERR_RESOURCE;
      }
      ghost var before := Now();
      var area := areas[a];
      AreaFacts(before, a, all);
      var g := area.group;
      var group := groups[g];
      areas := areas - {a};
      ClearEntries(s, area.virt, area.length);
      if group.refcount - 1 == 0 {
        DestroyValid(before, a, all);
        ChainPages(group);
        PagesApart(before, g, all);
        PutPages(group.chain, group.size);
        groups := groups - {g};
      } else {
        ReleaseValid(before, a, all);
        groups := groups[g := group.(refcount := group.refcount - 1)];
      }
      code := ERR_NONE;
    }

    method ClearEntries(s: Space, at: nat, n: nat)
      requires s in tables && at + n <= |tables[s]|
      modifies `tables
      ensures tables == old(tables)[s := Cleared(old(tables[s]), at, n)]
    {
      ghost var table0 := tables[s];
      assert Cleared(table0, at, 0) == table0;
      var i := 0;
      while i < n
        invariant 0 <= i <= n && tables == old(tables)[s := Cleared(table0, at, i)]
      {
        ClearedNext(table0, at, i);
        tables := tables[s := tables[s][at + i := 0]];
        i := i + 1;
      }
    }

    lemma ClearedNext(table: seq<int>, at: nat, i: nat)
      requires at + i < |table|
      ensures Cleared(table, at, i)[at + i := 0] == Cleared(table, at, i + 1)
    {
    }

    lemma PagesApart(st: State, g: GroupId, every: set<int>)
      requires Valid(st, every) && g in st.groups
      ensures Distinct(Pages(st.groups[g])) && forall p :: p in Pages(st.groups[g]) ==> p > 0 && p !in st.free
    {
      forall p | p in Pages(st.groups[g]) ensures p > 0 && p !in st.free {
        assert InGroup(st, g, p);
      }
    }

    /** Gives the pages in the first size slots back, node by node. */
    method PutPages(chain0: seq<seq<int>>, size0: nat)
      requires Linked(pagelist, freepage, free) && Nodes(chain0) && |Slots(chain0)| == SLOTS * |chain0|
      requires SLOTS * (|chain0| - 1) < size0 <= SLOTS * |chain0|
      requires Distinct(Slots(chain0)[..size0]) && forall p :: p in Slots(chain0)[..size0] ==> p > 0 && p !in free
      modifies `pagelist, `freepage, `usedPages, `free
      ensures Linked(pagelist, freepage, free) && free == Reversed(Slots(chain0)[..size0]) + old(free)
      ensures usedPages == old(usedPages) - size0
    {
      hide Slots, Reversed;
      var chain, size := chain0, size0;
      ghost var pages, free0, done: nat := Slots(chain0)[..size0], free, 0;
      ghost var k: nat := 0;
      assert Reversed(pages[..0]) + free0 == free0 by {
        ReversedEmpty(pages);
      }
      while chain != []
        invariant k <= |chain0| && chain == chain0[k..] && done + size == size0 && (size == 0 || done == SLOTS * k)
        invariant chain == [] ==> size == 0
        invariant Linked(pagelist, freepage, free) && free == Reversed(pages[..done]) + free0
        invariant usedPages == old(usedPages) - done
        decreases |chain0| - k
      {
        var node := chain[0];
        chain := chain[1..];
        var count := 0;
        while size != 0 && count < SLOTS
          invariant 0 <= count <= SLOTS && done + size == size0 && (size == 0 || done == SLOTS * k + count)
          invariant Linked(pagelist, freepage, free) && free == Reversed(pages[..done]) + free0
          invariant usedPages == old(usedPages) - done
          decreases SLOTS - count
        {
          SlotAt(chain0, k, count);
          assert node[count] == pages[done];
          NextPut(pages, free0, done);
          PutPage(node[count]);
          size, done := size - 1, done + 1;
          count := count + 1;
        }
        k := k + 1;
      }
      assert pages[..done] == pages;
    }

    lemma ReversedEmpty(pages: seq<int>)
      ensures Reversed(pages[..0]) == []
    {
    }

    lemma NextPut(pages: seq<int>, free0: seq<int>, done: nat)
      requires done < |pages| && Distinct(pages) && forall p :: p in pages ==> p !in free0
      ensures pages[done] !in Reversed(pages[..done]) + free0 && pages[done] in pages
      ensures [pages[done]] + (Reversed(pages[..done]) + free0) == Reversed(pages[..done + 1]) + free0
    {
      ReversedSame(pages[..done]);
      assert pages[..done + 1][..done] == pages[..done];
      assert Reversed(pages[..done + 1]) == [pages[done]] + Reversed(pages[..done]);
    }

    /** The search at the end of an area cannot go wrong: a span exists, or a later page is mapped. */
    ghost predicate Extendable(table: seq<int>, start: int, n: int)
      requires |table| == ENTRIES
    {
      SpanExists(table, StartAt(start), n) || start >= ENTRIES || !FreeSpan(table, start, ENTRIES - start)
    }

    /**
     Lets the only area of a group grow to size bytes.  It grows by whole pages, and only when at least
     one page is missing: a wish of less than a page more fails.
     */
    method AreaResize(s: Space, a: AreaId, size: nat) returns (code: int)
      requires Consistent()
      requires a in areas ==>
        areas[a].space == s && s in tables && areas[a].group in groups && groups[areas[a].group].refcount == 1
      requires a in areas ==> |tables[s]| == ENTRIES && |free| + areas[a].length >= size / PAGE
      requires a in areas && size / PAGE > areas[a].length ==>
        Extendable(tables[s], areas[a].virt + areas[a].length, size / PAGE - areas[a].length)
      modifies `freepage, `usedPages, `free, `tables, `areas, `groups
      ensures Consistent()
      ensures a !in old(areas) ==> code == ERR_RESOURCE && Now() == old(Now())
      ensures a in old(areas) ==>
        var x := old(areas)[a]; var n := size / PAGE - x.length;
        if size <= x.length * PAGE then code == ERR_NONE && Now() == old(Now())
        else if n >= 1 && FreeSpan(old(tables)[s], x.virt + x.length, n) then
          && code == ERR_NONE && x.group in groups && n <= |old(free)| && InRange(old(Now()), a)
          && Now() == ExtendArea(old(Now()), a, old(free)[..n], old(groups)[x.group := groups[x.group]], old(free)[n..])
          && Pages(groups[x.group]) == Pages(old(groups)[x.group]) + old(free)[..n]
        else code == ERR_MEMORY && Now() == old(Now())
    {
      hide Valid, Slots, Pages, FreeSpan, SpanExists;
      if a !in areas {
        return ERR_RESOURCE;
      }
      ghost var before := Now();
      var area := areas[a];
      AreaFacts(before, a, all);
      var group := groups[area.group];
      if size <= group.size * PAGE {
        return ERR_NONE;
      }
      var n := size / PAGE - group.size;
      var start := area.virt + group.size;
      var at := LocateSpan(tables[s], start, n);
      AtTheEnd(tables[s], start, n, at);
      if at != start {
        return ERR_MEMORY;
      }
      var chain := GrowChain(s, start, group.chain, group.size, n);
      ghost var grown := Group(group.size + n, 1, chain);
      ChainPages(group);
      ChainPages(grown);
      ExtendValid(before, a, n, grown, all);
      groups := groups[area.group := Group(group.size + n, 1, chain)];
      areas := areas[a := area.(length := area.length + n)];
      code := ERR_NONE;
    }

    lemma AtTheEnd(table: seq<int>, start: int, n: nat, at: int)
      requires |table| == ENTRIES && 1 <= start <= ENTRIES && (n > 0 ==> Extendable(table, start, n))
      requires n > 0 && SpanExists(table, StartAt(start), n) ==> FirstSpan(table, StartAt(start), n, at)
      requires n > 0 && !SpanExists(table, StartAt(start), n) ==>
        if table[ENTRIES - 1] != 0 then at == 0
        else StartAt(start) <= at < ENTRIES < at + n && FreeSpan(table, at, ENTRIES - at)
      requires n == 0 ==> at == 0
      ensures at == start <==> n >= 1 && FreeSpan(table, start, n)
    {
    }

    /** Maps one more page and puts it after the first x slots; a new node is hung on when the last is full. */
    method GrowOne(s: Space, at: nat, chain0: seq<seq<int>>, ppo: nat, ghost x: nat) returns (chain: seq<seq<int>>)
      requires Linked(pagelist, freepage, free) && free != [] && s in tables && at < |tables[s]|
      requires Nodes(chain0) && |Slots(chain0)| == SLOTS * |chain0| && ppo < SLOTS
      requires x == (if ppo == 0 then SLOTS * |chain0| else SLOTS * (|chain0| - 1) + ppo) && x > 0
      modifies `freepage, `usedPages, `free, `tables
      ensures Linked(pagelist, freepage, free) && free == old(free)[1..] && usedPages == old(usedPages) + 1
      ensures tables == old(tables)[s := old(tables[s])[at := Entry(old(free)[0])]]
      ensures Nodes(chain) && |Slots(chain)| == SLOTS * |chain| && |chain| == |chain0| + (if ppo == 0 then 1 else 0)
      ensures x < |Slots(chain)| && Slots(chain)[..x + 1] == Slots(chain0)[..x] + [old(free)[0]]
    {
      hide Slots, Linked;
      assert |[0, 0, 0, 0, 0, 0]| == SLOTS;
      var junk: seq<int> :| |junk| == SLOTS;
      chain := if ppo == 0 then chain0 + [junk] else chain0;
      var p := GetPage();
      StoredNext(chain0, ppo, junk, p, x);
      tables := tables[s := tables[s][at := Entry(p)]];
      chain := chain[|chain| - 1 := chain[|chain| - 1][ppo := p]];
    }

    lemma GrownSlots(before: seq<int>, free0: seq<int>, i: nat)
      requires i < |free0|
      ensures (before + free0[..i]) + [free0[i]] == before + free0[..i + 1]
    {
    }

    /** Maps n more pages and puts them after the first size slots, adding nodes as they are needed. */
    method GrowChain(s: Space, at0: nat, chain0: seq<seq<int>>, size: nat, n0: nat) returns (chain: seq<seq<int>>)
      requires Linked(pagelist, freepage, free) && n0 <= |free| && s in tables && at0 + n0 <= |tables[s]|
      requires Nodes(chain0) && |Slots(chain0)| == SLOTS * |chain0| && SLOTS * (|chain0| - 1) < size <= SLOTS * |chain0|
      requires size > 0
      modifies `freepage, `usedPages, `free, `tables
      ensures Linked(pagelist, freepage, free) && free == old(free)[n0..] && usedPages == old(usedPages) + n0
      ensures tables == old(tables)[s := Written(old(tables[s]), at0, old(free)[..n0])]
      ensures Nodes(chain) && |Slots(chain)| == SLOTS * |chain| && SLOTS * (|chain| - 1) < size + n0 <= SLOTS * |chain|
      ensures Slots(chain)[..size + n0] == Slots(chain0)[..size] + old(free)[..n0]
    {
      hide Slots, Linked, Nodes, Written, Entry;
      chain := chain0;
      var at, n, ppo := at0, n0, size % SLOTS;
      ghost var free0, table0, i: nat := free, tables[s], 0;
      LastNode(|chain|, size);
      assert Written(table0, at0, free0[..0]) == table0;
      assert Slots(chain0)[..size] + free0[..0] == Slots(chain0)[..size];
      while n != 0
        invariant i + n == n0 && at == at0 + i && free == free0[i..] && usedPages == old(usedPages) + i
        invariant Linked(pagelist, freepage, free)
        invariant Nodes(chain) && |Slots(chain)| == SLOTS * |chain| && 0 <= ppo < SLOTS
        invariant size + i == if ppo == 0 then SLOTS * |chain| else SLOTS * (|chain| - 1) + ppo
        invariant Slots(chain)[..size + i] == Slots(chain0)[..size] + free0[..i]
        invariant tables == old(tables)[s := Written(table0, at0, free0[..i])]
        decreases n
      {
        chain := GrowOne(s, at, chain, ppo, size + i);
        WrittenNext(table0, at0, free0, i);
        GrownSlots(Slots(chain0)[..size], free0, i);
        at := at + 1;
        ppo := ppo + 1;
        if ppo == SLOTS {
          ppo := 0;
        }
        n, i := n - 1, i + 1;
      }
    }

    /** The slot after x taken ones gets a page; a new node is hung on when the last is full. */
    lemma StoredNext(chain: seq<seq<int>>, ppo: nat, junk: seq<int>, p: int, x: nat)
      requires Nodes(chain) && |Slots(chain)| == SLOTS * |chain| && ppo < SLOTS && |junk| == SLOTS
      requires x == (if ppo == 0 then SLOTS * |chain| else SLOTS * (|chain| - 1) + ppo) && x > 0
      ensures var longer := if ppo == 0 then chain + [junk] else chain;
              && |longer| > 0 && |longer[|longer| - 1]| == SLOTS
              && var stored := longer[|longer| - 1 := longer[|longer| - 1][ppo := p]];
              && Nodes(stored) && |Slots(stored)| == SLOTS * |stored| && x < |Slots(stored)|
              && Slots(stored)[..x + 1] == Slots(chain)[..x] + [p]
    {
      hide Slots;
      var longer := if ppo == 0 then chain + [junk] else chain;
      NodeAdded(chain, junk);
      SlotStored(longer, |longer| - 1, ppo, p);
      SlotCount(longer);
    }

    /** Where the last slot taken stands in a chain of c nodes. */
    lemma LastNode(c: nat, n: nat)
      requires SLOTS * (c - 1) < n <= SLOTS * c
      ensures n == if n % SLOTS == 0 then SLOTS * c else SLOTS * (c - 1) + n % SLOTS
    {
    }

    lemma NodeAdded(chain: seq<seq<int>>, node: seq<int>)
      ensures Slots(chain + [node]) == Slots(chain) + node
    {
      assert (chain + [node])[..|chain|] == chain;
    }
  }
}
