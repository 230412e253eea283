/**
 What the tables of openblt/kernel/aspace.c and memory.c say: areas of address spaces share page
 groups, whose pages hang in chains of six-slot nodes; every page is in one group or on the free list.
 */
module PageGroups {
  import opened Spans

  type Space = int
  type AreaId = int
  type GroupId = int

  const SLOTS := 6

  datatype Area = Area(space: Space, group: GroupId, virt: int, length: int)
  datatype Group = Group(size: int, refcount: int, chain: seq<seq<int>>)

  /** All slots of a chain in order. */
  function Slots(chain: seq<seq<int>>): seq<int> {
    if chain == [] then [] else Slots(chain[..|chain| - 1]) + chain[|chain| - 1]
  }

  predicate Nodes(chain: seq<seq<int>>) {
    forall k :: 0 <= k < |chain| ==> |chain[k]| == SLOTS
  }

  lemma {:induction false} SlotCount(chain: seq<seq<int>>)
    requires Nodes(chain)
    ensures |Slots(chain)| == SLOTS * |chain|
  {
    if chain != [] {
      SlotCount(chain[..|chain| - 1]);
    }
  }

  lemma {:induction false} SlotAt(chain: seq<seq<int>>, k: nat, j: nat)
    requires Nodes(chain) && k < |chain| && j < SLOTS
    ensures SLOTS * k + j < |Slots(chain)| && Slots(chain)[SLOTS * k + j] == chain[k][j]
  {
    SlotCount(chain);
    var front := chain[..|chain| - 1];
    SlotCount(front);
    if k < |front| {
      SlotAt(front, k, j);
    }
  }

  /** Storing a page number changes the one slot. */
  lemma {:induction false} SlotStored(chain: seq<seq<int>>, k: nat, j: nat, p: int)
    requires Nodes(chain) && k < |chain| && j < SLOTS
    ensures SLOTS * k + j < |Slots(chain)|
    ensures Slots(chain[k := chain[k][j := p]]) == Slots(chain)[SLOTS * k + j := p]
  {
    SlotCount(chain);
    var front, stored := chain[..|chain| - 1], chain[k := chain[k][j := p]];
    SlotCount(front);
    if k < |front| {
      SlotStored(front, k, j, p);
      assert stored[..|chain| - 1] == front[k := front[k][j := p]];
    } else {
      assert stored[..|chain| - 1] == front;
    }
  }

  /** The pages of a group: its first size slots. */
  function Pages(g: Group): seq<int> {
    if 0 <= g.size <= |Slots(g.chain)| then Slots(g.chain)[..g.size] else []
  }

  /** The table entry that maps a page: present, writable, for users. */
  function Entry(page: int): int { page * 4096 + 7 }

  datatype State = State(tables: map<Space, seq<int>>, areas: map<AreaId, Area>, groups: map<GroupId, Group>,
    free: seq<int>)

  ghost function Users(st: State, g: GroupId): set<AreaId> { set a | a in st.areas && st.areas[a].group == g }

  /** The area maps its group's pages, in order, at its place. */
  ghost predicate Maps(st: State, a: AreaId)
    requires a in st.areas
  {
    var area := st.areas[a];
    && area.space in st.tables && area.group in st.groups
    && var table, pages := st.tables[area.space], Pages(st.groups[area.group]);
    && area.length == |pages| && area.length >= 1 && 1 <= area.virt && area.virt + area.length <= |table|
    && forall i :: 0 <= i < |pages| ==> table[area.virt + i] == Entry(pages[i])
  }

  ghost predicate Apart(st: State, a: AreaId, b: AreaId)
    requires a in st.areas && b in st.areas
  {
    var x, y := st.areas[a], st.areas[b];
    x.space != y.space || x.virt + x.length <= y.virt || y.virt + y.length <= x.virt
  }

  ghost predicate CoveredBy(st: State, s: Space, v: int, a: AreaId) {
    a in st.areas && st.areas[a].space == s && st.areas[a].virt <= v < st.areas[a].virt + st.areas[a].length
  }

  ghost predicate GroupFits(g: Group) {
    g.size >= 1 && Nodes(g.chain) && SLOTS * (|g.chain| - 1) < g.size <= SLOTS * |g.chain|
  }

  ghost predicate Mapped(st: State) {
    && (forall s :: s in st.tables ==> |st.tables[s]| == ENTRIES)
    && (forall a :: a in st.areas ==> Maps(st, a))
    && (forall a, b :: a in st.areas && b in st.areas && a != b ==> Apart(st, a, b))
    && (forall s, v :: s in st.tables && 0 <= v < ENTRIES && st.tables[s][v] != 0 ==>
        exists a :: CoveredBy(st, s, v, a))
  }

  ghost predicate Counted(st: State) {
    forall g :: g in st.groups ==>
      GroupFits(st.groups[g]) && st.groups[g].refcount == |Users(st, g)| && Users(st, g) != {}
  }

  /** Where a page is: on the free list, or in a group. */
  ghost predicate InGroup(st: State, g: GroupId, p: int) { g in st.groups && p in Pages(st.groups[g]) }

  /** Every page is in exactly one place, once. */
  ghost predicate Partitioned(st: State, all: set<int>) {
    && Distinct(st.free)
    && (forall g :: g in st.groups ==> Distinct(Pages(st.groups[g])))
    && (forall g, p :: InGroup(st, g, p) ==> p in all && p !in st.free && p > 0)
    && (forall g, h, p :: InGroup(st, g, p) && InGroup(st, h, p) ==> g == h)
    && (forall p :: p in st.free ==> p in all && p > 0)
    && (forall p :: p in all ==> p in st.free || exists g :: InGroup(st, g, p))
  }

  ghost predicate Distinct(s: seq<int>) { forall i, j :: 0 <= i < j < |s| ==> s[i] != s[j] }

  ghost predicate Valid(st: State, all: set<int>) {
    Mapped(st) && Counted(st) && Partitioned(st, all)
  }

  /* Creating and cloning: an area is mapped at a free span. */

  function Written(table: seq<int>, at: nat, pages: seq<int>): (r: seq<int>)
    requires at + |pages| <= |table|
    ensures |r| == |table|
    ensures forall v :: 0 <= v < |r| ==> r[v] == if at <= v < at + |pages| then Entry(pages[v - at]) else table[v]
  {
    table[..at] + seq(|pages|, i requires 0 <= i < |pages| => Entry(pages[i])) + table[at + |pages|..]
  }

  function Cleared(table: seq<int>, at: nat, n: nat): (r: seq<int>)
    requires at + n <= |table|
    ensures |r| == |table|
    ensures forall v :: 0 <= v < |r| ==> r[v] == if at <= v < at + n then 0 else table[v]
  {
    table[..at] + seq(n, i => 0) + table[at + n..]
  }

  /** The state after area a has been mapped at a free span, in a group that has its pages already. */
  function MapArea(st: State, a: AreaId, area: Area, groups: map<GroupId, Group>, free: seq<int>): State
    requires area.space in st.tables && area.group in groups && 0 <= area.virt
    requires area.virt + |Pages(groups[area.group])| <= |st.tables[area.space]|
  {
    State(st.tables[area.space := Written(st.tables[area.space], area.virt, Pages(groups[area.group]))],
          st.areas[a := area], groups, free)
  }

  lemma MapAreaMapped(st: State, a: AreaId, area: Area, groups: map<GroupId, Group>, free: seq<int>)
    requires Mapped(st) && a !in st.areas && area.space in st.tables && area.group in groups
    requires area.length == |Pages(groups[area.group])| && area.length >= 1 && 1 <= area.virt
    requires FreeSpan(st.tables[area.space], area.virt, area.length)
    requires forall h :: h in st.groups ==> h in groups && Pages(groups[h]) == Pages(st.groups[h])
    ensures Mapped(MapArea(st, a, area, groups, free))
  {
    hide Maps, Apart, CoveredBy, Pages;
    var st1 := MapArea(st, a, area, groups, free);
    forall b | b in st1.areas ensures Maps(st1, b) {
      MapAreaMaps(st, a, area, groups, free, b);
    }
    forall b, c | b in st1.areas && c in st1.areas && b != c ensures Apart(st1, b, c) {
      if b != a && c != a {
        assert Apart(st, b, c);
        SameAreas(st, st1, b, c);
      } else {
        MapAreaApart(st, a, area, groups, free, if b == a then c else b);
      }
    }
    forall s, v | s in st1.tables && 0 <= v < ENTRIES && st1.tables[s][v] != 0
      ensures exists b :: CoveredBy(st1, s, v, b)
    {
      MapAreaCovers(st, a, area, groups, free, s, v);
    }
  }

  lemma SameAreas(st: State, st1: State, b: AreaId, c: AreaId)
    requires b in st.areas && c in st.areas && b in st1.areas && c in st1.areas && Apart(st, b, c)
    requires st1.areas[b] == st.areas[b] && st1.areas[c] == st.areas[c]
    ensures Apart(st1, b, c)
  {
  }

  lemma MapAreaMaps(st: State, a: AreaId, area: Area, groups: map<GroupId, Group>, free: seq<int>, b: AreaId)
    requires Mapped(st) && a !in st.areas && area.space in st.tables && area.group in groups
    requires area.length == |Pages(groups[area.group])| && area.length >= 1 && 1 <= area.virt
    requires FreeSpan(st.tables[area.space], area.virt, area.length)
    requires forall h :: h in st.groups ==> h in groups && Pages(groups[h]) == Pages(st.groups[h])
    requires b == a || b in st.areas
    ensures Maps(MapArea(st, a, area, groups, free), b)
  {
    hide Pages, Apart, CoveredBy;
    if b != a {
      assert Maps(st, b);
      FreeApart(st, area, b);
    }
  }

  lemma MapAreaApart(st: State, a: AreaId, area: Area, groups: map<GroupId, Group>, free: seq<int>, b: AreaId)
    requires Mapped(st) && a !in st.areas && area.space in st.tables && area.group in groups && b in st.areas
    requires area.length == |Pages(groups[area.group])| && area.length >= 1 && 1 <= area.virt
    requires FreeSpan(st.tables[area.space], area.virt, area.length)
    ensures var st1 := MapArea(st, a, area, groups, free); Apart(st1, a, b) && Apart(st1, b, a)
  {
    hide Pages, CoveredBy;
    assert Maps(st, b);
    FreeApart(st, area, b);
  }

  lemma MapAreaCovers(st: State, a: AreaId, area: Area, groups: map<GroupId, Group>, free: seq<int>, s: Space, v: int)
    requires Mapped(st) && a !in st.areas && area.space in st.tables && area.group in groups
    requires area.length == |Pages(groups[area.group])| && area.length >= 1 && 1 <= area.virt
    requires FreeSpan(st.tables[area.space], area.virt, area.length)
    requires var st1 := MapArea(st, a, area, groups, free); s in st1.tables && 0 <= v < ENTRIES && st1.tables[s][v] != 0
    ensures exists b :: CoveredBy(MapArea(st, a, area, groups, free), s, v, b)
  {
    hide Pages, Maps, Apart;
    var st1 := MapArea(st, a, area, groups, free);
    if s == area.space && area.virt <= v < area.virt + area.length {
      assert CoveredBy(st1, s, v, a);
    } else {
      assert st.tables[s][v] != 0;
      var b :| CoveredBy(st, s, v, b);
      assert CoveredBy(st1, s, v, b);
    }
  }

  /** A mapped area and a free span do not overlap. */
  lemma FreeApart(st: State, area: Area, b: AreaId)
    requires b in st.areas && Maps(st, b) && area.space in st.tables && area.length >= 1
    requires FreeSpan(st.tables[area.space], area.virt, area.length)
    ensures var y := st.areas[b];
      y.space == area.space ==> area.virt + area.length <= y.virt || y.virt + y.length <= area.virt
  {
    hide Pages;
    var y := st.areas[b];
    if y.space == area.space && !(area.virt + area.length <= y.virt || y.virt + y.length <= area.virt) {
      var v := if area.virt >= y.virt then area.virt else y.virt;
      MappedEntry(st, b, v);
    }
  }

  lemma MappedEntry(st: State, b: AreaId, v: int)
    requires b in st.areas && Maps(st, b) && st.areas[b].virt <= v < st.areas[b].virt + st.areas[b].length
    ensures st.tables[st.areas[b].space][v] != 0
  {
    hide Pages;
    var y := st.areas[b];
    var i := v - y.virt;
    assert st.tables[y.space][y.virt + i] == Entry(Pages(st.groups[y.group])[i]);
  }

  /* Destroying: an area is unmapped. */

  function UnmapArea(st: State, a: AreaId, groups: map<GroupId, Group>, free: seq<int>): State
    requires a in st.areas && st.areas[a].space in st.tables && 0 <= st.areas[a].virt && 0 <= st.areas[a].length
    requires st.areas[a].virt + st.areas[a].length <= |st.tables[st.areas[a].space]|
  {
    var x := st.areas[a];
    State(st.tables[x.space := Cleared(st.tables[x.space], x.virt, x.length)], st.areas - {a}, groups, free)
  }

  ghost predicate InRange(st: State, a: AreaId) {
    && a in st.areas
    && var x := st.areas[a];
    && x.space in st.tables && x.group in st.groups && 1 <= x.virt && x.length >= 1
    && x.length == |Pages(st.groups[x.group])|
    && x.virt + x.length <= |st.tables[x.space]| == ENTRIES
  }

  lemma MapsInRange(st: State, a: AreaId)
    requires Mapped(st) && a in st.areas
    ensures InRange(st, a)
  {
    assert Maps(st, a);
    hide Pages;
  }

  lemma UnmapAreaMapped(st: State, a: AreaId, groups: map<GroupId, Group>, free: seq<int>)
    requires InRange(st, a)
    requires Mapped(st) && a in st.areas
    requires forall b :: b in st.areas && b != a ==> st.areas[b].group in groups
    requires forall b :: b in st.areas && b != a ==>
      Pages(groups[st.areas[b].group]) == Pages(st.groups[st.areas[b].group])
    ensures Mapped(UnmapArea(st, a, groups, free))
  {
    hide Maps, Apart, CoveredBy, Pages;
    var st1 := UnmapArea(st, a, groups, free);
    forall b | b in st1.areas ensures Maps(st1, b) {
      UnmapAreaMaps(st, a, groups, free, b);
    }
    forall b, c | b in st1.areas && c in st1.areas && b != c ensures Apart(st1, b, c) {
      assert Apart(st, b, c);
      SameAreas(st, st1, b, c);
    }
    forall s, v | s in st1.tables && 0 <= v < ENTRIES && st1.tables[s][v] != 0
      ensures exists b :: CoveredBy(st1, s, v, b)
    {
      UnmapAreaCovers(st, a, groups, free, s, v);
    }
  }

  lemma UnmapAreaMaps(st: State, a: AreaId, groups: map<GroupId, Group>, free: seq<int>, b: AreaId)
    requires InRange(st, a)
    requires Mapped(st) && a in st.areas && b in st.areas && b != a
    requires st.areas[b].group in groups && Pages(groups[st.areas[b].group]) == Pages(st.groups[st.areas[b].group])
    ensures Maps(UnmapArea(st, a, groups, free), b)
  {
    hide Pages, CoveredBy;
    assert Maps(st, b) && Apart(st, a, b);
  }

  lemma UnmapAreaCovers(st: State, a: AreaId, groups: map<GroupId, Group>, free: seq<int>, s: Space, v: int)
    requires InRange(st, a)
    requires Mapped(st) && a in st.areas
    requires var st1 := UnmapArea(st, a, groups, free); s in st1.tables && 0 <= v < ENTRIES && st1.tables[s][v] != 0
    ensures exists b :: CoveredBy(UnmapArea(st, a, groups, free), s, v, b)
  {
    hide Pages, Maps, Apart;
    var st1 := UnmapArea(st, a, groups, free);
    assert st.tables[s][v] != 0;
    var b :| CoveredBy(st, s, v, b);
    assert CoveredBy(st1, s, v, b);
  }

  /* Resizing: an area grows into the free span after it. */

  function ExtendArea(st: State, a: AreaId, more: seq<int>, groups: map<GroupId, Group>, free: seq<int>): State
    requires a in st.areas && st.areas[a].space in st.tables && 0 <= st.areas[a].virt && 0 <= st.areas[a].length
    requires st.areas[a].virt + st.areas[a].length + |more| <= |st.tables[st.areas[a].space]|
  {
    var x := st.areas[a];
    State(st.tables[x.space := Written(st.tables[x.space], x.virt + x.length, more)],
          st.areas[a := x.(length := x.length + |more|)], groups, free)
  }

  ghost predicate Extends(st: State, a: AreaId, more: seq<int>, groups: map<GroupId, Group>)
    requires a in st.areas && st.areas[a].group in st.groups
  {
    var x := st.areas[a];
    && x.group in groups && Pages(groups[x.group]) == Pages(st.groups[x.group]) + more && |more| >= 1
    && (forall h :: h in st.groups && h != x.group ==> h in groups && Pages(groups[h]) == Pages(st.groups[h]))
    && (forall b :: b in st.areas && b != a ==> st.areas[b].group != x.group)
  }

  lemma ExtendAreaMapped(st: State, a: AreaId, more: seq<int>, groups: map<GroupId, Group>, free: seq<int>)
    requires InRange(st, a)
    requires Mapped(st) && a in st.areas
    requires Extends(st, a, more, groups)
    requires FreeSpan(st.tables[st.areas[a].space], st.areas[a].virt + st.areas[a].length, |more|)
    ensures Mapped(ExtendArea(st, a, more, groups, free))
  {
    hide Maps, Apart, CoveredBy, Pages, Extends;
    var st1 := ExtendArea(st, a, more, groups, free);
    forall b | b in st1.areas ensures Maps(st1, b) {
      ExtendAreaMaps(st, a, more, groups, free, b);
    }
    forall b, c | b in st1.areas && c in st1.areas && b != c ensures Apart(st1, b, c) {
      if b != a && c != a {
        assert Apart(st, b, c);
        SameAreas(st, st1, b, c);
      } else {
        ExtendAreaApart(st, a, more, groups, free, if b == a then c else b);
      }
    }
    forall s, v | s in st1.tables && 0 <= v < ENTRIES && st1.tables[s][v] != 0
      ensures exists b :: CoveredBy(st1, s, v, b)
    {
      ExtendAreaCovers(st, a, more, groups, free, s, v);
    }
  }

  lemma ExtendAreaMaps(st: State, a: AreaId, more: seq<int>, groups: map<GroupId, Group>, free: seq<int>, b: AreaId)
    requires InRange(st, a)
    requires Mapped(st) && a in st.areas && b in st.areas
    requires Extends(st, a, more, groups)
    requires FreeSpan(st.tables[st.areas[a].space], st.areas[a].virt + st.areas[a].length, |more|)
    ensures Maps(ExtendArea(st, a, more, groups, free), b)
  {
    hide Pages, Apart, CoveredBy;
    assert Maps(st, b);
    var x := st.areas[a];
    if b != a {
      FreeApart(st, Area(x.space, x.group, x.virt + x.length, |more|), b);
    } else {
      var table, table1 := st.tables[x.space], Written(st.tables[x.space], x.virt + x.length, more);
      var pages := Pages(st.groups[x.group]);
      forall i | 0 <= i < |pages| + |more| ensures table1[x.virt + i] == Entry((pages + more)[i]) {
        if i < |pages| {
          assert table[x.virt + i] == Entry(pages[i]);
        }
      }
    }
  }

  lemma ExtendAreaApart(st: State, a: AreaId, more: seq<int>, groups: map<GroupId, Group>, free: seq<int>, b: AreaId)
    requires InRange(st, a)
    requires Mapped(st) && a in st.areas && b in st.areas && b != a
    requires Extends(st, a, more, groups)
    requires FreeSpan(st.tables[st.areas[a].space], st.areas[a].virt + st.areas[a].length, |more|)
    ensures var st1 := ExtendArea(st, a, more, groups, free); Apart(st1, a, b) && Apart(st1, b, a)
  {
    hide Pages, CoveredBy;
    assert Maps(st, b) && Apart(st, a, b);
    var x := st.areas[a];
    FreeApart(st, Area(x.space, x.group, x.virt + x.length, |more|), b);
  }

  lemma ExtendAreaCovers(st: State, a: AreaId, more: seq<int>, groups: map<GroupId, Group>, free: seq<int>, s: Space,
                         v: int)
    requires InRange(st, a)
    requires Mapped(st) && a in st.areas
    requires st.areas[a].virt + st.areas[a].length + |more| <= ENTRIES
    requires var st1 := ExtendArea(st, a, more, groups, free);
      s in st1.tables && 0 <= v < ENTRIES && st1.tables[s][v] != 0
    ensures exists b :: CoveredBy(ExtendArea(st, a, more, groups, free), s, v, b)
  {
    hide Pages, Maps, Apart;
    var st1, x := ExtendArea(st, a, more, groups, free), st.areas[a];
    if s == x.space && x.virt + x.length <= v < x.virt + x.length + |more| {
      assert CoveredBy(st1, s, v, a);
    } else {
      assert st.tables[s][v] != 0;
      var b :| CoveredBy(st, s, v, b);
      assert CoveredBy(st1, s, v, b);
    }
  }

  /* Counting the areas of a group. */

  lemma UsersAdded(st: State, a: AreaId, area: Area, st1: State)
    requires a !in st.areas && st1.areas == st.areas[a := area]
    ensures forall g :: Users(st1, g) == (if g == area.group then Users(st, g) + {a} else Users(st, g))
    ensures a !in Users(st, area.group)
  {
    forall g ensures Users(st1, g) == if g == area.group then Users(st, g) + {a} else Users(st, g) {
      assert forall x :: x in Users(st1, g) <==> x in if g == area.group then Users(st, g) + {a} else Users(st, g);
    }
  }

  lemma UsersRemoved(st: State, a: AreaId, st1: State)
    requires a in st.areas && st1.areas == st.areas - {a}
    ensures forall g :: Users(st1, g) == Users(st, g) - {a}
    ensures a in Users(st, st.areas[a].group) && forall g :: g != st.areas[a].group ==> a !in Users(st, g)
  {
    forall g ensures Users(st1, g) == Users(st, g) - {a} {
      assert forall x :: x in Users(st1, g) <==> x in Users(st, g) - {a};
    }
  }

  /* Moving pages between the free list and groups. */

  /** The first n free pages have gone to the end of group g, which may be new. */
  ghost predicate Took(st: State, st1: State, g: GroupId, n: nat) {
    && n <= |st.free| && st1.free == st.free[n..] && g in st1.groups
    && Pages(st1.groups[g]) == (if g in st.groups then Pages(st.groups[g]) else []) + st.free[..n]
    && (forall h :: h != g ==> (h in st1.groups <==> h in st.groups))
    && (forall h :: h != g && h in st.groups ==> Pages(st1.groups[h]) == Pages(st.groups[h]))
  }

  lemma TookPartitioned(st: State, st1: State, g: GroupId, n: nat, all: set<int>)
    requires Partitioned(st, all) && Took(st, st1, g, n)
    ensures Partitioned(st1, all)
  {
    hide Pages;
    var before := if g in st.groups then Pages(st.groups[g]) else [];
    var taken := st.free[..n];
    assert st.free == taken + st1.free;
    forall h, p ensures InGroup(st1, h, p) <==> InGroup(st, h, p) || (h == g && p in taken) {
    }
    forall i, j | 0 <= i < j < |before + taken| ensures (before + taken)[i] != (before + taken)[j] {
      if i < |before| <= j {
        assert InGroup(st, g, before[i]);
        assert taken[j - |before|] in st.free;
      }
    }
    forall p | p in taken ensures p in st.free && p !in st1.free {
      TakenOnce(st.free, n, p);
    }
    assert forall p :: p in st1.free ==> p in st.free;
    forall h, p | InGroup(st1, h, p) ensures p in all && p !in st1.free && p > 0 {
      if p !in taken {
        assert InGroup(st, h, p);
      }
    }
    forall h | h in st1.groups ensures Distinct(Pages(st1.groups[h])) {
      if h == g {
        assert Pages(st1.groups[h]) == before + taken;
      }
    }
    forall p | p in all ensures p in st1.free || exists h :: InGroup(st1, h, p) {
      if p in taken {
        assert InGroup(st1, g, p);
      } else if p !in st.free {
        var h :| InGroup(st, h, p);
        assert InGroup(st1, h, p);
      }
    }
  }

  lemma TakenOnce(s: seq<int>, n: nat, p: int)
    requires Distinct(s) && n <= |s| && p in s[..n]
    ensures p in s && p !in s[n..]
  {
    var i :| 0 <= i < n && s[i] == p;
    forall j | 0 <= j < |s| - n ensures s[n..][j] != p {
      assert s[j + n] != s[i];
    }
  }

  /** Nothing has moved: the groups have the pages they had. */
  lemma StayedPartitioned(st: State, st1: State, all: set<int>)
    requires Partitioned(st, all) && st1.free == st.free && st1.groups.Keys == st.groups.Keys
    requires forall h :: h in st.groups ==> Pages(st1.groups[h]) == Pages(st.groups[h])
    ensures Partitioned(st1, all)
  {
    hide Pages;
    forall h, p ensures InGroup(st1, h, p) <==> InGroup(st, h, p) {
    }
    forall p | p in all ensures p in st1.free || exists h :: InGroup(st1, h, p) {
      if p !in st.free {
        var h :| InGroup(st, h, p);
        assert InGroup(st1, h, p);
      }
    }
  }

  function Reversed(s: seq<int>): (r: seq<int>)
    ensures |r| == |s|
  {
    if s == [] then [] else [s[|s| - 1]] + Reversed(s[..|s| - 1])
  }

  lemma {:induction false} ReversedSame(s: seq<int>)
    ensures forall p :: p in Reversed(s) <==> p in s
    ensures Distinct(s) ==> Distinct(Reversed(s))
  {
    if s != [] {
      var front, last := s[..|s| - 1], s[|s| - 1];
      ReversedSame(front);
      assert s == front + [last];
      if Distinct(s) {
        assert last !in front;
        assert Distinct(front);
      }
    }
  }

  /** The pages of group g, which is gone, are back on the free list, the last one in front. */
  ghost predicate Gave(st: State, st1: State, g: GroupId) {
    && g in st.groups && st1.groups.Keys == st.groups.Keys - {g} && st1.free == Reversed(Pages(st.groups[g])) + st.free
    && forall h :: h in st1.groups ==> Pages(st1.groups[h]) == Pages(st.groups[h])
  }

  lemma GavePartitioned(st: State, st1: State, g: GroupId, all: set<int>)
    requires Partitioned(st, all) && Gave(st, st1, g)
    ensures Partitioned(st1, all)
  {
    hide Pages, Reversed;
    var pages := Pages(st.groups[g]);
    ReversedSame(pages);
    forall p | p in pages ensures p !in st.free && p in all && p > 0 {
      assert InGroup(st, g, p);
    }
    forall h, p | InGroup(st1, h, p) ensures p in all && p !in st1.free && p > 0 && InGroup(st, h, p) {
      assert InGroup(st, h, p);
      assert p in pages ==> InGroup(st, g, p);
    }
    forall p | p in all ensures p in st1.free || exists h :: InGroup(st1, h, p) {
      if p !in st.free && p !in pages {
        var h :| InGroup(st, h, p);
        assert InGroup(st1, h, p);
      }
    }
    DistinctJoined(Reversed(pages), st.free);
  }

  lemma DistinctJoined(s: seq<int>, t: seq<int>)
    requires Distinct(s) && Distinct(t) && forall p :: p in s ==> p !in t
    ensures Distinct(s + t)
  {
    forall i, j | 0 <= i < j < |s + t| ensures (s + t)[i] != (s + t)[j] {
      if i < |s| <= j {
        assert s[i] in s && t[j - |s|] in t;
      }
    }
  }

  /* The operations keep the invariant. */

  ghost predicate Fresh(st: State, a: AreaId, g: GroupId) { a !in st.areas && g !in st.groups }

  /** A new area and its group, with the first pages of the free list. */
  lemma CreateValid(st: State, a: AreaId, area: Area, group: Group, all: set<int>)
    requires Valid(st, all) && Fresh(st, a, area.group) && area.space in st.tables
    requires GroupFits(group) && group.refcount == 1 && group.size <= |st.free| && Pages(group) == st.free[..group.size]
    requires area.length == group.size && 1 <= area.virt && FreeSpan(st.tables[area.space], area.virt, area.length)
    ensures Valid(MapArea(st, a, area, st.groups[area.group := group], st.free[group.size..]), all)
  {
    hide Pages, Maps, Apart, CoveredBy, GroupFits;
    GroupFitsSize(group);
    var st1 := MapArea(st, a, area, st.groups[area.group := group], st.free[group.size..]);
    MapAreaMapped(st, a, area, st.groups[area.group := group], st.free[group.size..]);
    UsersAdded(st, a, area, st1);
    NoUsers(st, area.group);
    assert Took(st, st1, area.group, group.size);
    TookPartitioned(st, st1, area.group, group.size, all);
  }

  lemma GroupFitsSize(g: Group)
    requires GroupFits(g)
    ensures g.size >= 1 && |Pages(g)| == g.size
  {
    SlotCount(g.chain);
  }

  lemma NoUsers(st: State, g: GroupId)
    requires Mapped(st) && g !in st.groups
    ensures Users(st, g) == {}
  {
    forall a | a in st.areas ensures st.areas[a].group != g {
      assert Maps(st, a);
    }
  }

  /** Another area for a group that exists. */
  lemma CloneValid(st: State, a: AreaId, area: Area, all: set<int>)
    requires Valid(st, all) && a !in st.areas && area.group in st.groups && area.space in st.tables
    requires var group := st.groups[area.group];
             area.length == |Pages(group)| && 1 <= area.virt && FreeSpan(st.tables[area.space], area.virt, area.length)
    ensures var group := st.groups[area.group];
            Valid(MapArea(st, a, area, st.groups[area.group := group.(refcount := group.refcount + 1)], st.free), all)
  {
    hide Pages, Maps, Apart, CoveredBy;
    var group := st.groups[area.group];
    GroupFitsSize(group);
    SamePages(group, group.refcount + 1);
    var groups := st.groups[area.group := group.(refcount := group.refcount + 1)];
    var st1 := MapArea(st, a, area, groups, st.free);
    MapAreaMapped(st, a, area, groups, st.free);
    UsersAdded(st, a, area, st1);
    StayedPartitioned(st, st1, all);
  }

  lemma SamePages(group: Group, n: int)
    ensures Pages(group.(refcount := n)) == Pages(group)
  {
  }

  /** An area goes, and others still share its group. */
  lemma ReleaseValid(st: State, a: AreaId, all: set<int>)
    requires Valid(st, all) && InRange(st, a) && st.groups[st.areas[a].group].refcount > 1
    ensures var g, group := st.areas[a].group, st.groups[st.areas[a].group];
            Valid(UnmapArea(st, a, st.groups[g := group.(refcount := group.refcount - 1)], st.free), all)
  {
    hide Pages, Maps, Apart, CoveredBy;
    var g, group := st.areas[a].group, st.groups[st.areas[a].group];
    SamePages(group, group.refcount - 1);
    var groups := st.groups[g := group.(refcount := group.refcount - 1)];
    var st1 := UnmapArea(st, a, groups, st.free);
    AreasHaveGroups(st);
    UnmapAreaMapped(st, a, groups, st.free);
    UsersRemoved(st, a, st1);
    forall h | h in st1.groups ensures st1.groups[h].refcount == |Users(st1, h)| && Users(st1, h) != {} {
      if h == g {
        assert |Users(st, g) - {a}| == |Users(st, g)| - 1;
      } else {
        assert Users(st, h) - {a} == Users(st, h);
      }
    }
    StayedPartitioned(st, st1, all);
  }

  lemma AreasHaveGroups(st: State)
    requires Mapped(st)
    ensures forall b :: b in st.areas ==> st.areas[b].group in st.groups
  {
    forall b | b in st.areas ensures st.areas[b].group in st.groups {
      assert Maps(st, b);
    }
  }

  /** The last area of a group goes, and the group with it: its pages are free again. */
  lemma DestroyValid(st: State, a: AreaId, all: set<int>)
    requires Valid(st, all) && InRange(st, a) && st.groups[st.areas[a].group].refcount == 1
    ensures var g, group := st.areas[a].group, st.groups[st.areas[a].group];
            Valid(UnmapArea(st, a, st.groups - {g}, Reversed(Pages(group)) + st.free), all)
  {
    hide Pages, Maps, Apart, CoveredBy, Reversed;
    var g, group := st.areas[a].group, st.groups[st.areas[a].group];
    var groups, free := st.groups - {g}, Reversed(Pages(group)) + st.free;
    var st1 := UnmapArea(st, a, groups, free);
    AreasHaveGroups(st);
    OnlyUser(st, a, g);
    UnmapAreaMapped(st, a, groups, free);
    UsersRemoved(st, a, st1);
    assert Gave(st, st1, g);
    GavePartitioned(st, st1, g, all);
  }

  /** The only area of a group is the one we know. */
  lemma OnlyUser(st: State, a: AreaId, g: GroupId)
    requires a in st.areas && st.areas[a].group == g && |Users(st, g)| == 1
    ensures forall b :: b in st.areas && b != a ==> st.areas[b].group != g
  {
    assert a in Users(st, g);
    assert |Users(st, g) - {a}| == 0;
    forall b | b in st.areas && b != a ensures st.areas[b].group != g {
      assert b !in Users(st, g) - {a};
    }
  }

  /** The only area of a group grows by the first pages of the free list. */
  lemma ExtendValid(st: State, a: AreaId, n: nat, group: Group, all: set<int>)
    requires Valid(st, all) && InRange(st, a) && st.groups[st.areas[a].group].refcount == 1
    requires 1 <= n <= |st.free| && GroupFits(group) && group.refcount == 1
    requires Pages(group) == Pages(st.groups[st.areas[a].group]) + st.free[..n]
    requires FreeSpan(st.tables[st.areas[a].space], st.areas[a].virt + st.areas[a].length, n)
    ensures Valid(ExtendArea(st, a, st.free[..n], st.groups[st.areas[a].group := group], st.free[n..]), all)
  {
    hide Pages, Maps, Apart, CoveredBy, GroupFits;
    var g, more := st.areas[a].group, st.free[..n];
    var groups := st.groups[g := group];
    var st1 := ExtendArea(st, a, more, groups, st.free[n..]);
    AreasHaveGroups(st);
    OnlyUser(st, a, g);
    ExtendAreaMapped(st, a, more, groups, st.free[n..]);
    SameUsers(st, st1);
    assert Took(st, st1, g, n);
    TookPartitioned(st, st1, g, n, all);
  }

  lemma SameUsers(st: State, st1: State)
    requires st1.areas.Keys == st.areas.Keys && forall a :: a in st.areas ==> st1.areas[a].group == st.areas[a].group
    ensures forall g :: Users(st1, g) == Users(st, g)
  {
    forall g ensures Users(st1, g) == Users(st, g) {
      assert forall x :: x in Users(st1, g) <==> x in Users(st, g);
    }
  }
}
