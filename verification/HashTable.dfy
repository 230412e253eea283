/**
 The hash table of openblt/lib/libblt/hash.c: double hashing with abandoned slots,
 growing and shrinking by inserting every live entry anew.
 */
module HashTable {
  import opened HashProbe
  import opened HashSlots

  /** Are n slots more than the load allows in a table of that size? */
  predicate Exceeds(load: real, n: int, index: nat)
    requires index < SIZES
  {
    n as real > load * TableSize(index) as real
  }

  /** An insertion that does not rebuild leaves a slot free, in tables of every size, exactly below a load of six
      sevenths.  What a load from there on leads to is FillSmallest. */
  lemma RoomExactly(load: real)
    requires load > 0.0
    ensures 7.0 * load < 6.0 <==>
      forall n: int, index: nat :: index < SIZES && !Exceeds(load, n, index) ==> n + 1 < TableSize(index)
  {
    if 7.0 * load < 6.0 {
      forall n: int, index: nat | index < SIZES && !Exceeds(load, n, index)
        ensures n + 1 < TableSize(index)
      {
        LeavesRoom(load, n, TableSize(index));
      }
    } else {
      assert TableSize(0) == 7 && !Exceeds(load, 6, 0);
    }
  }

  lemma NotExceeded(load: real, n: int)
    requires 7.0 * load >= 6.0 && n <= 6
    ensures !Exceeds(load, n, 0)
  {
    assert TableSize(0) == 7;
  }

  lemma LeavesRoom(load: real, n: int, size: nat)
    requires 7.0 * load < 6.0 && size >= 7 && n as real <= load * size as real
    ensures n + 1 < size
  {
    assert load * size as real < size as real * 6.0 / 7.0;
    assert size as real * 6.0 / 7.0 <= size as real - 1.0;
  }

  class Table {
    var table: array<Node>
    var sizeIndex: nat
    var used: int
    var dirty: int
    const maxLoad: real
    ghost var contents: map<int, Entry>

    /** A load that leaves at least one slot of the smallest table free. */
    ghost predicate LoadInRange() { 0.0 < maxLoad && 7.0 * maxLoad < 6.0 }

    predicate Overloaded(n: int, index: nat)
      requires index < SIZES
    {
      Exceeds(maxLoad, n, index)
    }

    /** The slots stand for the contents, and the counters tell the slots in use, and no fewer than are abandoned. */
    ghost predicate Sound()
      reads this, table
    {
      && sizeIndex < SIZES && table.Length == TableSize(sizeIndex)
      && used == Count(table[..], false)
      && used - Count(table[..], true) <= dirty
      && Holds(table[..], contents)
    }

    /** Besides, one slot at least is free.  The largest size still does for what is in use. */
    ghost predicate Valid()
      reads this, table
    {
      LoadInRange() && Sound() && used < table.Length && !Overloaded(used - 1, SIZES - 1)
    }

    lemma LoadMonotone(n: int, index: nat)
      requires LoadInRange() && index < SIZES && !Overloaded(n, index)
      ensures !Overloaded(n, SIZES - 1)
    {
      if index < SIZES - 1 {
        SizesGrow(index, SIZES - 1);
      }
      assert maxLoad * TableSize(index) as real <= maxLoad * TableSize(SIZES - 1) as real;
    }

    lemma NextPrefix(s: seq<Node>, i: nat)
      requires i < |s|
      ensures Count(s[..i + 1], true) == Count(s[..i], true) + Weight(s[i], true) <= Count(s, true)
    {
      LivePrefix(s, i + 1);
      assert s[..i + 1][..i] == s[..i];
    }

    constructor (load: real)
      requires 0.0 < load
      ensures Sound() && contents == map[] && maxLoad == load && fresh(table) && used == sizeIndex == 0
      ensures Count(table[..], true) == 0
      ensures 7.0 * load < 6.0 ==> Valid()
    {
      sizeIndex, used, dirty, maxLoad := 0, 0, 0, load;
      table := new Node[TableSize(0)](_ => FREE);
      contents := map[];
      new;
      CountNone(table[..], false);
      CountNone(table[..], true);
      EmptyHolds(table[..]);
      if 7.0 * load < 6.0 {
        LoadMonotone(-1, 0);
      }
    }

    /** The first slot on the key's probe that a new entry may take; a home slot in use is passed even when
        abandoned. */
    method FindFree(key: int) returns (i: int, ghost n: nat)
      requires Sound() && used < table.Length && SizesPrime()
      ensures n < table.Length && i == Probe(key, table.Length, n) && PathInUse(table[..], key, n) && !Live(table[i])
      ensures table[i].dirty ==> table[i].valid
    {
      hide Probe, Home, Step, Back, Count, Overloaded;
      ghost var size := table.Length;
      ghost var end := FreeSlot(table[..]);
      ghost var last := ProbeCovers(key, size, end);
      ProbeHome(key, size);
      i, n := Home(key, TableSize(sizeIndex)), 0;
      if table[i].valid {
        ProbeNext(key, size, 0);
        i, n := Back(i, Step(key, TableSize(sizeIndex)), TableSize(sizeIndex)), 1;
        while table[i].valid && !table[i].dirty
          invariant n <= last && i == Probe(key, size, n) && PathInUse(table[..], key, n)
          decreases last - n
        {
          ProbeNext(key, size, n);
          i, n := Back(i, Step(key, TableSize(sizeIndex)), TableSize(sizeIndex)), n + 1;
        }
      }
    }

    /** Adds an entry under a key that is not there yet; a table too full is rebuilt first. */
    method Insert(key: int, data: int, dsize: int)
      requires Sound() && SizesPrime() && key !in contents
      requires (Valid() && !Overloaded(used, SIZES - 1)) || (!Overloaded(used, sizeIndex) && used < table.Length)
      modifies this, table
      ensures Sound() && contents == old(contents)[key := Entry(data, dsize)]
      ensures old(Valid() && !Overloaded(used, SIZES - 1)) ==> Valid()
      ensures if old(Overloaded(used, sizeIndex)) then sizeIndex > old(sizeIndex) && dirty == 0
              else sizeIndex == old(sizeIndex) && dirty == old(dirty) && table == old(table)
      ensures old(!Overloaded(used, sizeIndex)) ==> Count(table[..], true) == old(Count(table[..], true)) + 1
      ensures used <= old(used) + 1 && (table == old(table) || fresh(table))
      decreases SIZES - sizeIndex, 0
    {
      hide Holds, Probe, PathInUse, Count, Weight, TableSize;
      ghost var wasUsed, wasIndex := used, sizeIndex;
      if Overloaded(used, sizeIndex) {
        BeforeGrowing(sizeIndex);
        Rebuild(1);
        SizesGrow(wasIndex, sizeIndex);
        LoadSmaller(used, wasUsed, SIZES - 1);
      } else if LoadInRange() {
        LeavesRoom(maxLoad, used, TableSize(sizeIndex));
      }
      ghost var s := table[..];
      var i;
      ghost var n;
      i, n := FindFree(key);
      var node := Node(true, false, key, data, dsize);
      PutHolds(s, contents, key, data, dsize, n);
      PutCounts(s, i, node);
      if !table[i].dirty {
        used := used + 1;
      }
      if !Overloaded(wasUsed, SIZES - 1) {
        LoadSmaller(used - 1, wasUsed, SIZES - 1);
      }
      table[i] := node;
      contents := contents[key := Entry(data, dsize)];
      assert table[..] == s[i := node];
    }

    lemma LoadSmaller(n: int, m: int, index: nat)
      requires index < SIZES && n <= m && !Overloaded(m, index)
      ensures !Overloaded(n, index)
    {
    }

    /** A table that is to grow is not of the last size. */
    lemma BeforeGrowing(index: nat)
      requires Valid() && index == sizeIndex && Overloaded(used, index) && !Overloaded(used, SIZES - 1)
      ensures index + 1 < SIZES && Count(table[..], true) <= used && !Overloaded(Count(table[..], true) - 1, SIZES - 1)
    {
      hide Holds, Count, TableSize, LoadInRange, Weight;
      LivePrefix(table[..], 0);
    }

    lemma PutCounts(s: seq<Node>, i: nat, node: Node)
      requires i < |s| && !Live(s[i]) && Live(node) && (s[i].dirty ==> s[i].valid)
      ensures Count(s[i := node], false) == Count(s, false) + (if s[i].dirty then 0 else 1)
      ensures Count(s[i := node], true) == Count(s, true) + 1
    {
      CountPut(s, i, node, false);
      CountPut(s, i, node, true);
    }

    function Target(dir: int): nat
      reads this
    {
      if dir == -1 then (if sizeIndex != 0 then sizeIndex - 1 else 0) else if dir == 1 then sizeIndex + 1 else sizeIndex
    }

    /** Moves every live entry to a new table, of the next size or the one before. */
    method Rebuild(dir: int)
      requires Valid() && SizesPrime() && Target(dir) < SIZES
      requires !Overloaded(Count(table[..], true) - 1, SIZES - 1)
      modifies this
      ensures Valid() && contents == old(contents) && sizeIndex >= old(Target(dir))
      ensures -1 <= dir <= 1 ==> fresh(table) && dirty == 0 && used <= old(Count(table[..], true))
      decreases SIZES - Target(dir), 1
    {
      hide Holds, Count, LoadInRange, Overloaded, TableSize, Moved;
      ghost var s, was, target := table[..], contents, Target(dir);
      var oldTable, oldIndex := table, sizeIndex;
      if dir == -1 {
        sizeIndex := if sizeIndex != 0 then sizeIndex - 1 else 0;
      } else if dir == 1 {
        sizeIndex := sizeIndex + 1;
      } else if dir != 0 {
        return;
      }
      used, dirty := 0, 0;
      table := new Node[TableSize(sizeIndex)](_ => FREE);
      contents := map[];
      StartEmpty();
      NoneMoved(s, was);
      var i := 0;
      while i < TableSize(oldIndex)
        invariant i <= |s| && Valid() && fresh(table) && table != oldTable && oldTable[..] == s
        invariant Moved(s, i, was, contents) && sizeIndex >= target && dirty == 0 && used <= Count(s[..i], true)
      {
        NextPrefix(s, i);
        if oldTable[i].valid && !oldTable[i].dirty {
          NotMovedYet(s, i, was, contents);
          LoadSmaller(used, Count(s, true) - 1, SIZES - 1);
          ghost var before := contents;
          Insert(oldTable[i].key, oldTable[i].data, oldTable[i].dsize);
          MovedNext(s, i, was, before);
        } else {
          NothingToMove(s, i, was, contents);
        }
        i := i + 1;
      }
      assert s[..i] == s;
      AllMoved(s, was, contents);
    }

    lemma StartEmpty()
      requires LoadInRange() && sizeIndex < SIZES && table.Length == TableSize(sizeIndex) && used == dirty == 0
      requires contents == map[]
      requires forall i :: 0 <= i < table.Length ==> table[i] == FREE
      ensures Valid()
    {
      CountNone(table[..], false);
      CountNone(table[..], true);
      EmptyHolds(table[..]);
      LoadMonotone(-1, 0);
    }

    /** Follows the key's probe until it meets the key or a slot not in use. */
    method Find(key: int) returns (found: bool, i: int)
      requires Valid() && SizesPrime()
      ensures found == (key in contents)
      ensures found ==> LiveAt(table[..], i, key) && contents[key] == Entry(table[i].data, table[i].dsize)
    {
      hide Holds, Probe, Home, Step, Back, Count, Overloaded;
      ghost var s, size := table[..], table.Length;
      ghost var end := FreeSlot(s);
      ghost var last := ProbeCovers(key, size, end);
      ghost var n: nat := 0;
      ProbeHome(key, size);
      i := Home(key, TableSize(sizeIndex));
      while table[i].valid
        invariant n <= last && i == Probe(key, size, n)
        invariant forall l: nat :: l < n ==> !LiveAt(s, Probe(key, size, l), key)
        decreases last - n
      {
        if table[i].key == key && !table[i].dirty {
          KeyAt(s, contents, i);
          return true, i;
        }
        ProbeNext(key, size, n);
        i, n := Back(i, Step(key, TableSize(sizeIndex)), TableSize(sizeIndex)), n + 1;
      }
      NotMissed(s, contents, key, n);
      found := false;
    }

    /** What is stored under the key; zeros when nothing is. */
    method Lookup(key: int) returns (data: int, dsize: int)
      requires Valid() && SizesPrime()
      ensures if key in contents then contents[key] == Entry(data, dsize) else data == dsize == 0
    {
      var found, i := Find(key);
      if found {
        return table[i].data, table[i].dsize;
      }
      return 0, 0;
    }

    /**
     Takes the entry under the key out and returns what it was; its slot stays in use until the
     table has too many abandoned ones and is rebuilt.
     */
    method Remove(key: int) returns (data: int, dsize: int)
      requires Valid() && SizesPrime()
      modifies this, table
      ensures Valid() && contents == old(contents) - {key}
      ensures if key in old(contents) then old(contents)[key] == Entry(data, dsize) else data == dsize == 0
      ensures table == old(table) || fresh(table)
      ensures key in old(contents) && sizeIndex > 0 ==> dirty as real <= (1.0 - maxLoad) * TableSize(sizeIndex) as real
    {
      hide Holds, Count, Weight, Overloaded, LoadInRange, TableSize;
      var found, i := Find(key);
      if !found {
        return 0, 0;
      }
      data, dsize := table[i].data, table[i].dsize;
      ghost var s := table[..];
      KeyAt(s, contents, i);
      DropHolds(s, contents, i);
      DropCounts(s, i);
      table[i] := table[i].(dirty := true);
      dirty := dirty + 1;
      contents := contents - {key};
      assert table[..] == s[i := s[i].(dirty := true)];
      SpareLoad(sizeIndex);
      if dirty as real > (1.0 - maxLoad) * TableSize(sizeIndex) as real && sizeIndex != 0 {
        LoadSmaller(Count(table[..], true) - 1, used - 1, SIZES - 1);
        Rebuild(-1);
        SpareLoad(sizeIndex);
      }
    }

    lemma DropCounts(s: seq<Node>, i: nat)
      requires i < |s| && Live(s[i])
      ensures var s' := s[i := s[i].(dirty := true)];
              Count(s', false) == Count(s, false) && Count(s', true) == Count(s, true) - 1
                && Count(s', true) <= Count(s', false)
    {
      var s' := s[i := s[i].(dirty := true)];
      CountPut(s, i, s[i].(dirty := true), false);
      CountPut(s, i, s[i].(dirty := true), true);
      LivePrefix(s', 0);
    }

    lemma SpareLoad(index: nat)
      requires LoadInRange() && index < SIZES
      ensures (1.0 - maxLoad) * TableSize(index) as real >= 0.0
    {
    }
  }

  /**
   With a load of six sevenths or more, seven insertions into a new table rebuild nothing and leave no slot free; and
   then the loop that looks for a key that is not there never comes to a slot where it ends.
   */
  method FillSmallest(load: real, keys: seq<int>, data: int, dsize: int) returns (t: Table)
    requires 7.0 * load >= 6.0 && SizesPrime()
    requires |keys| == 7 && forall i, j | 0 <= i < j < 7 :: keys[i] != keys[j]
    ensures fresh(t) && t.Sound() && t.sizeIndex == 0 && t.table.Length == 7 && t.used == 7
    ensures forall key :: key in t.contents <==> key in keys
    ensures forall i | 0 <= i < 7 :: t.table[i].valid
    ensures forall key, j: nat | key !in keys ::
              var i := Probe(key, 7, j); t.table[i].valid && !LiveAt(t.table[..], i, key)
  {
    hide Holds, Probe, Count, LiveAt, Exceeds;
    t := new Table(load);
    FirstSize();
    var i := 0;
    while i < 7
      invariant 0 <= i <= 7 && fresh(t) && fresh(t.table) && t.Sound() && t.sizeIndex == 0 && t.maxLoad == load
      invariant t.used <= i && Count(t.table[..], true) == i
      invariant forall key :: key in t.contents <==> key in keys[..i]
    {
      NotExceeded(load, t.used);
      t.Insert(keys[i], data, dsize);
      assert keys[..i + 1] == keys[..i] + [keys[i]];
      i := i + 1;
    }
    assert keys[..7] == keys;
    LivePrefix(t.table[..], 0);
    AllValid(t.table[..]);
    forall key, j: nat | key !in keys
      ensures var i := Probe(key, 7, j); t.table[i].valid && !LiveAt(t.table[..], i, key)
    {
      NotLive(t.table[..], t.contents, key, j);
    }
  }

  lemma FirstSize()
    ensures TableSize(0) == 7
  {
  }
}
