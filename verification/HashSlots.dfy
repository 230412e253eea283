/** What the slots of a double-hashing table say about the map it stands for. */
module HashSlots {
  import opened HashProbe

  datatype Node = Node(valid: bool, dirty: bool, key: int, data: int, dsize: int)
  datatype Entry = Entry(data: int, dsize: int)

  const FREE := Node(false, false, 0, 0, 0)

  /** A slot in use whose key has not been removed. */
  predicate Live(n: Node) { n.valid && !n.dirty }

  /** The first j slots on the key's probe are in use. */
  ghost predicate PathInUse(s: seq<Node>, key: int, j: nat)
    requires |s| >= 7
  {
    forall l: nat :: l < j ==> s[Probe(key, |s|, l)].valid
  }

  ghost predicate FoundAfter(s: seq<Node>, i: nat, j: nat)
    requires |s| >= 7 && i < |s|
  {
    j < |s| && Probe(s[i].key, |s|, j) == i && PathInUse(s, s[i].key, j)
  }

  ghost predicate LiveAt(s: seq<Node>, i: int, key: int) {
    0 <= i < |s| && Live(s[i]) && s[i].key == key
  }

  /** The live slots hold the map's entries, each once, where the key's probe passes only slots in use. */
  ghost predicate Holds(s: seq<Node>, contents: map<int, Entry>) {
    && |s| >= 7
    && (forall i :: 0 <= i < |s| && s[i].dirty ==> s[i].valid)
    && (forall i :: 0 <= i < |s| && Live(s[i]) ==>
        s[i].key in contents && contents[s[i].key] == Entry(s[i].data, s[i].dsize))
    && (forall i :: 0 <= i < |s| && Live(s[i]) ==> exists j: nat :: FoundAfter(s, i, j))
    && (forall i, k | 0 <= i < |s| && 0 <= k < |s| && Live(s[i]) && Live(s[k]) :: s[i].key == s[k].key ==> i == k)
    && (forall key :: key in contents ==> exists i :: LiveAt(s, i, key))
  }

  lemma EmptyHolds(s: seq<Node>)
    requires |s| >= 7 && forall i :: 0 <= i < |s| ==> !s[i].valid && !s[i].dirty
    ensures Holds(s, map[])
  {
  }

  /** A free or abandoned slot at the end of a path in use takes a new key. */
  lemma PutHolds(s: seq<Node>, contents: map<int, Entry>, key: int, data: int, dsize: int, j: nat)
    requires Holds(s, contents) && key !in contents && j < |s| && PathInUse(s, key, j)
    requires !Live(s[Probe(key, |s|, j)])
    ensures Holds(s[Probe(key, |s|, j) := Node(true, false, key, data, dsize)], contents[key := Entry(data, dsize)])
  {
    hide Probe;
    var p := Probe(key, |s|, j);
    var s' := s[p := Node(true, false, key, data, dsize)];
    var contents' := contents[key := Entry(data, dsize)];
    forall i | 0 <= i < |s'| && Live(s'[i]) ensures exists k: nat :: FoundAfter(s', i, k) {
      if i == p {
        assert FoundAfter(s', i, j);
      } else {
        var k: nat :| FoundAfter(s, i, k);
        assert FoundAfter(s', i, k);
      }
    }
    forall x | x in contents' ensures exists i :: LiveAt(s', i, x) {
      if x == key {
        assert LiveAt(s', p, x);
      } else {
        var i :| LiveAt(s, i, x);
        assert LiveAt(s', i, x);
      }
    }
  }

  /** A live slot is abandoned: it stays in use, and its key is gone. */
  lemma DropHolds(s: seq<Node>, contents: map<int, Entry>, p: nat)
    requires Holds(s, contents) && p < |s| && Live(s[p])
    ensures Holds(s[p := s[p].(dirty := true)], contents - {s[p].key})
  {
    hide Probe;
    var s' := s[p := s[p].(dirty := true)];
    var contents' := contents - {s[p].key};
    forall i | 0 <= i < |s'| && Live(s'[i]) ensures exists k: nat :: FoundAfter(s', i, k) {
      var k: nat :| FoundAfter(s, i, k);
      assert FoundAfter(s', i, k);
    }
    forall x | x in contents' ensures exists i :: LiveAt(s', i, x) {
      var i :| LiveAt(s, i, x);
      assert LiveAt(s', i, x);
    }
  }

  lemma KeyAt(s: seq<Node>, contents: map<int, Entry>, i: nat)
    requires Holds(s, contents) && i < |s| && Live(s[i])
    ensures s[i].key in contents && contents[s[i].key] == Entry(s[i].data, s[i].dsize)
  {
  }

  lemma FoundBefore(s: seq<Node>, key: int, i: nat, j: nat, n: nat)
    requires |s| >= 7 && LiveAt(s, i, key) && FoundAfter(s, i, j)
    requires !s[Probe(key, |s|, n)].valid
    ensures j < n
  {
    hide Probe;
  }

  /** A probe that ends at a slot not in use has passed the key if it is there. */
  lemma NotMissed(s: seq<Node>, contents: map<int, Entry>, key: int, n: nat)
    requires Holds(s, contents) && !s[Probe(key, |s|, n)].valid
    ensures key in contents ==> exists l: nat :: l < n && LiveAt(s, Probe(key, |s|, l), key)
  {
    hide Probe;
    if key in contents {
      var i :| LiveAt(s, i, key);
      var j: nat :| FoundAfter(s, i, j);
      FoundBefore(s, key, i, j, n);
      assert LiveAt(s, Probe(key, |s|, j), key);
    }
  }

  function Weight(n: Node, live: bool): nat {
    if n.valid && !(live && n.dirty) then 1 else 0
  }

  /** How many slots are in use, or live. */
  function Count(s: seq<Node>, live: bool): nat {
    if s == [] then 0 else Count(s[..|s| - 1], live) + Weight(s[|s| - 1], live)
  }

  lemma {:induction false} CountPut(s: seq<Node>, p: nat, n: Node, live: bool)
    requires p < |s|
    ensures Count(s[p := n], live) == Count(s, live) - Weight(s[p], live) + Weight(n, live)
  {
    hide Weight;
    var s', k := s[p := n], |s| - 1;
    if p == k {
      assert s'[..k] == s[..k];
    } else {
      CountPut(s[..k], p, n, live);
      assert s'[..k] == s[..k][p := n];
    }
  }

  lemma {:induction false} CountNone(s: seq<Node>, live: bool)
    requires forall i :: 0 <= i < |s| ==> !s[i].valid
    ensures Count(s, live) == 0
  {
    if s != [] {
      CountNone(s[..|s| - 1], live);
    }
  }

  /** With fewer slots in use than there are, one is free. */
  lemma {:induction false} FreeSlot(s: seq<Node>) returns (i: nat)
    requires Count(s, false) < |s|
    ensures i < |s| && !s[i].valid
  {
    if !s[|s| - 1].valid {
      i := |s| - 1;
    } else {
      i := FreeSlot(s[..|s| - 1]);
    }
  }

  /** With as many slots in use as there are, none is free. */
  lemma {:induction false} AllValid(s: seq<Node>)
    requires Count(s, false) >= |s|
    ensures forall i :: 0 <= i < |s| ==> s[i].valid
  {
    if s != [] {
      var r := s[..|s| - 1];
      LivePrefix(r, 0);
      AllValid(r);
      forall i | 0 <= i < |s| ensures s[i].valid {
        assert i < |r| ==> r[i] == s[i];
      }
    }
  }

  lemma NotLive(s: seq<Node>, contents: map<int, Entry>, key: int, j: nat)
    requires Holds(s, contents) && key !in contents
    ensures !LiveAt(s, Probe(key, |s|, j), key)
  {
    hide Probe;
  }

  /** The loop that looks for a missing key comes to its end if and only if some slot is free. */
  lemma MissEndsExactly(s: seq<Node>, contents: map<int, Entry>, key: int)
    requires Holds(s, contents) && Prime(|s|) && key !in contents
    ensures (exists j: nat :: !s[Probe(key, |s|, j)].valid) <==> (exists i :: 0 <= i < |s| && !s[i].valid)
    ensures forall j: nat :: !LiveAt(s, Probe(key, |s|, j), key)
  {
    hide Probe;
    forall j: nat ensures !LiveAt(s, Probe(key, |s|, j), key) {
      NotLive(s, contents, key, j);
    }
    if i :| 0 <= i < |s| && !s[i].valid {
      var j := ProbeCovers(key, |s|, i);
      assert !s[Probe(key, |s|, j)].valid;
    }
  }

  lemma {:induction false} LivePrefix(s: seq<Node>, i: nat)
    requires i <= |s|
    ensures Count(s[..i], true) <= Count(s, true) <= Count(s, false) <= |s|
  {
    if s != [] {
      var r := s[..|s| - 1];
      if i < |s| {
        LivePrefix(r, i);
        assert r[..i] == s[..i];
      } else {
        LivePrefix(r, |r|);
        assert s[..i] == s;
      }
    }
  }

  /** The entries of the first i slots have been moved to now. */
  ghost predicate Moved(s: seq<Node>, i: nat, was: map<int, Entry>, now: map<int, Entry>) {
    && i <= |s|
    && (forall key :: key in now ==> key in was && now[key] == was[key] && exists l :: l < i && LiveAt(s, l, key))
    && (forall l :: 0 <= l < i && Live(s[l]) ==> s[l].key in now)
  }

  lemma NoneMoved(s: seq<Node>, was: map<int, Entry>)
    ensures Moved(s, 0, was, map[])
  {
  }

  lemma NothingToMove(s: seq<Node>, i: nat, was: map<int, Entry>, now: map<int, Entry>)
    requires Moved(s, i, was, now) && i < |s| && !Live(s[i])
    ensures Moved(s, i + 1, was, now)
  {
    forall key | key in now ensures exists l :: l < i + 1 && LiveAt(s, l, key) {
      var l :| l < i && LiveAt(s, l, key);
      assert l < i + 1 && LiveAt(s, l, key);
    }
  }

  lemma NotMovedYet(s: seq<Node>, i: nat, was: map<int, Entry>, now: map<int, Entry>)
    requires Holds(s, was) && Moved(s, i, was, now) && i < |s| && Live(s[i])
    ensures s[i].key !in now && s[i].key in was && was[s[i].key] == Entry(s[i].data, s[i].dsize)
  {
    hide FoundAfter;
  }

  lemma MovedNext(s: seq<Node>, i: nat, was: map<int, Entry>, now: map<int, Entry>)
    requires Holds(s, was) && Moved(s, i, was, now) && i < |s| && Live(s[i])
    ensures Moved(s, i + 1, was, now[s[i].key := Entry(s[i].data, s[i].dsize)])
  {
    hide FoundAfter;
    var now' := now[s[i].key := Entry(s[i].data, s[i].dsize)];
    forall key | key in now' ensures exists l :: l < i + 1 && LiveAt(s, l, key) {
      if key == s[i].key {
        assert LiveAt(s, i, key);
      } else {
        var l :| l < i && LiveAt(s, l, key);
        assert l < i + 1 && LiveAt(s, l, key);
      }
    }
  }

  lemma AllMoved(s: seq<Node>, was: map<int, Entry>, now: map<int, Entry>)
    requires Holds(s, was) && Moved(s, |s|, was, now)
    ensures now == was
  {
    hide FoundAfter;
    forall key | key in was ensures key in now {
      var i :| LiveAt(s, i, key);
      assert 0 <= i < |s| && Live(s[i]) && s[i].key in now;
    }
    forall key | key in now ensures key in was && now[key] == was[key] {
    }
  }
}
