/**
 The doubly linked circular lists of openblt/kernel/list.c, in one memory of next and prev
 fields by address.  A list record is itself the sentinel of its ring; a node is in one list
 at most.  The ghost field gives the nodes of every list in order.
 */
module KernelList {

  type Address = int
  type Fields = map<Address, int>

  function Get(m: Fields, a: Address): int { if a in m then m[a] else 0 }

  /** The node at position i; the list record stands at both ends. */
  function At(list: Address, nodes: seq<Address>, i: int): Address {
    if 0 <= i < |nodes| then nodes[i] else list
  }

  /** The fields lead from the list record through the nodes, forward and back. */
  ghost predicate Ring(next: Fields, prev: Fields, list: Address, nodes: seq<Address>) {
    && (forall i {:trigger Get(next, At(list, nodes, i))} | -1 <= i < |nodes| ::
        Get(next, At(list, nodes, i)) == At(list, nodes, i + 1))
    && (forall i {:trigger Get(prev, At(list, nodes, i))} | 0 <= i <= |nodes| ::
        Get(prev, At(list, nodes, i)) == At(list, nodes, i - 1))
  }

  /** The nodes of all lists are different, and none is a list record. */
  ghost predicate Separate(lists: map<Address, seq<Address>>) {
    && (forall l, i :: l in lists && 0 <= i < |lists[l]| ==> lists[l][i] !in lists)
    && (forall l, i, m, j | l in lists && m in lists && 0 <= i < |lists[l]| && 0 <= j < |lists[m]| ::
          lists[l][i] == lists[m][j] ==> l == m && i == j)
  }

  ghost predicate InNoList(lists: map<Address, seq<Address>>, node: Address) {
    node !in lists && forall l :: l in lists ==> node !in lists[l]
  }

  /** The position of the first node that holds x; the length when there is none. */
  function First(data: Fields, nodes: seq<Address>, x: int): (i: nat)
    ensures i <= |nodes| && (i < |nodes| ==> Get(data, nodes[i]) == x) && forall j :: 0 <= j < i ==>
      Get(data, nodes[j]) != x
  {
    if nodes == [] || Get(data, nodes[0]) == x then 0 else 1 + First(data, nodes[1..], x)
  }

  function Without(s: seq<Address>, k: nat): (r: seq<Address>)
    requires k < |s|
    ensures |r| == |s| - 1 && forall i :: 0 <= i < |r| ==> r[i] == if i < k then s[i] else s[i + 1]
  {
    s[..k] + s[k + 1..]
  }

  function With(s: seq<Address>, k: nat, x: Address): (r: seq<Address>)
    requires k <= |s|
    ensures |r| == |s| + 1 && forall i :: 0 <= i < |r| ==>
      r[i] == if i < k then s[i] else if i == k then x else s[i - 1]
  {
    s[..k] + [x] + s[k..]
  }

  lemma RingAt(next: Fields, prev: Fields, list: Address, nodes: seq<Address>, i: int)
    requires Ring(next, prev, list, nodes)
    ensures -1 <= i < |nodes| ==> Get(next, At(list, nodes, i)) == At(list, nodes, i + 1)
    ensures 0 <= i <= |nodes| ==> Get(prev, At(list, nodes, i)) == At(list, nodes, i - 1)
  {
  }

  /** Different positions of a ring are different addresses, but for the two ends. */
  lemma Positions(lists: map<Address, seq<Address>>, l: Address, i: int, m: Address, j: int)
    requires Separate(lists) && l in lists && m in lists && -1 <= i <= |lists[l]| && -1 <= j <= |lists[m]|
    requires At(l, lists[l], i) == At(m, lists[m], j)
    ensures l == m && (i == j || {i, j} == {-1, |lists[l]|})
  {
  }

  lemma NodeFresh(lists: map<Address, seq<Address>>, l: Address, i: int, node: Address)
    requires l in lists && InNoList(lists, node)
    ensures At(l, lists[l], i) != node
  {
  }

  /** The links of the ring with node put in at position k. */
  lemma LinksWith(lists: map<Address, seq<Address>>, next: Fields, prev: Fields, l: Address, k: nat, node: Address,
                  i: int)
    requires Separate(lists) && l in lists && k <= |lists[l]| && Ring(next, prev, l, lists[l]) && InNoList(lists, node)
    requires -1 <= i <= |lists[l]| + 1
    ensures var s, t := lists[l], With(lists[l], k, node);
            var back, front := At(l, s, k - 1), At(l, s, k);
            && (i <= |s| ==> Get(next[node := front][back := node], At(l, t, i)) == At(l, t, i + 1))
            && (0 <= i ==> Get(prev[node := back][front := node], At(l, t, i)) == At(l, t, i - 1))
  {
    hide Separate, Ring, InNoList;
    var s := lists[l];
    NodeFresh(lists, l, k - 1, node);
    NodeFresh(lists, l, k, node);
    if i != k {
      var o := if i < k then i else i - 1;
      RingAt(next, prev, l, s, o);
      NodeFresh(lists, l, o, node);
      if At(l, s, o) == At(l, s, k - 1) {
        Positions(lists, l, o, l, k - 1);
      }
      if At(l, s, o) == At(l, s, k) {
        Positions(lists, l, o, l, k);
      }
    }
  }

  lemma RingWith(lists: map<Address, seq<Address>>, next: Fields, prev: Fields, l: Address, k: nat, node: Address)
    requires Separate(lists) && l in lists && k <= |lists[l]| && Ring(next, prev, l, lists[l]) && InNoList(lists, node)
    ensures var back, front := At(l, lists[l], k - 1), At(l, lists[l], k);
            Ring(next[node := front][back := node], prev[node := back][front := node], l, With(lists[l], k, node))
  {
    hide Separate, InNoList, At, Get;
    var s, t := lists[l], With(lists[l], k, node);
    var back, front := At(l, s, k - 1), At(l, s, k);
    forall i | -1 <= i <= |t|
      ensures i < |t| ==> Get(next[node := front][back := node], At(l, t, i)) == At(l, t, i + 1)
      ensures 0 <= i ==> Get(prev[node := back][front := node], At(l, t, i)) == At(l, t, i - 1)
    {
      LinksWith(lists, next, prev, l, k, node, i);
    }
  }

  /** The links of the ring without the node at position k. */
  lemma LinksWithout(lists: map<Address, seq<Address>>, next: Fields, prev: Fields, l: Address, k: nat, i: int)
    requires Separate(lists) && l in lists && k < |lists[l]| && Ring(next, prev, l, lists[l])
    requires -1 <= i <= |lists[l]| - 1
    ensures var s, t := lists[l], Without(lists[l], k);
            var back, front := At(l, s, k - 1), At(l, s, k + 1);
            && (i < |t| ==> Get(next[back := front], At(l, t, i)) == At(l, t, i + 1))
            && (0 <= i ==> Get(prev[front := back], At(l, t, i)) == At(l, t, i - 1))
  {
    hide Separate, Ring;
    var s := lists[l];
    var o := if i < k then i else i + 1;
    RingAt(next, prev, l, s, o);
    if At(l, s, o) == At(l, s, k - 1) {
      Positions(lists, l, o, l, k - 1);
    }
    if At(l, s, o) == At(l, s, k + 1) {
      Positions(lists, l, o, l, k + 1);
    }
  }

  lemma RingWithout(lists: map<Address, seq<Address>>, next: Fields, prev: Fields, l: Address, k: nat)
    requires Separate(lists) && l in lists && k < |lists[l]| && Ring(next, prev, l, lists[l])
    ensures var back, front := At(l, lists[l], k - 1), At(l, lists[l], k + 1);
            Ring(next[back := front], prev[front := back], l, Without(lists[l], k))
  {
    hide Separate, At, Get;
    var s, t := lists[l], Without(lists[l], k);
    var back, front := At(l, s, k - 1), At(l, s, k + 1);
    forall i | -1 <= i <= |t|
      ensures i < |t| ==> Get(next[back := front], At(l, t, i)) == At(l, t, i + 1)
      ensures 0 <= i ==> Get(prev[front := back], At(l, t, i)) == At(l, t, i - 1)
    {
      LinksWithout(lists, next, prev, l, k, i);
    }
  }

  /** What is written at other lists' nodes, or at a node in no list, leaves the ring. */
  lemma RingElsewhere(lists: map<Address, seq<Address>>, next: Fields, prev: Fields, next': Fields, prev': Fields,
                      l: Address)
    requires l in lists && Ring(next, prev, l, lists[l])
    requires forall i :: -1 <= i <= |lists[l]| ==> Get(next', At(l, lists[l], i)) == Get(next, At(l, lists[l], i))
    requires forall i :: -1 <= i <= |lists[l]| ==> Get(prev', At(l, lists[l], i)) == Get(prev, At(l, lists[l], i))
    ensures Ring(next', prev', l, lists[l])
  {
    var s := lists[l];
    forall i | -1 <= i <= |s|
      ensures i < |s| ==> Get(next', At(l, s, i)) == At(l, s, i + 1)
      ensures i >= 0 ==> Get(prev', At(l, s, i)) == At(l, s, i - 1)
    {
      RingAt(next, prev, l, s, i);
    }
  }

  ghost predicate Rings(lists: map<Address, seq<Address>>, next: Fields, prev: Fields) {
    Separate(lists) && forall l :: l in lists ==> Ring(next, prev, l, lists[l])
  }

  lemma SeparateWith(lists: map<Address, seq<Address>>, l: Address, k: nat, node: Address)
    requires Separate(lists) && l in lists && k <= |lists[l]| && InNoList(lists, node)
    ensures Separate(lists[l := With(lists[l], k, node)])
  {
  }

  lemma SeparateWithout(lists: map<Address, seq<Address>>, l: Address, k: nat)
    requires Separate(lists) && l in lists && k < |lists[l]|
    ensures Separate(lists[l := Without(lists[l], k)]) && InNoList(lists[l := Without(lists[l], k)], lists[l][k])
  {
  }

  /** A node in no list is linked in at position k of one list; the other lists stay. */
  lemma LinkedIn(lists: map<Address, seq<Address>>, next: Fields, prev: Fields, l: Address, k: nat, node: Address)
    requires Rings(lists, next, prev) && l in lists && k <= |lists[l]| && InNoList(lists, node)
    ensures var back, front := At(l, lists[l], k - 1), At(l, lists[l], k);
            && node != back && node != front
            && Rings(lists[l := With(lists[l], k, node)], next[node := front][back := node],
              prev[node := back][front := node])
  {
    hide Separate, InNoList, Ring;
    var back, front := At(l, lists[l], k - 1), At(l, lists[l], k);
    var next', prev' := next[node := front][back := node], prev[node := back][front := node];
    var lists' := lists[l := With(lists[l], k, node)];
    SeparateWith(lists, l, k, node);
    NodeFresh(lists, l, k - 1, node);
    NodeFresh(lists, l, k, node);
    forall m | m in lists' ensures Ring(next', prev', m, lists'[m]) {
      if m == l {
        RingWith(lists, next, prev, l, k, node);
      } else {
        forall i | -1 <= i <= |lists[m]|
          ensures Get(next', At(m, lists[m], i)) == Get(next, At(m, lists[m], i))
          ensures Get(prev', At(m, lists[m], i)) == Get(prev, At(m, lists[m], i))
        {
          Elsewhere(lists, l, k - 1, m, i);
          Elsewhere(lists, l, k, m, i);
          NodeFresh(lists, m, i, node);
        }
        RingElsewhere(lists, next, prev, next', prev', m);
      }
    }
  }

  lemma Elsewhere(lists: map<Address, seq<Address>>, l: Address, i: int, m: Address, j: int)
    requires Separate(lists) && l in lists && m in lists && l != m && -1 <= i <= |lists[l]| && -1 <= j <= |lists[m]|
    ensures At(l, lists[l], i) != At(m, lists[m], j)
  {
  }

  /** The node at position k of one list is linked out; the other lists stay. */
  lemma LinkedOut(lists: map<Address, seq<Address>>, next: Fields, prev: Fields, l: Address, k: nat)
    requires Rings(lists, next, prev) && l in lists && k < |lists[l]|
    ensures var back, front := At(l, lists[l], k - 1), At(l, lists[l], k + 1);
            Rings(lists[l := Without(lists[l], k)], next[back := front], prev[front := back])
  {
    hide Separate, Ring;
    var back, front := At(l, lists[l], k - 1), At(l, lists[l], k + 1);
    var next', prev' := next[back := front], prev[front := back];
    var lists' := lists[l := Without(lists[l], k)];
    SeparateWithout(lists, l, k);
    forall m | m in lists' ensures Ring(next', prev', m, lists'[m]) {
      if m == l {
        RingWithout(lists, next, prev, l, k);
      } else {
        forall i | -1 <= i <= |lists[m]|
          ensures Get(next', At(m, lists[m], i)) == Get(next, At(m, lists[m], i))
          ensures Get(prev', At(m, lists[m], i)) == Get(prev, At(m, lists[m], i))
        {
          Elsewhere(lists, l, k - 1, m, i);
          Elsewhere(lists, l, k + 1, m, i);
        }
        RingElsewhere(lists, next, prev, next', prev', m);
      }
    }
  }

  /** The ring of a list, read off its fields. */
  lemma ListAt(lists: map<Address, seq<Address>>, next: Fields, prev: Fields, l: Address, k: int)
    requires Rings(lists, next, prev) && l in lists
    ensures Get(next, l) == At(l, lists[l], 0) && Get(prev, l) == At(l, lists[l], |lists[l]| - 1)
    ensures 0 <= k < |lists[l]| ==>
      && lists[l][k] != l && lists[l][k] !in lists
      && Get(next, lists[l][k]) == At(l, lists[l], k + 1) && Get(prev, lists[l][k]) == At(l, lists[l], k - 1)
  {
    RingAt(next, prev, l, lists[l], -1);
    RingAt(next, prev, l, lists[l], |lists[l]|);
    RingAt(next, prev, l, lists[l], k);
  }

  lemma WritesCommute(m: Fields, a: Address, x: int, b: Address, y: int)
    requires a != b
    ensures m[a := x][b := y] == m[b := y][a := x]
  {
  }

  lemma FirstIs(data: Fields, nodes: seq<Address>, x: int, i: nat)
    requires i <= |nodes| && (i < |nodes| ==> Get(data, nodes[i]) == x) && forall j :: 0 <= j < i ==>
      Get(data, nodes[j]) != x
    ensures First(data, nodes, x) == i
  {
  }

  class Lists {
    var next: Fields
    var prev: Fields
    var data: Fields
    var count: Fields
    ghost var lists: map<Address, seq<Address>>

    ghost predicate Valid()
      reads this
    {
      Rings(lists, next, prev) && forall l :: l in lists ==> Get(count, l) == |lists[l]|
    }

    /** Makes an address that is in no list an empty list. */
    method Init(list: Address)
      requires Valid() && InNoList(lists, list)
      modifies `next, `prev, `count, `lists
      ensures Valid() && lists == old(lists)[list := []]
    {
      forall l | l in lists ensures Ring(next[list := list], prev[list := list], l, lists[l]) {
        forall i | -1 <= i <= |lists[l]| ensures At(l, lists[l], i) != list {
          NodeFresh(lists, l, i, list);
        }
        RingElsewhere(lists, next, prev, next[list := list], prev[list := list], l);
      }
      next, prev, count, lists := next[list := list], prev[list := list], count[list := 0], lists[list := []];
    }

    /** Links a node that is in no list in front. */
    method AttachHead(list: Address, node: Address)
      requires Valid() && list in lists && InNoList(lists, node)
      modifies `next, `prev, `count, `lists
      ensures Valid() && lists == old(lists)[list := [node] + old(lists[list])]
    {
      hide Rings, InNoList;
      ListAt(lists, next, prev, list, 0);
      LinkedIn(lists, next, prev, list, 0, node);
      WritesCommute(prev, node, list, Get(next, list), node);
      next := next[node := Get(next, list)];
      prev := prev[Get(next, node) := node];
      prev := prev[node := list];
      next := next[list := node];
      count := count[list := Get(count, list) + 1];
      assert With(lists[list], 0, node) == [node] + lists[list];
      lists := lists[list := [node] + lists[list]];
    }

    /** Links a node that is in no list at the end. */
    method AttachTail(list: Address, node: Address)
      requires Valid() && list in lists && InNoList(lists, node)
      modifies `next, `prev, `count, `lists
      ensures Valid() && lists == old(lists)[list := old(lists[list]) + [node]]
    {
      hide Rings, InNoList;
      ghost var n := |lists[list]|;
      ListAt(lists, next, prev, list, 0);
      LinkedIn(lists, next, prev, list, n, node);
      WritesCommute(next, node, list, Get(prev, list), node);
      prev := prev[node := Get(prev, list)];
      next := next[Get(prev, node) := node];
      next := next[node := list];
      prev := prev[list := node];
      count := count[list := Get(count, list) + 1];
      assert With(lists[list], n, node) == lists[list] + [node];
      lists := lists[list := lists[list] + [node]];
    }

    /** Links out the k-th node; it is in no list then. */
    method Unlink(list: Address, node: Address, ghost k: nat)
      requires Valid() && list in lists && k < |lists[list]| && node == lists[list][k]
      modifies `next, `prev, `count, `lists
      ensures Valid() && lists == old(lists)[list := Without(old(lists[list]), k)] && InNoList(lists, node)
    {
      hide InNoList, Separate, Ring;
      ListAt(lists, next, prev, list, k);
      LinkedOut(lists, next, prev, list, k);
      SeparateWithout(lists, list, k);
      next := next[Get(prev, node) := Get(next, node)];
      prev := prev[Get(next, node) := Get(prev, node)];
      count := count[list := Get(count, list) - 1];
      lists := lists[list := Without(lists[list], k)];
    }

    /** Links out the first node and returns its data; found is false when the list is empty. */
    method DetachHead(list: Address) returns (found: bool, node: Address, value: int)
      requires Valid() && list in lists
      modifies `next, `prev, `count, `lists
      ensures Valid() && found == (old(lists[list]) != [])
      ensures found ==> node == old(lists[list][0]) && value == Get(data, node) && InNoList(lists, node)
      ensures lists == if found then old(lists)[list := old(lists[list])[1..]] else old(lists)
    {
      hide Rings, InNoList;
      ListAt(lists, next, prev, list, 0);
      node := Get(next, list);
      if node == list {
        return false, node, 0;
      }
      assert Without(lists[list], 0) == lists[list][1..];
      Unlink(list, node, 0);
      found, value := true, Get(data, node);
    }

    /** Links out the last node and returns its data; found is false when the list is empty. */
    method DetachTail(list: Address) returns (found: bool, node: Address, value: int)
      requires Valid() && list in lists
      modifies `next, `prev, `count, `lists
      ensures Valid() && found == (old(lists[list]) != [])
      ensures found ==>
        old(lists[list]) == old(lists[list])[..|old(lists[list])| - 1] + [node] && value == Get(data, node)
      ensures lists == if found then old(lists)[list := old(lists[list])[..|old(lists[list])| - 1]] else old(lists)
    {
      hide Rings, InNoList;
      ghost var n := |lists[list]|;
      ListAt(lists, next, prev, list, n - 1);
      node := Get(prev, list);
      if node == list {
        return false, node, 0;
      }
      assert Without(lists[list], n - 1) == lists[list][..n - 1];
      Unlink(list, node, n - 1);
      found, value := true, Get(data, node);
    }

    /** Links out the first node that holds x, if there is one. */
    method Detach(list: Address, x: int) returns (found: bool)
      requires Valid() && list in lists
      modifies `next, `prev, `count, `lists
      ensures Valid() && found == (First(data, old(lists[list]), x) < |old(lists[list])|)
      ensures lists ==
        if found then old(lists)[list := Without(old(lists[list]), First(data, old(lists[list]), x))] else old(lists)
    {
      hide Rings;
      ghost var nodes := lists[list];
      ghost var k: nat := 0;
      ListAt(lists, next, prev, list, 0);
      var node := Get(next, list);
      while node != list
        invariant Valid() && lists == old(lists) && k <= |nodes| && node == At(list, nodes, k)
        invariant forall j :: 0 <= j < k ==> Get(data, nodes[j]) != x
        decreases |nodes| - k
      {
        ListAt(lists, next, prev, list, k);
        if Get(data, node) == x {
          FirstIs(data, nodes, x, k);
          Unlink(list, node, k);
          return true;
        }
        node, k := Get(next, node), k + 1;
      }
      ListAt(lists, next, prev, list, k);
      FirstIs(data, nodes, x, k);
      found := false;
    }
  }
}
