/**
 The object tree of hiptop/zmachine/ZMachine.java in byte memory: one-byte links for version 3
 stories, two-byte links for later ones (section 12 of the Z-Machine Standards Document, 1.0).
 */
module ZObjects {

  /** Where an object's links stand; object 0 is no object. */
  datatype Layout = Narrow | Wide {
    function Size(): int { if Narrow? then 9 else 14 }
    function Width(): int { if Narrow? then 1 else 2 }
    function Parent(): int { if Narrow? then 4 else 6 }
    function Sibling(): int { if Narrow? then 5 else 8 }
    function Child(): int { if Narrow? then 6 else 10 }
    function MaxObject(): int { if Narrow? then 0xff else 0xffff }
  }

  datatype Link = ParentLink | SiblingLink | ChildLink

  function Offset(l: Layout, f: Link): int {
    match f case ParentLink => l.Parent() case SiblingLink => l.Sibling() case ChildLink => l.Child()
  }

  type Mem = seq<int>

  ghost predicate Bytes(m: Mem) { forall a :: 0 <= a < |m| ==> 0 <= m[a] < 256 }

  function At(l: Layout, ptr: int, obj: int, f: Link): int { ptr + obj * l.Size() + Offset(l, f) }

  /** The table of n objects lies in memory. */
  ghost predicate Table(m: Mem, l: Layout, ptr: int, n: nat) {
    Bytes(m) && 0 <= ptr && n <= l.MaxObject() && ptr + (n + 1) * l.Size() <= |m|
  }

  function Get(m: Mem, l: Layout, ptr: int, obj: int, f: Link): int {
    var a := At(l, ptr, obj, f);
    if 0 <= a && a + 1 < |m| then (if l.Narrow? then m[a] else m[a] * 256 + m[a + 1]) else 0
  }

  function Put(m: Mem, l: Layout, ptr: int, obj: int, f: Link, v: int): Mem
    requires 0 <= At(l, ptr, obj, f) && At(l, ptr, obj, f) + 1 < |m|
  {
    var a := At(l, ptr, obj, f);
    if l.Narrow? then m[a := v % 256] else m[a := v / 256 % 256][a + 1 := v % 256]
  }

  lemma InTable(m: Mem, l: Layout, ptr: int, n: nat, obj: int, f: Link)
    requires Table(m, l, ptr, n) && 0 <= obj <= n
    ensures 0 <= At(l, ptr, obj, f) && At(l, ptr, obj, f) + 1 < |m|
  {
  }

  /** A store changes the one link. */
  lemma PutGet(m: Mem, l: Layout, ptr: int, n: nat, obj: int, f: Link, v: int, o: int, g: Link)
    requires Table(m, l, ptr, n) && 1 <= obj <= n && 0 <= v <= n && 0 <= o <= n
    ensures InRange(m, l, ptr, obj, f) && Table(Put(m, l, ptr, obj, f, v), l, ptr, n)
    ensures Get(Put(m, l, ptr, obj, f, v), l, ptr, o, g) == if o == obj && f == g then v else Get(m, l, ptr, o, g)
  {
    hide Bytes, Get, Put, At, Offset;
    InTable(m, l, ptr, n, obj, f);
    InTable(m, l, ptr, n, o, g);
    PutBytes(m, l, ptr, obj, f, v);
    PutLength(m, l, ptr, obj, f, v);
    if o == obj && f == g {
      GetBack(m, l, ptr, obj, f, v);
    } else {
      LinksApart(l, ptr, obj, f, o, g);
      GetOther(m, l, ptr, obj, f, v, o, g);
    }
  }

  lemma PutLength(m: Mem, l: Layout, ptr: int, obj: int, f: Link, v: int)
    requires InRange(m, l, ptr, obj, f)
    ensures |Put(m, l, ptr, obj, f, v)| == |m|
  {
    hide At;
  }

  lemma GetBack(m: Mem, l: Layout, ptr: int, obj: int, f: Link, v: int)
    requires InRange(m, l, ptr, obj, f) && 0 <= v <= l.MaxObject()
    ensures Get(Put(m, l, ptr, obj, f, v), l, ptr, obj, f) == v
  {
    WordParts(v);
    hide At;
  }

  lemma GetOther(m: Mem, l: Layout, ptr: int, obj: int, f: Link, v: int, o: int, g: Link)
    requires InRange(m, l, ptr, obj, f) && InRange(m, l, ptr, o, g)
    requires At(l, ptr, o, g) + l.Width() <= At(l, ptr, obj, f) || At(l, ptr, obj, f) + l.Width() <= At(l, ptr, o, g)
    ensures Get(Put(m, l, ptr, obj, f, v), l, ptr, o, g) == Get(m, l, ptr, o, g)
  {
    hide At;
  }

  lemma PutBytes(m: Mem, l: Layout, ptr: int, obj: int, f: Link, v: int)
    requires Bytes(m) && InRange(m, l, ptr, obj, f) && v >= 0
    ensures Bytes(Put(m, l, ptr, obj, f, v))
  {
    hide At;
  }

  /** Different links do not share a byte. */
  lemma LinksApart(l: Layout, ptr: int, obj: int, f: Link, o: int, g: Link)
    requires obj >= 0 && o >= 0
    ensures (o == obj && f == g) || At(l, ptr, o, g) + l.Width() <= At(l, ptr, obj, f)
      || At(l, ptr, obj, f) + l.Width() <= At(l, ptr, o, g)
  {
  }

  ghost predicate InRange(m: Mem, l: Layout, ptr: int, obj: int, f: Link) {
    0 <= At(l, ptr, obj, f) && At(l, ptr, obj, f) + 1 < |m|
  }

  lemma WordParts(v: int)
    requires 0 <= v <= 0xffff
    ensures v / 256 % 256 * 256 + v % 256 == v && (v <= 0xff ==> v % 256 == v)
  {
  }

  /** Bytes that are not links. */
  ghost predicate LinkByte(l: Layout, ptr: int, n: nat, a: int) {
    exists o, f :: 1 <= o <= n && At(l, ptr, o, f) <= a < At(l, ptr, o, f) + l.Width()
  }

  /** Everything but the links is as before. */
  ghost predicate RestSame(m: Mem, m': Mem, l: Layout, ptr: int, n: nat) {
    |m'| == |m| && forall a :: 0 <= a < |m| && !LinkByte(l, ptr, n, a) ==> m'[a] == m[a]
  }

  /* The abstract tree. */

  datatype Node = Node(parent: int, sibling: int, child: int)

  ghost function NodeOf(m: Mem, l: Layout, ptr: int, o: int): Node {
    Node(Get(m, l, ptr, o, ParentLink), Get(m, l, ptr, o, SiblingLink), Get(m, l, ptr, o, ChildLink))
  }

  /** The links of objects 0 to n, the same for either layout. */
  ghost function Tree(m: Mem, l: Layout, ptr: int, n: nat): (t: seq<Node>)
    ensures |t| == n + 1 && forall o :: 0 <= o <= n ==> t[o] == NodeOf(m, l, ptr, o)
  {
    seq(n + 1, o => NodeOf(m, l, ptr, o))
  }

  function Elem(s: seq<int>, i: int): int { if 0 <= i < |s| then s[i] else 0 }

  ghost predicate Distinct(s: seq<int>) { forall i, j :: 0 <= i < j < |s| ==> s[i] != s[j] }

  /** The sibling chain from p's child runs through kids, all of which name p as their parent. */
  ghost predicate Chain(t: seq<Node>, p: int, kids: seq<int>)
    requires 0 <= p < |t|
  {
    && t[p].child == Elem(kids, 0) && Distinct(kids)
    && forall i :: 0 <= i < |kids| ==>
      1 <= kids[i] < |t| && t[kids[i]].parent == p && t[kids[i]].sibling == Elem(kids, i + 1)
  }

  /** Every object's children are chained, every object is among its parent's children, and parents rank lower. */
  ghost predicate Forest(t: seq<Node>, kids: seq<seq<int>>, rank: seq<nat>) {
    && |t| == |kids| == |rank|
    && (forall p :: 1 <= p < |t| ==> Chain(t, p, kids[p]))
    && (forall o :: 1 <= o < |t| ==> 0 <= t[o].parent < |t|)
    && (forall o :: 1 <= o < |t| && t[o].parent != 0 ==> o in kids[t[o].parent] && rank[t[o].parent] < rank[o])
  }

  function IndexOf(s: seq<int>, x: int): (i: nat)
    requires x in s
    ensures i < |s| && s[i] == x
  {
    if s[0] == x then 0 else 1 + IndexOf(s[1..], x)
  }

  function Without(s: seq<int>, k: nat): (r: seq<int>)
    requires k < |s|
    ensures |r| == |s| - 1 && forall i :: 0 <= i < |r| ==> r[i] == if i < k then s[i] else s[i + 1]
  {
    s[..k] + s[k + 1..]
  }

  /** The object taken out of its parent's chain: whatever led to it leads to its sibling. */
  ghost function Removed(t: seq<Node>, kids: seq<seq<int>>, obj: int): seq<Node>
    requires 1 <= obj < |t| && |kids| == |t| && 1 <= t[obj].parent < |t| && obj in kids[t[obj].parent]
    requires forall i :: 0 <= i < |kids[t[obj].parent]| ==> 0 <= kids[t[obj].parent][i] < |t|
  {
    var p := t[obj].parent;
    var k := IndexOf(kids[p], obj);
    var t1 := if k == 0 then t[p := t[p].(child := t[obj].sibling)]
              else t[kids[p][k - 1] := t[kids[p][k - 1]].(sibling := t[obj].sibling)];
    t1[obj := t1[obj].(sibling := 0, parent := 0)]
  }

  ghost function KidsWithout(t: seq<Node>, kids: seq<seq<int>>, obj: int): seq<seq<int>>
    requires 1 <= obj < |t| && |kids| == |t| && 1 <= t[obj].parent < |t| && obj in kids[t[obj].parent]
  {
    var p := t[obj].parent;
    kids[p := Without(kids[p], IndexOf(kids[p], obj))]
  }

  lemma ParentChain(t: seq<Node>, kids: seq<seq<int>>, rank: seq<nat>, obj: int)
    requires Forest(t, kids, rank) && 1 <= obj < |t| && t[obj].parent != 0
    ensures var p := t[obj].parent;
      1 <= p < |t| == |kids| == |rank| && p != obj && obj in kids[p] && Chain(t, p, kids[p])
    ensures forall i :: 0 <= i < |kids[t[obj].parent]| ==> 0 <= kids[t[obj].parent][i] < |t|
  {
  }

  /** Removing deletes the object from its parent's children, and no other chain changes. */
  lemma RemovedForest(t: seq<Node>, kids: seq<seq<int>>, rank: seq<nat>, obj: int)
    requires Forest(t, kids, rank) && 1 <= obj < |t| && t[obj].parent != 0
    requires 1 <= t[obj].parent < |t| && obj in kids[t[obj].parent]
    requires forall i :: 0 <= i < |kids[t[obj].parent]| ==> 0 <= kids[t[obj].parent][i] < |t|
    ensures Forest(Removed(t, kids, obj), KidsWithout(t, kids, obj), rank)
    ensures Removed(t, kids, obj)[obj].parent == 0
  {
    hide Chain;
    var p := t[obj].parent;
    var t', kids' := Removed(t, kids, obj), KidsWithout(t, kids, obj);
    RemovedParents(t, kids, rank, obj);
    forall q | 1 <= q < |t'| ensures Chain(t', q, kids'[q]) {
      RemovedChain(t, kids, rank, obj, q);
    }
    forall o | 1 <= o < |t'| && t'[o].parent != 0 ensures o in kids'[t'[o].parent] && rank[t'[o].parent] < rank[o] {
      StillThere(kids[p], IndexOf(kids[p], obj), o);
    }
  }

  /** Removing in the order of the stores. */
  lemma RemovedInSteps(t: seq<Node>, kids: seq<seq<int>>, obj: int)
    requires 1 <= obj < |t| && |kids| == |t| && 1 <= t[obj].parent < |t| && obj in kids[t[obj].parent]
    requires forall i :: 0 <= i < |kids[t[obj].parent]| ==> 0 <= kids[t[obj].parent][i] < |t|
    ensures var p, n := t[obj].parent, t[obj].sibling;
            var k := IndexOf(kids[p], obj);
            var t1 := if k == 0 then t[p := t[p].(child := n)]
              else t[kids[p][k - 1] := t[kids[p][k - 1]].(sibling := n)];
            && |t1| == |t|
            && var t2 := t1[obj := WithLink(t1[obj], SiblingLink, 0)];
            Removed(t, kids, obj) == t2[obj := WithLink(t2[obj], ParentLink, 0)]
  {
    hide IndexOf;
  }

  lemma RemovedParents(t: seq<Node>, kids: seq<seq<int>>, rank: seq<nat>, obj: int)
    requires Forest(t, kids, rank) && 1 <= obj < |t| && t[obj].parent != 0
    requires 1 <= t[obj].parent < |t| && obj in kids[t[obj].parent]
    requires forall i :: 0 <= i < |kids[t[obj].parent]| ==> 0 <= kids[t[obj].parent][i] < |t|
    ensures var t' := Removed(t, kids, obj);
            |t'| == |t| && forall o :: 1 <= o < |t| ==> t'[o].parent == if o == obj then 0 else t[o].parent
  {
  }

  lemma StillThere(s: seq<int>, k: nat, o: int)
    requires k < |s|
    ensures o in s && o != s[k] ==> o in Without(s, k)
  {
    if o in s && o != s[k] {
      var i :| 0 <= i < |s| && s[i] == o;
      assert Without(s, k)[if i < k then i else i - 1] == o;
    }
  }

  /** What removing does to the links of object o. */
  lemma RemovedNode(t: seq<Node>, kids: seq<seq<int>>, obj: int, o: int)
    requires |kids| == |t| && 1 <= obj < |t| && 1 <= o < |t|
    requires 1 <= t[obj].parent < |t| && t[obj].parent != obj && obj in kids[t[obj].parent]
    requires Distinct(kids[t[obj].parent])
    requires forall i :: 0 <= i < |kids[t[obj].parent]| ==> 0 <= kids[t[obj].parent][i] < |t|
    ensures var t', p := Removed(t, kids, obj), t[obj].parent;
            var k := IndexOf(kids[p], obj);
            && |t'| == |t|
            && t'[o].parent == (if o == obj then 0 else t[o].parent)
            && t'[o].child == (if o == p && k == 0 then t[obj].sibling else t[o].child)
            && t'[o].sibling
              == (if o == obj then 0 else if k > 0 && o == kids[p][k - 1] then t[obj].sibling else t[o].sibling)
  {
    hide IndexOf;
  }

  /** One link of a chain. */
  lemma KidAt(t: seq<Node>, p: int, kids: seq<int>, i: nat)
    requires 0 <= p < |t| && Chain(t, p, kids) && i < |kids|
    ensures 1 <= kids[i] < |t| && t[kids[i]].parent == p && t[kids[i]].sibling == Elem(kids, i + 1)
    ensures forall j :: 0 <= j < |kids| && j != i ==> kids[j] != kids[i]
  {
    hide Elem;
  }

  lemma ChainEnds(t: seq<Node>, p: int, kids: seq<int>)
    requires 0 <= p < |t| && Chain(t, p, kids)
    ensures t[p].child == Elem(kids, 0) && Distinct(kids)
  {
  }

  lemma RemovedKid(t: seq<Node>, kids: seq<seq<int>>, obj: int, q: int, i: nat)
    requires |kids| == |t| && 1 <= obj < |t| && 1 <= q < |t| && Chain(t, q, kids[q])
    requires 1 <= t[obj].parent < |t| && t[obj].parent != obj && obj in kids[t[obj].parent]
    requires Chain(t, t[obj].parent, kids[t[obj].parent])
    requires forall i :: 0 <= i < |kids[t[obj].parent]| ==> 0 <= kids[t[obj].parent][i] < |t|
    requires i < |KidsWithout(t, kids, obj)[q]|
    ensures var t', s := Removed(t, kids, obj), KidsWithout(t, kids, obj)[q];
            |t'| == |t| && 1 <= s[i] < |t'| && t'[s[i]].parent == q && t'[s[i]].sibling == Elem(s, i + 1)
  {
    hide Chain, Removed, IndexOf;
    var p := t[obj].parent;
    var k := IndexOf(kids[p], obj);
    var s := KidsWithout(t, kids, obj)[q];
    ChainEnds(t, p, kids[p]);
    KidAt(t, p, kids[p], k);
    if k > 0 {
      KidAt(t, p, kids[p], k - 1);
    }
    KidAt(t, q, kids[q], if q == p && i >= k then i + 1 else i);
    RemovedNode(t, kids, obj, s[i]);
  }

  lemma RemovedChain(t: seq<Node>, kids: seq<seq<int>>, rank: seq<nat>, obj: int, q: int)
    requires Forest(t, kids, rank) && 1 <= obj < |t| && t[obj].parent != 0 && 1 <= q < |t|
    requires 1 <= t[obj].parent < |t| && obj in kids[t[obj].parent]
    requires forall i :: 0 <= i < |kids[t[obj].parent]| ==> 0 <= kids[t[obj].parent][i] < |t|
    ensures var t', kids' := Removed(t, kids, obj), KidsWithout(t, kids, obj);
      |t'| == |t| == |kids'| && Chain(t', q, kids'[q])
  {
    hide Forest, Removed, IndexOf, Elem, KidsWithout;
    ParentChain(t, kids, rank, obj);
    ChainAt(t, kids, rank, q);
    var t', s := Removed(t, kids, obj), KidsWithout(t, kids, obj);
    RemovedFront(t, kids, obj, q);
    forall i | 0 <= i < |s[q]|
      ensures 1 <= s[q][i] < |t'| && t'[s[q][i]].parent == q && t'[s[q][i]].sibling == Elem(s[q], i + 1)
    {
      RemovedKid(t, kids, obj, q, i);
    }
  }

  lemma RemovedFront(t: seq<Node>, kids: seq<seq<int>>, obj: int, q: int)
    requires |kids| == |t| && 1 <= obj < |t| && 1 <= q < |t| && Chain(t, q, kids[q])
    requires 1 <= t[obj].parent < |t| && t[obj].parent != obj && obj in kids[t[obj].parent]
    requires Chain(t, t[obj].parent, kids[t[obj].parent])
    requires forall i :: 0 <= i < |kids[t[obj].parent]| ==> 0 <= kids[t[obj].parent][i] < |t|
    ensures var t', s := Removed(t, kids, obj), KidsWithout(t, kids, obj);
            |t'| == |t| == |s| && t'[q].child == Elem(s[q], 0) && Distinct(s[q])
  {
    hide Chain, Removed, IndexOf;
    var p := t[obj].parent;
    ChainEnds(t, p, kids[p]);
    ChainEnds(t, q, kids[q]);
    KidAt(t, p, kids[p], IndexOf(kids[p], obj));
    RemovedNode(t, kids, obj, q);
  }

  lemma ChainAt(t: seq<Node>, kids: seq<seq<int>>, rank: seq<nat>, p: int)
    requires Forest(t, kids, rank) && 1 <= p < |t|
    ensures Chain(t, p, kids[p]) && |t| == |kids| == |rank|
  {
  }

  /** The object made the first child of dest. */
  function Inserted(t: seq<Node>, obj: int, dest: int): seq<Node>
    requires 1 <= obj < |t| && 1 <= dest < |t|
  {
    var t1 := t[obj := t[obj].(sibling := t[dest].child)];
    var t2 := t1[dest := t1[dest].(child := obj)];
    t2[obj := t2[obj].(parent := dest)]
  }

  /** Is x the object o or below it? */
  ghost predicate Within(t: seq<Node>, rank: seq<nat>, x: int, o: int)
    requires 1 <= x < |t| == |rank|
    decreases rank[x]
  {
    x == o || (1 <= t[x].parent < |t| && rank[t[x].parent] < rank[x] && Within(t, rank, t[x].parent, o))
  }

  ghost function RankOf(t: seq<Node>, rank: seq<nat>, x: int, o: int, dest: int): nat
    requires 0 <= x < |t| == |rank| && 0 <= dest < |t|
  {
    if x != 0 && Within(t, rank, x, o) then rank[x] + rank[dest] + 1 else rank[x]
  }

  /** The moved subtree ranks above its new place. */
  ghost function Reranked(t: seq<Node>, rank: seq<nat>, o: int, dest: int): (r: seq<nat>)
    requires |t| == |rank| && 0 <= dest < |t|
    ensures |r| == |rank| && forall x :: 0 <= x < |r| ==> r[x] == RankOf(t, rank, x, o, dest)
  {
    seq(|t|, x requires 0 <= x < |t| => RankOf(t, rank, x, o, dest))
  }

  /** Inserting an object without a parent below a place that is not inside it keeps the forest. */
  lemma InsertedForest(t: seq<Node>, kids: seq<seq<int>>, rank: seq<nat>, obj: int, dest: int)
    requires Forest(t, kids, rank) && 1 <= obj < |t| && 1 <= dest < |t| && t[obj].parent == 0
    requires !Within(t, rank, dest, obj)
    ensures Forest(Inserted(t, obj, dest), kids[dest := [obj] + kids[dest]], Reranked(t, rank, obj, dest))
  {
    hide Chain, Within;
    var t', kids', rank' := Inserted(t, obj, dest), kids[dest := [obj] + kids[dest]], Reranked(t, rank, obj, dest);
    WithinItself(t, rank, obj);
    forall q | 1 <= q < |t'| ensures Chain(t', q, kids'[q]) {
      InsertedChain(t, kids, rank, obj, dest, q);
    }
    forall o | 1 <= o < |t'| && t'[o].parent != 0 ensures o in kids'[t'[o].parent] && rank'[t'[o].parent] < rank'[o] {
      if o != obj {
        WithinParent(t, rank, o, obj);
      }
    }
  }

  lemma WithinItself(t: seq<Node>, rank: seq<nat>, x: int)
    requires 1 <= x < |t| == |rank|
    ensures Within(t, rank, x, x)
  {
  }

  lemma WithinParent(t: seq<Node>, rank: seq<nat>, x: int, o: int)
    requires 1 <= x < |t| == |rank| && x != o && 1 <= t[x].parent < |t| && rank[t[x].parent] < rank[x]
    ensures Within(t, rank, x, o) <==> Within(t, rank, t[x].parent, o)
  {
  }

  lemma InsertedKid(t: seq<Node>, kids: seq<seq<int>>, obj: int, dest: int, q: int, i: nat)
    requires |kids| == |t| && 1 <= obj < |t| && 1 <= dest < |t| && 1 <= q < |t| && obj != dest && t[obj].parent == 0
    requires Chain(t, q, kids[q]) && i < |kids[dest := [obj] + kids[dest]][q]|
    ensures var t', s := Inserted(t, obj, dest), kids[dest := [obj] + kids[dest]][q];
            |t'| == |t| && 1 <= s[i] < |t'| && t'[s[i]].parent == q && t'[s[i]].sibling == Elem(s, i + 1)
  {
    hide Chain, Inserted;
    var s := kids[dest := [obj] + kids[dest]][q];
    ChainEnds(t, q, kids[q]);
    if q == dest && i > 0 {
      KidAt(t, q, kids[q], i - 1);
    } else if q != dest {
      KidAt(t, q, kids[q], i);
    }
    InsertedNode(t, obj, dest, s[i]);
  }

  lemma InsertedChain(t: seq<Node>, kids: seq<seq<int>>, rank: seq<nat>, obj: int, dest: int, q: int)
    requires Forest(t, kids, rank) && 1 <= obj < |t| && 1 <= dest < |t| && t[obj].parent == 0 && obj != dest
    requires 1 <= q < |t|
    ensures |t| == |kids|
    ensures var t', kids' := Inserted(t, obj, dest), kids[dest := [obj] + kids[dest]];
      |t'| == |t| == |kids'| && Chain(t', q, kids'[q])
  {
    hide Forest, Inserted, Elem;
    ChainAt(t, kids, rank, q);
    var t', s := Inserted(t, obj, dest), kids[dest := [obj] + kids[dest]];
    InsertedFront(t, kids, obj, dest, q);
    forall i | 0 <= i < |s[q]|
      ensures 1 <= s[q][i] < |t'| && t'[s[q][i]].parent == q && t'[s[q][i]].sibling == Elem(s[q], i + 1)
    {
      InsertedKid(t, kids, obj, dest, q, i);
    }
  }

  lemma InsertedFront(t: seq<Node>, kids: seq<seq<int>>, obj: int, dest: int, q: int)
    requires |kids| == |t| && 1 <= obj < |t| && 1 <= dest < |t| && 1 <= q < |t| && obj != dest && t[obj].parent == 0
    requires Chain(t, q, kids[q])
    ensures var t', s := Inserted(t, obj, dest), kids[dest := [obj] + kids[dest]];
            |t'| == |t| == |s| && t'[q].child == Elem(s[q], 0) && Distinct(s[q])
  {
    hide Chain, Inserted;
    ChainEnds(t, q, kids[q]);
    InsertedNode(t, obj, dest, q);
    forall i | 0 <= i < |kids[q]| ensures kids[q][i] != obj {
      KidAt(t, q, kids[q], i);
    }
  }

  lemma InsertedNode(t: seq<Node>, obj: int, dest: int, o: int)
    requires 1 <= obj < |t| && 1 <= dest < |t| && obj != dest && 1 <= o < |t|
    ensures var t' := Inserted(t, obj, dest);
            && |t'| == |t|
            && t'[o].parent == (if o == obj then dest else t[o].parent)
            && t'[o].child == (if o == dest then obj else t[o].child)
            && t'[o].sibling == (if o == obj then t[dest].child else t[o].sibling)
  {
  }

  function WithLink(node: Node, f: Link, v: int): Node {
    match f
    case ParentLink => node.(parent := v)
    case SiblingLink => node.(sibling := v)
    case ChildLink => node.(child := v)
  }

  /** A store changes the one link of the tree, and nothing but links. */
  lemma PutTree(m: Mem, l: Layout, ptr: int, n: nat, obj: int, f: Link, v: int)
    requires Table(m, l, ptr, n) && 1 <= obj <= n && 0 <= v <= n
    ensures InRange(m, l, ptr, obj, f) && Table(Put(m, l, ptr, obj, f, v), l, ptr, n)
    ensures Tree(Put(m, l, ptr, obj, f, v), l, ptr, n) ==
      Tree(m, l, ptr, n)[obj := WithLink(Tree(m, l, ptr, n)[obj], f, v)]
    ensures RestSame(m, Put(m, l, ptr, obj, f, v), l, ptr, n)
  {
    hide Get, Put, At, Table;
    PutGet(m, l, ptr, n, obj, f, v, obj, f);
    var t, t' := Tree(m, l, ptr, n), Tree(Put(m, l, ptr, obj, f, v), l, ptr, n);
    forall o | 0 <= o <= n ensures t'[o] == if o == obj then WithLink(t[obj], f, v) else t[o] {
      PutGet(m, l, ptr, n, obj, f, v, o, ParentLink);
      PutGet(m, l, ptr, n, obj, f, v, o, SiblingLink);
      PutGet(m, l, ptr, n, obj, f, v, o, ChildLink);
    }
    PutRest(m, l, ptr, n, obj, f, v);
  }

  lemma PutRest(m: Mem, l: Layout, ptr: int, n: nat, obj: int, f: Link, v: int)
    requires InRange(m, l, ptr, obj, f) && 1 <= obj <= n
    ensures RestSame(m, Put(m, l, ptr, obj, f, v), l, ptr, n)
  {
    var a := At(l, ptr, obj, f);
    assert LinkByte(l, ptr, n, a);
    assert l.Wide? ==> LinkByte(l, ptr, n, a + 1);
    hide At, LinkByte;
  }

  lemma RestChain(m: Mem, m': Mem, m'': Mem, l: Layout, ptr: int, n: nat)
    requires RestSame(m, m', l, ptr, n) && RestSame(m', m'', l, ptr, n)
    ensures RestSame(m, m'', l, ptr, n)
  {
    hide LinkByte;
  }

  /** A table in which no object has a parent, a sibling or a child is a forest. */
  lemma NoLinksForest(l: Layout, n: nat) returns (m: Mem, kids: seq<seq<int>>, rank: seq<nat>)
    requires n <= l.MaxObject()
    ensures Table(m, l, 0, n) && Forest(Tree(m, l, 0, n), kids, rank)
  {
    var size := (n + 1) * l.Size();
    m := seq(size, _ => 0);
    kids, rank := seq(n + 1, _ => []), seq(n + 1, _ => 0);
  }

  class Objects {
    var mem: Mem
    const layout: Layout
    const objectPtr: int
    const count: nat
    ghost var kids: seq<seq<int>>
    ghost var rank: seq<nat>

    ghost function Links(): seq<Node>
      reads this
    {
      Tree(mem, layout, objectPtr, count)
    }

    ghost predicate Valid()
      reads this
    {
      Table(mem, layout, objectPtr, count) && Forest(Links(), kids, rank)
    }

    /** A story file as loaded, whose object table is a forest. */
    constructor (mem: Mem, layout: Layout, objectPtr: int, count: nat, ghost kids: seq<seq<int>>, ghost rank: seq<nat>)
      requires Table(mem, layout, objectPtr, count) && Forest(Tree(mem, layout, objectPtr, count), kids, rank)
      ensures Valid() && this.mem == mem && this.layout == layout && this.objectPtr == objectPtr && this.count == count
    {
      this.mem, this.layout, this.objectPtr, this.count := mem, layout, objectPtr, count;
      this.kids, this.rank := kids, rank;
    }

    method Read(obj: int, f: Link) returns (v: int)
      requires Table(mem, layout, objectPtr, count) && 0 <= obj <= count
      ensures v == (match f
                    case ParentLink => Links()[obj].parent
                    case SiblingLink => Links()[obj].sibling
                    case ChildLink => Links()[obj].child)
    {
      v := Get(mem, layout, objectPtr, obj, f);
    }

    method Write(obj: int, f: Link, v: int)
      requires Table(mem, layout, objectPtr, count) && 1 <= obj <= count && 0 <= v <= count
      modifies `mem
      ensures Table(mem, layout, objectPtr, count) && RestSame(old(mem), mem, layout, objectPtr, count)
      ensures Links() == old(Links())[obj := WithLink(old(Links())[obj], f, v)]
    {
      PutTree(mem, layout, objectPtr, count, obj, f, v);
      mem := Put(mem, layout, objectPtr, obj, f, v);
    }

    /** Lets whatever leads to obj in the chain from x lead on to n. */
    method Unchain(x: int, obj: int, n: int, ghost s: seq<int>, ghost k: nat)
      requires Table(mem, layout, objectPtr, count) && 1 <= x <= count && 0 <= n <= count
      requires Chain(Links(), x, s) && k < |s| && s[k] == obj && (forall i :: 0 <= i < |s| ==> 1 <= s[i] <= count)
      modifies `mem
      ensures Table(mem, layout, objectPtr, count) && RestSame(old(mem), mem, layout, objectPtr, count)
      ensures var t := old(Links());
              Links() == if k == 0 then t[x := t[x].(child := n)] else t[s[k - 1] := t[s[k - 1]].(sibling := n)]
    {
      hide Table, Chain, RestSame;
      ghost var m0, t := mem, Links();
      LinkRange(t, x, s, k);
      var c := Read(x, ChildLink);
      if c == obj {
        FirstKid(t, x, s, k);
        Write(x, ChildLink, n);
        return;
      }
      ghost var i: nat := 0;
      LinkRange(t, x, s, 0);
      while c != 0
        invariant mem == m0 && i < k && c == Elem(s, i) && 1 <= c <= count
        decreases k - i
      {
        var y := Read(c, SiblingLink);
        LinkRange(t, x, s, i);
        if y == obj {
          NextKid(t, x, s, i, k);
          Write(c, SiblingLink, n);
          return;
        }
        LinkRange(t, x, s, i + 1);
        NotLast(t, x, s, i, k, y);
        c, i := y, i + 1;
      }
    }

    /** Takes an object out of its parent's children; without a parent nothing happens. */
    method Remove(obj: int)
      requires Valid() && 1 <= obj <= count
      modifies `mem, `kids
      ensures Valid() && RestSame(old(mem), mem, layout, objectPtr, count)
      ensures old(Links())[obj].parent == 0 ==> mem == old(mem) && kids == old(kids)
      ensures |rank| == count + 1 && forall y :: 1 <= y <= count ==>
        Links()[y].parent == if y == obj then 0 else old(Links())[y].parent
      ensures old(Links())[obj].parent != 0 ==>
        && Removable(old(Links()), old(kids), obj) && Links() == Removed(old(Links()), old(kids), obj)
        && kids == KidsWithout(old(Links()), old(kids), obj)
    {
      hide Forest, Table, Chain, Distinct, RestSame, Removed, KidsWithout, WithLink, Elem, IndexOf, NodeOf;
      ghost var m0, t, p := mem, Links(), Links()[obj].parent;
      var x := Read(obj, ParentLink);
      RestRefl(mem);
      ChainAt(t, kids, rank, obj);
      if x == 0 {
        return;
      }
      ParentChain(t, kids, rank, obj);
      ghost var k := IndexOf(kids[p], obj);
      LinkRange(t, p, kids[p], k);
      var n := Read(obj, SiblingLink);
      Unchain(x, obj, n, kids[p], k);
      ghost var m1 := mem;
      Write(obj, SiblingLink, 0);
      RestChain(m0, m1, mem, layout, objectPtr, count);
      ghost var m2 := mem;
      Write(obj, ParentLink, 0);
      RestChain(m0, m2, mem, layout, objectPtr, count);
      RemovedInSteps(t, kids, obj);
      RemovedForest(t, kids, rank, obj);
      RemovedParents(t, kids, rank, obj);
      kids := KidsWithout(t, kids, obj);
    }

    lemma RestRefl(m: Mem)
      ensures RestSame(m, m, layout, objectPtr, count)
    {
    }

    /** Makes an object the first child of dest, which is not inside it. */
    method Insert(obj: int, dest: int)
      requires Valid() && 1 <= obj <= count && 1 <= dest <= count && !Within(Links(), rank, dest, obj)
      modifies `mem, `kids, `rank
      ensures Valid() && RestSame(old(mem), mem, layout, objectPtr, count)
      ensures Links()[obj].parent == dest && kids[dest] != [] && kids[dest][0] == obj
      ensures old(Links())[obj].parent == 0 ==>
        Links() == Inserted(old(Links()), obj, dest) && kids == old(kids)[dest := [obj] + old(kids)[dest]]
      ensures old(Links())[obj].parent != 0 ==>
        && Removable(old(Links()), old(kids), obj)
        && var t, k := Removed(old(Links()), old(kids), obj), KidsWithout(old(Links()), old(kids), obj);
        |t| == |k| == count + 1 && Links() == Inserted(t, obj, dest) && kids == k[dest := [obj] + k[dest]]
    {
      hide Forest, Table, Chain, Distinct, RestSame, Within, Removed, KidsWithout;
      ghost var m0, t0 := mem, Links();
      RestRefl(mem);
      var x := Read(obj, ParentLink);
      if x != 0 {
        Remove(obj);
        StillOutside(t0, Links(), kids, rank, dest, obj);
      }
      ghost var m1, t := mem, Links();
      InsertedForest(t, kids, rank, obj, dest);
      InsertedAt(t, kids, rank, obj, dest);
      x := Read(dest, ChildLink);
      Write(obj, SiblingLink, x);
      RestChain(m0, m1, mem, layout, objectPtr, count);
      ghost var m2 := mem;
      Write(dest, ChildLink, obj);
      RestChain(m0, m2, mem, layout, objectPtr, count);
      ghost var m3 := mem;
      Write(obj, ParentLink, dest);
      RestChain(m0, m3, mem, layout, objectPtr, count);
      kids, rank := kids[dest := [obj] + kids[dest]], Reranked(t, rank, obj, dest);
    }
  }

  ghost predicate Removable(t: seq<Node>, kids: seq<seq<int>>, obj: int) {
    && 1 <= obj < |t| == |kids| && 1 <= t[obj].parent < |t| && obj in kids[t[obj].parent]
    && forall i :: 0 <= i < |kids[t[obj].parent]| ==> 0 <= kids[t[obj].parent][i] < |t|
  }

  lemma LinkRange(t: seq<Node>, p: int, kids: seq<int>, i: nat)
    requires 1 <= p < |t| && Chain(t, p, kids) && i <= |kids|
    ensures t[p].child == Elem(kids, 0) && 0 <= Elem(kids, i) < |t| && (i < |kids| ==> Elem(kids, i) >= 1)
    ensures i < |kids| ==> t[kids[i]].sibling == Elem(kids, i + 1) && 0 <= t[kids[i]].sibling < |t|
  {
    if i < |kids| {
      KidAt(t, p, kids, i);
    }
    if i + 1 < |kids| {
      KidAt(t, p, kids, i + 1);
    }
  }

  lemma FirstKid(t: seq<Node>, p: int, kids: seq<int>, k: nat)
    requires 1 <= p < |t| && Chain(t, p, kids) && k < |kids| && t[p].child == kids[k]
    ensures k == 0
  {
    KidAt(t, p, kids, k);
  }

  lemma NotLast(t: seq<Node>, p: int, kids: seq<int>, i: nat, k: nat, y: int)
    requires 1 <= p < |t| && Chain(t, p, kids) && i < k < |kids| && y == Elem(kids, i + 1) && y != kids[k]
    ensures i + 1 < k && y == kids[i + 1]
  {
  }

  lemma NextKid(t: seq<Node>, p: int, kids: seq<int>, i: nat, k: nat)
    requires 1 <= p < |t| && Chain(t, p, kids) && i < |kids| && k < |kids| && t[kids[i]].sibling == kids[k]
    ensures k == i + 1
  {
    KidAt(t, p, kids, i);
    KidAt(t, p, kids, k);
  }

  lemma InsertedAt(t: seq<Node>, kids: seq<seq<int>>, rank: seq<nat>, obj: int, dest: int)
    requires Forest(t, kids, rank) && 1 <= obj < |t| && 1 <= dest < |t| && !Within(t, rank, dest, obj)
    ensures 0 <= t[dest].child < |t| && obj != dest && |kids| == |t|
    ensures Inserted(t, obj, dest)[obj].parent == dest
  {
    WithinItself(t, rank, obj);
    LinkRange(t, dest, kids[dest], 0);
    hide Forest, Within;
  }

  /** Removing an object does not put anything inside it. */
  lemma {:induction false} StillOutside(t: seq<Node>, t': seq<Node>, kids': seq<seq<int>>, rank: seq<nat>, x: int,
                                        o: int)
    requires 1 <= x < |t| == |rank| && Forest(t', kids', rank) && |t'| == |t| && !Within(t, rank, x, o)
    requires forall y :: 1 <= y < |t| ==> t'[y].parent == if y == o then 0 else t[y].parent
    ensures !Within(t', rank, x, o)
    decreases rank[x]
  {
    if 1 <= t'[x].parent < |t| {
      StillOutside(t, t', kids', rank, t'[x].parent, o);
    }
  }
}
