/**
 The bin lists of the allocator: circular doubly linked lists threaded through
 memory words.  A node is either a bin head or a free chunk; its forward link is
 the word at offset 8 and its back link the word at offset 12.

 Memory is a sequence indexed by byte address whose entry at a multiple of four
 is the 32-bit word stored there; no other entry is ever read or written.
 */
module MallocBins {

  const NAV := 128
  const AV := 0x1000

  type Mem = seq<int>

  /** The word at address a. */
  function Word(m: Mem, a: int): int {
    if 0 <= a < |m| then m[a] else 0
  }

  /** The address of the i-th bin head, laid out so that its links sit at the chunk offsets. */
  function BinAt(i: int): int { AV + 8 * i }

  /** Dropping position k, and putting p at position k. */
  function Without<T>(s: seq<T>, k: nat): (r: seq<T>)
    requires k < |s|
    ensures |r| == |s| - 1
    ensures forall j :: 0 <= j < |r| ==> r[j] == if j < k then s[j] else s[j + 1]
  {
    s[..k] + s[k + 1..]
  }

  function With<T>(s: seq<T>, k: nat, p: T): (r: seq<T>)
    requires k <= |s|
    ensures |r| == |s| + 1
    ensures forall j :: 0 <= j < |r| ==> r[j] == if j < k then s[j] else if j == k then p else s[j - 1]
  {
    s[..k] + [p] + s[k..]
  }

  function Follow(head: int, list: seq<int>, k: int): int
  {
    if 0 <= k < |list| then list[k] else head
  }

  /** The forward and back links of the node at p. */
  function Fd(m: Mem, p: int): int { Word(m, p + 8) }
  function Bk(m: Mem, p: int): int { Word(m, p + 12) }

  /** The list from head runs forward through list and back again in reverse. */
  ghost predicate Ring(m: Mem, head: int, list: seq<int>) {
    && Fd(m, head) == Follow(head, list, 0)
    && Bk(m, head) == Follow(head, list, |list| - 1)
    && (forall k {:trigger Fd(m, list[k])} :: 0 <= k < |list| ==> Fd(m, list[k]) == Follow(head, list, k + 1))
    && (forall k {:trigger Bk(m, list[k])} :: 0 <= k < |list| ==> Bk(m, list[k]) == Follow(head, list, k - 1))
  }

  ghost predicate Node(p: int) {
    p % 8 == 0 && p >= BinAt(NAV)
  }

  /** No chunk is listed twice, in one bin or in two. */
  ghost predicate Apart(bins: seq<seq<int>>) {
    && |bins| == NAV
    && (forall i, k :: 0 <= i < NAV && 0 <= k < |bins[i]| ==> Node(bins[i][k]))
    && (forall i, k, j, l | 0 <= i < NAV && 0 <= k < |bins[i]| && 0 <= j < NAV && 0 <= l < |bins[j]| ::
          bins[i][k] == bins[j][l] ==> i == j && k == l)
  }

  ghost predicate Lists(m: Mem, bins: seq<seq<int>>)
    requires |bins| == NAV
  {
    forall i :: 1 <= i < NAV ==> Ring(m, BinAt(i), bins[i])
  }

  ghost predicate Listed(bins: seq<seq<int>>, p: int)
    requires |bins| == NAV
  {
    exists i :: 0 <= i < NAV && p in bins[i]
  }

  lemma RingAt(m: Mem, head: int, list: seq<int>, k: nat)
    requires Ring(m, head, list) && k < |list|
    ensures Bk(m, list[k]) == Follow(head, list, k - 1) && Fd(m, list[k]) == Follow(head, list, k + 1)
  {
  }

  lemma RingKept(m: Mem, m': Mem, head: int, list: seq<int>)
    requires Ring(m, head, list)
    requires Fd(m', head) == Fd(m, head) && Bk(m', head) == Bk(m, head)
    requires forall k :: 0 <= k < |list| ==> Fd(m', list[k]) == Fd(m, list[k]) && Bk(m', list[k]) == Bk(m, list[k])
    ensures Ring(m', head, list)
  {
  }

  /** Memory once back and forward point at each other. */
  function Joined(m: Mem, back: int, forward: int): (r: Mem)
    requires 0 <= back && back + 12 < |m| && 0 <= forward && forward + 12 < |m|
    ensures |r| == |m|
  {
    m[forward + 12 := back][back + 8 := forward]
  }

  lemma JoinedLinks(m: Mem, back: int, forward: int, p: int)
    requires 0 <= back && back + 12 < |m| && 0 <= forward && forward + 12 < |m|
    requires back % 8 == forward % 8 == p % 8 == 0
    ensures Fd(Joined(m, back, forward), p) == if p == back then forward else Fd(m, p)
    ensures Bk(Joined(m, back, forward), p) == if p == forward then back else Bk(m, p)
  {
  }

  /** The nodes of a ring: its head and its chunks, aligned, in range and distinct. */
  ghost predicate Nodes(m: Mem, head: int, list: seq<int>) {
    && head % 8 == 0 && 0 <= head && head + 12 < |m|
    && (forall j :: 0 <= j < |list| ==> list[j] % 8 == 0 && 0 <= list[j] && list[j] + 12 < |m| && list[j] != head)
    && (forall j, l :: 0 <= j < l < |list| ==> list[j] != list[l])
  }

  lemma FollowInRange(m: Mem, head: int, list: seq<int>, k: int)
    requires Nodes(m, head, list)
    ensures 0 <= Follow(head, list, k) && Follow(head, list, k) + 12 < |m|
  {
  }

  lemma UnlinkRing(m: Mem, head: int, list: seq<int>, k: nat)
    requires Ring(m, head, list) && k < |list| && Nodes(m, head, list)
    ensures Ring(Joined(m, Follow(head, list, k - 1), Follow(head, list, k + 1)), head, Without(list, k))
  {
    hide Joined, Fd, Bk, Follow, Nodes;
    FollowInRange(m, head, list, k - 1);
    FollowInRange(m, head, list, k + 1);
    var m' := Joined(m, Follow(head, list, k - 1), Follow(head, list, k + 1));
    var rest := Without(list, k);
    UnlinkHead(m, head, list, k);
    forall j | 0 <= j < |rest|
      ensures Fd(m', rest[j]) == Follow(head, rest, j + 1) && Bk(m', rest[j]) == Follow(head, rest, j - 1)
    {
      UnlinkNode(m, head, list, k, if j < k then j else j + 1);
    }
  }

  lemma UnlinkHead(m: Mem, head: int, list: seq<int>, k: nat)
    requires Ring(m, head, list) && k < |list| && Nodes(m, head, list)
    ensures var m' := Joined(m, Follow(head, list, k - 1), Follow(head, list, k + 1));
            var rest := Without(list, k);
            Fd(m', head) == Follow(head, rest, 0) && Bk(m', head) == Follow(head, rest, |rest| - 1)
  {
    JoinedLinks(m, Follow(head, list, k - 1), Follow(head, list, k + 1), head);
  }

  lemma UnlinkNode(m: Mem, head: int, list: seq<int>, k: nat, i: nat)
    requires Ring(m, head, list) && k < |list| && Nodes(m, head, list) && i < |list| && i != k
    ensures var m' := Joined(m, Follow(head, list, k - 1), Follow(head, list, k + 1));
            var rest, j := Without(list, k), if i < k then i else i - 1;
            && Fd(m', list[i]) == Follow(head, rest, j + 1)
            && Bk(m', list[i]) == Follow(head, rest, j - 1)
  {
    JoinedLinks(m, Follow(head, list, k - 1), Follow(head, list, k + 1), list[i]);
  }

  /** Memory once p is linked between back and forward. */
  function Inserted(m: Mem, back: int, forward: int, p: int): (r: Mem)
    requires 0 <= back && back + 12 < |m| && 0 <= forward && forward + 12 < |m| && 0 <= p && p + 12 < |m|
    ensures |r| == |m|
  {
    m[p + 12 := back][p + 8 := forward][forward + 12 := p][back + 8 := p]
  }

  lemma InsertedLinks(m: Mem, back: int, forward: int, p: int, q: int)
    requires 0 <= back && back + 12 < |m| && 0 <= forward && forward + 12 < |m| && 0 <= p && p + 12 < |m|
    requires back % 8 == forward % 8 == p % 8 == q % 8 == 0
    ensures Fd(Inserted(m, back, forward, p), q) == if q == back then p else if q == p then forward else Fd(m, q)
    ensures Bk(Inserted(m, back, forward, p), q) == if q == forward then p else if q == p then back else Bk(m, q)
  {
  }

  lemma InsertRing(m: Mem, head: int, list: seq<int>, k: nat, p: int)
    requires Ring(m, head, list) && k <= |list| && Nodes(m, head, list)
    requires p % 8 == 0 && 0 <= p && p + 12 < |m| && p != head && p !in list
    ensures Ring(Inserted(m, Follow(head, list, k - 1), Follow(head, list, k), p), head, With(list, k, p))
  {
    var m' := Inserted(m, Follow(head, list, k - 1), Follow(head, list, k), p);
    var more := With(list, k, p);
    InsertHead(m, head, list, k, p);
    hide Inserted, Fd, Bk, Follow;
    forall j | 0 <= j < |more|
      ensures Fd(m', more[j]) == Follow(head, more, j + 1) && Bk(m', more[j]) == Follow(head, more, j - 1)
    {
      if j == k {
        assert more[j] == p;
      } else {
        var i := if j < k then j else j - 1;
        assert more[j] == list[i];
        InsertNode(m, head, list, k, p, i);
      }
    }
  }

  lemma InsertHead(m: Mem, head: int, list: seq<int>, k: nat, p: int)
    requires Ring(m, head, list) && k <= |list| && Nodes(m, head, list)
    requires p % 8 == 0 && 0 <= p && p + 12 < |m| && p != head && p !in list
    ensures var m' := Inserted(m, Follow(head, list, k - 1), Follow(head, list, k), p);
            var more := With(list, k, p);
            && Fd(m', head) == Follow(head, more, 0) && Bk(m', head) == Follow(head, more, |more| - 1)
            && Fd(m', p) == Follow(head, more, k + 1) && Bk(m', p) == Follow(head, more, k - 1)
  {
    InsertedLinks(m, Follow(head, list, k - 1), Follow(head, list, k), p, head);
    InsertedLinks(m, Follow(head, list, k - 1), Follow(head, list, k), p, p);
  }

  lemma InsertNode(m: Mem, head: int, list: seq<int>, k: nat, p: int, i: nat)
    requires Ring(m, head, list) && k <= |list| && Nodes(m, head, list) && i < |list|
    requires p % 8 == 0 && 0 <= p && p + 12 < |m| && p != head && p !in list
    ensures var m' := Inserted(m, Follow(head, list, k - 1), Follow(head, list, k), p);
            var more, j := With(list, k, p), if i < k then i else i + 1;
            && Fd(m', list[i]) == Follow(head, more, j + 1)
            && Bk(m', list[i]) == Follow(head, more, j - 1)
  {
    InsertedLinks(m, Follow(head, list, k - 1), Follow(head, list, k), p, list[i]);
  }

  /** Rewriting one bin's links leaves the other bins' rings alone. */
  lemma OtherBins(m: Mem, m': Mem, bins: seq<seq<int>>, i: nat, list: seq<int>)
    requires Apart(bins) && Lists(m, bins) && 1 <= i < NAV
    requires Ring(m', BinAt(i), list)
    requires forall j :: 1 <= j < NAV && j != i ==>
      Fd(m', BinAt(j)) == Fd(m, BinAt(j)) && Bk(m', BinAt(j)) == Bk(m, BinAt(j))
    requires forall j, k | 1 <= j < NAV && j != i && 0 <= k < |bins[j]| ::
               Fd(m', bins[j][k]) == Fd(m, bins[j][k]) && Bk(m', bins[j][k]) == Bk(m, bins[j][k])
    ensures Lists(m', bins[i := list])
  {
    forall j | 1 <= j < NAV && j != i ensures Ring(m', BinAt(j), bins[j]) {
      RingKept(m, m', BinAt(j), bins[j]);
    }
  }
}
