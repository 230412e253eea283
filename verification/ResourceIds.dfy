/**
 The table of resources of openblt/kernel/resource.c: rsrc_bind takes an id from the chain of free ids, rsrc_release
 puts it back, rsrc_find looks an id up.
 */
module ResourceIds {

  type Address = int

  const NULL_RESOURCE: Address := 0
  const RSRC_NONE := 0

  datatype Option<T> = None | Some(value: T)

  /** What follows position k, or zero. */
  function After(ids: seq<int>, k: int): int
    requires 0 <= k < |ids|
  {
    if k + 1 < |ids| then ids[k + 1] else 0
  }

  /** From `first` the links lead through these ids, in this order, to zero. */
  ghost predicate Chained(next: seq<int>, first: int, ids: seq<int>) {
    && (forall k | 0 <= k < |ids| :: 0 < ids[k] < |next|)
    && first == (if ids == [] then 0 else ids[0])
    && (forall k | 0 <= k < |ids| :: next[ids[k]] == After(ids, k))
    && (forall j, k | 0 <= j < k < |ids| :: ids[j] != ids[k])
  }

  /** Taking the first id leaves a chain from its successor. */
  lemma ChainPopped(next: seq<int>, first: int, ids: seq<int>)
    requires Chained(next, first, ids) && ids != []
    ensures Chained(next, next[first], ids[1..]) && first !in ids[1..]
  {
    var rest := ids[1..];
    forall k | 0 <= k < |rest| ensures next[rest[k]] == After(rest, k) {
      assert rest[k] == ids[k + 1];
      assert next[ids[k + 1]] == After(ids, k + 1);
    }
    assert |ids| > 1 ==> rest[0] == ids[1];
    assert next[ids[0]] == After(ids, 0);
  }

  lemma ChainHead(next: seq<int>, first: int, ids: seq<int>)
    requires Chained(next, first, ids)
    ensures first == 0 <==> ids == []
    ensures ids != [] ==> first == ids[0] && 0 < first < |next|
    ensures forall id | id in ids :: 0 < id < |next|
  {
  }

  /** Linking an id that is not in the chain to its front. */
  lemma ChainPushed(next: seq<int>, first: int, ids: seq<int>, id: int)
    requires Chained(next, first, ids) && 0 < id < |next| && id !in ids
    ensures Chained(next[id := first], id, [id] + ids)
  {
    var e := [id] + ids;
    var n := next[id := first];
    forall k | 0 <= k < |e| ensures n[e[k]] == After(e, k) {
      if k > 0 {
        assert e[k] == ids[k - 1] && ids[k - 1] != id;
        assert next[ids[k - 1]] == After(ids, k - 1);
      }
    }
  }

  function IdRange(n: nat): (r: set<int>)
    ensures |r| == n && forall i :: i in r <==> 1 <= i <= n
  {
    if n == 0 then {} else IdRange(n - 1) + {n}
  }

  lemma {:induction false} DistinctCount(ids: seq<int>)
    requires forall j, k | 0 <= j < k < |ids| :: ids[j] != ids[k]
    ensures |set i | i in ids| == |ids|
  {
    if ids == [] {
      assert (set i | i in ids) == {};
    } else {
      var n := |ids| - 1;
      DistinctCount(ids[..n]);
      assert (set i | i in ids) == (set i | i in ids[..n]) + {ids[n]};
      assert ids[n] !in ids[..n];
    }
  }

  lemma ChainDistinct(next: seq<int>, first: int, ids: seq<int>)
    requires Chained(next, first, ids)
    ensures forall j, k | 0 <= j < k < |ids| :: ids[j] != ids[k]
  {
  }

  lemma SplitCount(free: set<int>, bound: map<int, Address>, n: nat)
    requires forall i :: 1 <= i <= n <==> i in free || i in bound
    requires forall i :: !(i in free && i in bound)
    ensures |free| + |bound| == n
  {
    hide IdRange;
    var all := free + bound.Keys;
    forall i ensures i in all <==> i in IdRange(n) {
    }
    assert all == IdRange(n);
    assert free !! bound.Keys;
  }

  class Table {
    const rmax: int
    const resource: array<Address>
    const next: array<int>
    var rfree: int
    var idOf: map<Address, int>
    var typeOf: map<Address, int>
    ghost var free: seq<int>

    ghost predicate Valid()
      reads this, resource, next
    {
      && rmax > 1 && resource.Length == rmax && next.Length == rmax && resource != next
      && Chained(next[..], rfree, free)
      && resource[0] == NULL_RESOURCE
      && (forall id | 0 < id < rmax :: id in free <==> resource[id] == NULL_RESOURCE)
      && (forall id | 0 < id < rmax && resource[id] != NULL_RESOURCE ::
            resource[id] in idOf && idOf[resource[id]] == id
            && resource[id] in typeOf && typeOf[resource[id]] != RSRC_NONE)
    }

    /** The resources by their ids. */
    ghost function Bound(): (m: map<int, Address>)
      requires Valid()
      reads this, resource, next
    {
      map id | 0 < id < rmax && resource[id] != NULL_RESOURCE :: resource[id]
    }

    constructor (rmax: int)
      requires rmax > 1
      ensures Valid() && fresh(resource) && fresh(next) && this.rmax == rmax && Bound() == map[]
    {
      this.rmax := rmax;
      resource := new Address[rmax](_ => NULL_RESOURCE);
      next := new int[rmax](i => i + 1);
      rfree := 1;
      idOf, typeOf := map[], map[];
      free := seq(rmax - 1, k => k + 1);
      new;
      next[rmax - 1] := 0;
      forall id | 0 < id < rmax ensures id in free {
        assert free[id - 1] == id;
      }
    }

    /** The new id was no resource's, and no other id changes hands.  Without a free id the kernel panics. */
    method Bind(rsrc: Address, type_: int) returns (id: int)
      requires Valid() && rfree != 0
      requires rsrc != NULL_RESOURCE && type_ != RSRC_NONE && rsrc !in Bound().Values
      modifies this, resource
      ensures Valid() && id == old(rfree) && id !in old(Bound()) && 0 < id < rmax
      ensures Bound() == old(Bound())[id := rsrc] && free == old(free)[1..]
      ensures idOf == old(idOf)[rsrc := id] && typeOf == old(typeOf)[rsrc := type_]
    {
      hide Chained;
      ChainHead(next[..], rfree, free);
      ChainPopped(next[..], rfree, free);
      forall i | 0 < i < rmax && resource[i] != NULL_RESOURCE ensures resource[i] != rsrc {
        assert i in Bound() && Bound()[i] == resource[i];
      }
      assert free == [rfree] + free[1..];
      id := rfree;
      rfree := next[rfree];
      resource[id] := rsrc;
      idOf := idOf[rsrc := id];
      typeOf := typeOf[rsrc := type_];
      free := free[1..];
    }

    /** The id is free again, and the next to be given out. */
    method Release(rsrc: Address)
      requires Valid() && rsrc in Bound().Values
      modifies this, resource, next
      ensures Valid() && rsrc in old(idOf) && var id := old(idOf[rsrc]);
        && id in old(Bound()) && old(Bound())[id] == rsrc
        && Bound() == old(Bound()) - {id} && free == [id] + old(free) && rfree == id
      ensures typeOf == old(typeOf)[rsrc := RSRC_NONE]
    {
      hide Chained;
      ghost var i :| i in Bound() && Bound()[i] == rsrc;
      var id := idOf[rsrc];
      ChainPushed(next[..], rfree, free, id);
      typeOf := typeOf[rsrc := RSRC_NONE];
      idOf := idOf[rsrc := 0];
      resource[id] := NULL_RESOURCE;
      next[id] := rfree;
      rfree := id;
      free := [id] + free;
    }

    /** An id finds its resource, if it is bound and of that type. */
    method Find(type_: int, id: int) returns (r: Option<Address>)
      requires Valid() && 0 <= id && type_ != RSRC_NONE
      ensures r.Some? <==> id in Bound() && typeOf[resource[id]] == type_
      ensures r.Some? ==> r.value == Bound()[id]
    {
      if id < rmax && resource[id] != NULL_RESOURCE && typeOf[resource[id]] == type_ {
        r := Some(resource[id]);
      } else {
        r := None;
      }
    }

    /** No id is ever lost: binding panics exactly when all rmax - 1 ids are in use. */
    lemma NoIdLost()
      requires Valid()
      ensures |free| + |Bound()| == rmax - 1
      ensures rfree == 0 <==> |Bound()| == rmax - 1
    {
      hide IdRange, Chained;
      ChainHead(next[..], rfree, free);
      ChainDistinct(next[..], rfree, free);
      DistinctCount(free);
      SplitCount((set i | i in free), Bound(), rmax - 1);
    }
  }
}
