/** Row ids in SQL's `ORDER BY id ASC`. */
module Ordering {
  lemma HasElement(s: set<int>)
    ensures s == {} || exists x :: x in s
  {
    if forall x :: x !in s {
      assert s <= {};
    }
  }

  predicate IsLeast(s: set<int>, least: int) {
    least in s && forall id :: id in s ==> least <= id
  }

  lemma {:induction false} LeastExists(s: set<int>)
    requires s != {}
    ensures exists least :: IsLeast(s, least)
  {
    HasElement(s);
    var x :| x in s;
    if s != {x} {
      LeastExists(s - {x});
      var m :| IsLeast(s - {x}, m);
      assert forall id :: id in s ==> id == x || id in s - {x};
      assert IsLeast(s, if x <= m then x else m);
    } else {
      assert IsLeast(s, x);
    }
  }

  /** The elements of `ids` once each, in ascending order. */
  ghost predicate Ascending(ids: set<int>, order: seq<int>) {
    && (forall id :: id in ids ==> id in order)
    && (forall k :: 0 <= k < |order| ==> order[k] in ids)
    && (forall j, k :: 0 <= j < k < |order| ==> order[j] < order[k])
  }

  /** The first `i` of them. */
  function Taken(order: seq<int>, i: nat): set<int>
    requires i <= |order|
  {
    set k | 0 <= k < i :: order[k]
  }

  lemma TakeOne(ids: set<int>, order: seq<int>, i: nat)
    requires Ascending(ids, order) && i < |order|
    ensures order[i] in ids && order[i] !in Taken(order, i)
    ensures Taken(order, i + 1) == Taken(order, i) + {order[i]}
    ensures forall id :: id in ids && id < order[i] ==> id in Taken(order, i)
    ensures Taken(order, i) <= ids
  {
    forall id | id in ids && id < order[i] ensures id in Taken(order, i) {
      assert id in order;
      var k :| 0 <= k < |order| && order[k] == id;
    }
  }

  lemma TakenAll(ids: set<int>, order: seq<int>)
    requires Ascending(ids, order)
    ensures Taken(order, |order|) == ids
    ensures order != [] <==> ids != {}
    ensures order != [] ==> IsLeast(ids, order[0])
  {
    forall id | id in ids ensures id in Taken(order, |order|) {
      assert id in order;
      var k :| 0 <= k < |order| && order[k] == id;
    }
    HasElement(ids);
    assert order != [] ==> order[0] in ids;
  }

  method Sorted(ids: set<int>) returns (order: seq<int>)
    ensures Ascending(ids, order)
  {
    var left := ids;
    order := [];
    while left != {}
      invariant forall id :: id in order || id in left <==> id in ids
      invariant forall j, k :: 0 <= j < k < |order| ==> order[j] < order[k]
      invariant forall id, k :: id in left && 0 <= k < |order| ==> order[k] < id
      decreases left
    {
      LeastExists(left);
      var least :| IsLeast(left, least);
      order, left := order + [least], left - {least};
    }
  }
}
