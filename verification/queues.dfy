/**
 Sequence helpers for the intrusive acquirer list of a current page. The list is
 modelled as a sequence of acquirer handles in arrival order; `prev` and `next` of a
 node are its neighbours at index i - 1 and i + 1.
 */
module Queues {

  /** An intrusive list node is linked at most once. */
  ghost predicate NoDup<T>(q: seq<T>)
  {
    forall i, j :: 0 <= i < j < |q| ==> q[i] != q[j]
  }

  /** Position of a linked node. */
  function IndexOf<T(==)>(q: seq<T>, x: T): (i: nat)
    requires x in q
    ensures i < |q| && q[i] == x
    ensures forall j :: 0 <= j < i ==> q[j] != x
  {
    if q[0] == x then 0 else 1 + IndexOf(q[1..], x)
  }

  /** Unlinks the node at position i; the others keep their order. */
  function RemoveAt<T>(q: seq<T>, i: nat): (r: seq<T>)
    requires i < |q|
    ensures |r| == |q| - 1
    ensures forall j :: 0 <= j < i ==> r[j] == q[j]
    ensures forall j :: i <= j < |r| ==> r[j] == q[j + 1]
  {
    q[..i] + q[i + 1..]
  }

  /** Unlinking a node of a duplicate-free list removes exactly that node. */
  lemma RemoveAtMembers<T>(q: seq<T>, i: nat)
    requires i < |q| && NoDup(q)
    ensures NoDup(RemoveAt(q, i))
    ensures forall x :: x in RemoveAt(q, i) <==> x in q && x != q[i]
  {
    var r := RemoveAt(q, i);
    forall x
      ensures x in r <==> x in q && x != q[i]
    {
      if x in r {
        var j :| 0 <= j < |r| && r[j] == x;
        if j < i {
          assert q[j] == x;
        } else {
          assert q[j + 1] == x;
        }
      }
      if x in q && x != q[i] {
        var j :| 0 <= j < |q| && q[j] == x;
        if j < i {
          assert r[j] == x;
        } else {
          assert j > i;
          assert r[j - 1] == x;
        }
      }
    }
  }

}
