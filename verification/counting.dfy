/** Index lists: the links that thread them, and how many places distinct indices can fill. */
module Counting {

  function Upto(n: nat): (s: set<nat>)
    ensures |s| == n
    ensures forall i: nat :: i in s <==> i < n
  {
    if n == 0 then {} else Upto(n - 1) + {n - 1}
  }

  function Elements(order: seq<nat>): (s: set<nat>)
    ensures forall i: nat :: i in s <==> i in order
  {
    set i: nat | i in order
  }

  ghost predicate NoRepeat(order: seq<nat>) {
    forall i, j :: 0 <= i < j < |order| ==> order[i] != order[j]
  }

  ghost predicate Below(order: seq<nat>, n: nat) {
    forall k :: 0 <= k < |order| ==> order[k] < n
  }

  lemma {:induction false} ElementsSize(order: seq<nat>)
    requires NoRepeat(order)
    ensures |Elements(order)| == |order|
  {
    if |order| > 0 {
      var m := |order| - 1;
      ElementsSize(order[..m]);
      assert Elements(order) == Elements(order[..m]) + {order[m]};
    }
  }

  lemma {:induction false} SubsetSize<T>(a: set<T>, b: set<T>)
    requires a <= b
    ensures |a| <= |b|
  {
    if a != {} {
      var x :| x in a;
      SubsetSize(a - {x}, b - {x});
    }
  }

  /** Distinct indices below `n` are at most `n`. */
  lemma NoRepeatBound(order: seq<nat>, n: nat)
    requires NoRepeat(order) && Below(order, n)
    ensures |order| <= n
  {
    ElementsSize(order);
    SubsetSize(Elements(order), Upto(n));
  }

  /** Distinct indices that leave none below `n` out are `n` of them. */
  lemma NoRepeatFull(order: seq<nat>, n: nat)
    requires NoRepeat(order) && Below(order, n)
    requires forall i: nat :: i < n ==> i in order
    ensures |order| == n
  {
    NoRepeatBound(order, n);
    ElementsSize(order);
    SubsetSize(Upto(n), Elements(order));
  }

  /** The end of every one-octet index list, and no index. */
  const NONE: nat := 0xFF

  /** The link that leads to place `k` of a list. */
  function LinkAt(order: seq<nat>, k: nat): nat {
    if k < |order| then order[k] else NONE
  }

  /** A list with the index at place `k` taken out. */
  function RemovedAt(order: seq<nat>, k: nat): (r: seq<nat>)
    requires k < |order|
    ensures |r| == |order| - 1
    ensures forall j :: 0 <= j < |r| ==> r[j] == if j < k then order[j] else order[j + 1]
  {
    order[..k] + order[k + 1..]
  }

  lemma RemovedOrder(order: seq<nat>, n: nat, k: nat)
    requires Below(order, n) && NoRepeat(order) && k < |order|
    ensures Below(RemovedAt(order, k), n) && NoRepeat(RemovedAt(order, k))
    ensures forall j :: j in RemovedAt(order, k) <==> j != order[k] && j in order
  {
    assert order == order[..k] + [order[k]] + order[k + 1..];
  }
}
