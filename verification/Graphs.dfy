/** Walks in a graph given by its successor lists. */
module Graphs {

  ghost predicate Walk<T(!new)>(next: T -> seq<T>, p: seq<T>) {
    p != [] && forall i | 0 < i < |p| :: p[i] in next(p[i - 1])
  }

  ghost predicate Distinct<T(!new)>(p: seq<T>) {
    forall i, j | 0 <= i < j < |p| :: p[i] != p[j]
  }

  ghost predicate Cyclic<T(!new)>(next: T -> seq<T>) {
    exists p :: Walk(next, p) && |p| > 1 && p[0] == p[|p| - 1]
  }

  lemma WalkTail<T(!new)>(next: T -> seq<T>, p: seq<T>)
    requires Walk(next, p) && |p| > 1
    ensures Walk(next, p[1..]) && p[1] in next(p[0])
  {
    forall i | 0 < i < |p[1..]| ensures p[1..][i] in next(p[1..][i - 1]) {
      assert p[i + 1] in next(p[i]);
    }
  }

  lemma WalkFrom<T(!new)>(next: T -> seq<T>, a: T, p: seq<T>)
    requires Walk(next, p) && p[0] in next(a)
    ensures Walk(next, [a] + p)
  {
    var q := [a] + p;
    forall i | 0 < i < |q| ensures q[i] in next(q[i - 1]) {
      if i > 1 {
        assert p[i - 1] in next(p[i - 2]);
      }
    }
  }

  lemma WalkTo<T(!new)>(next: T -> seq<T>, p: seq<T>, b: T)
    requires Walk(next, p) && b in next(p[|p| - 1])
    ensures Walk(next, p + [b])
  {
  }

  lemma WalkDrop<T(!new)>(next: T -> seq<T>, p: seq<T>, k: nat)
    requires Walk(next, p) && k < |p|
    ensures Walk(next, p[k..])
  {
    forall i | 0 < i < |p[k..]| ensures p[k..][i] in next(p[k..][i - 1]) {
      assert p[k + i] in next(p[k + i - 1]);
    }
  }

  // ---------------------------------------------------------------------------
  // Orders that put successors first
  // ---------------------------------------------------------------------------

  ghost predicate SuccessorsFirst<T(!new)>(next: T -> seq<T>, order: seq<T>) {
    forall i, d | 0 <= i < |order| && d in next(order[i]) :: d in order[..i]
  }

  lemma {:induction false} WalksDescend<T(!new)>(next: T -> seq<T>, order: seq<T>, p: seq<T>, i: nat)
    requires SuccessorsFirst(next, order) && Walk(next, p) && |p| > 1 && i < |order| && order[i] == p[0]
    ensures p[|p| - 1] in order[..i]
    decreases |p|
  {
    WalkTail(next, p);
    if |p| > 2 {
      var k :| 0 <= k < i && order[k] == p[1];
      WalksDescend(next, order, p[1..], k);
    }
  }

  /** No closed walk passes through a node of such an order. */
  lemma {:induction false} OrderedNodesAreAcyclic<T(!new)>(next: T -> seq<T>, order: seq<T>, p: seq<T>, i: nat)
    requires SuccessorsFirst(next, order) && Walk(next, p) && |p| > 1 && i < |order| && order[i] == p[0]
    ensures p[|p| - 1] != p[0]
    decreases i
  {
    WalksDescend(next, order, p, i);
    if p[|p| - 1] == p[0] {
      var k :| 0 <= k < i && order[k] == p[0];
      OrderedNodesAreAcyclic(next, order, p, k);
    }
  }
}
