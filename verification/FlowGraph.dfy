/** Walks, reachability and cycles in a graph given by its successor lists. */
module FlowGraph {
  type Successors = string -> seq<string>

  predicate Walk(next: Successors, p: seq<string>) {
    p != [] && forall i :: 0 <= i < |p| - 1 ==> p[i + 1] in next(p[i])
  }

  function Last(p: seq<string>): string
    requires p != []
  {
    p[|p| - 1]
  }

  predicate WalkBetween(next: Successors, p: seq<string>, a: string, b: string) {
    Walk(next, p) && p[0] == a && Last(p) == b
  }

  ghost predicate Reach(next: Successors, a: string, b: string) {
    exists p :: WalkBetween(next, p, a, b)
  }

  ghost predicate OnCycle(next: Successors, a: string) {
    exists p :: WalkBetween(next, p, a, a) && |p| >= 2
  }

  predicate ClosedUnder(next: Successors, s: set<string>) {
    forall x, y :: x in s && y in next(x) ==> y in s
  }

  predicate Distinct(p: seq<string>) {
    forall i, j :: 0 <= i < j < |p| ==> p[i] != p[j]
  }

  lemma ReachesItself(next: Successors, a: string)
    ensures Reach(next, a, a)
  {
    assert WalkBetween(next, [a], a, a);
  }

  lemma ReachesFurther(next: Successors, a: string, b: string, c: string)
    requires Reach(next, a, b) && c in next(b)
    ensures Reach(next, a, c)
  {
    var p :| WalkBetween(next, p, a, b);
    assert WalkBetween(next, p + [c], a, c);
  }

  /** A closed set holds every walk that starts in it. */
  lemma {:induction false} WalkStaysInside(next: Successors, s: set<string>, p: seq<string>)
    requires ClosedUnder(next, s) && Walk(next, p) && p[0] in s
    ensures forall i :: 0 <= i < |p| ==> p[i] in s
  {
    for i := 1 to |p|
      invariant forall j :: 0 <= j < i ==> p[j] in s
    {
      assert p[i - 1 + 1] in next(p[i - 1]);
    }
  }

  lemma ClosedHoldsReachable(next: Successors, s: set<string>, a: string, b: string)
    requires ClosedUnder(next, s) && a in s && Reach(next, a, b)
    ensures b in s
  {
    var p :| WalkBetween(next, p, a, b);
    WalkStaysInside(next, s, p);
  }

  // ---------- acyclicity by an order of finishing ----------

  /** Every node's successors stand before it. */
  predicate Topological(next: Successors, order: seq<string>) {
    forall i :: 0 <= i < |order| ==> forall y :: y in next(order[i]) ==> y in order[..i]
  }

  lemma {:induction false} WalkDescends(next: Successors, order: seq<string>, i: nat, p: seq<string>)
    requires Topological(next, order) && i < |order| && Walk(next, p) && |p| >= 2 && p[0] == order[i]
    ensures Last(p) in order[..i]
    decreases |p|
  {
    assert p[0 + 1] in next(p[0]);
    var j :| 0 <= j < i && order[j] == p[1];
    if |p| > 2 {
      assert Walk(next, p[1..]);
      WalkDescends(next, order, j, p[1..]);
      assert Last(p[1..]) in order[..j];
      var k :| 0 <= k < j && order[k] == Last(p);
      assert order[..i][k] == Last(p);
    } else {
      assert order[..i][j] == Last(p);
    }
  }

  lemma {:induction false} NoReturn(next: Successors, order: seq<string>, i: nat, p: seq<string>)
    requires Topological(next, order) && i < |order|
    requires |p| >= 2 && Walk(next, p) && order[i] == p[0]
    ensures Last(p) != p[0]
  {
    if Last(p) == p[0] {
      WalkDescends(next, order, i, p);
      var j :| 0 <= j < i && order[..i][j] == Last(p);
      NoReturn(next, order, j, p);
    }
  }

  lemma TopologicalMeansNoCycle(next: Successors, order: seq<string>, a: string, b: string)
    requires Topological(next, order) && a in order && Reach(next, a, b)
    ensures !OnCycle(next, b)
  {
    var inside := set x | x in order;
    assert ClosedUnder(next, inside) by {
      forall x, y | x in inside && y in next(x) ensures y in inside {
        var i :| 0 <= i < |order| && order[i] == x;
        assert y in order[..i];
      }
    }
    ClosedHoldsReachable(next, inside, a, b);
    var i :| 0 <= i < |order| && order[i] == b;
    forall p | WalkBetween(next, p, b, b) && |p| >= 2 ensures false {
      NoReturn(next, order, i, p);
    }
  }

  /** Finishing a node whose successors have all finished keeps the order topological. */
  lemma FinishNext(next: Successors, order: seq<string>, node: string)
    requires Topological(next, order) && forall y :: y in next(node) ==> y in order
    ensures Topological(next, order + [node])
  {
    var grown := order + [node];
    forall i, y | 0 <= i < |grown| && y in next(grown[i]) ensures y in grown[..i] {
      if i < |order| {
        assert grown[..i] == order[..i];
      } else {
        assert grown[..i] == order;
      }
    }
  }

  // ---------- what acyclicity gives ----------

  /** Where no cycle is reachable, a walk never repeats a node. */
  lemma WalksAreDistinct(next: Successors, p: seq<string>)
    requires Walk(next, p) && forall x :: Reach(next, p[0], x) ==> !OnCycle(next, x)
    ensures Distinct(p)
  {
    forall i, j | 0 <= i < j < |p| ensures p[i] != p[j] {
      if p[i] == p[j] {
        assert WalkBetween(next, p[..i + 1], p[0], p[i]);
        var loop := p[i..j + 1];
        forall k | 0 <= k < |loop| - 1 ensures loop[k + 1] in next(loop[k]) {
          assert p[i + k + 1] in next(p[i + k]);
        }
        assert WalkBetween(next, loop, p[i], p[i]);
        assert Reach(next, p[0], p[i]) && OnCycle(next, p[i]);
      }
    }
  }

  lemma {:induction false} DistinctFits(p: seq<string>, s: set<string>)
    requires Distinct(p) && forall i :: 0 <= i < |p| ==> p[i] in s
    ensures |p| <= |s|
  {
    if p != [] {
      var init := p[..|p| - 1];
      assert forall i :: 0 <= i < |init| ==> init[i] in s - {Last(p)};
      DistinctFits(init, s - {Last(p)});
    }
  }

  /** A walk over some of the edges is a walk over all of them. */
  lemma SubgraphWalk(some: Successors, all: Successors, p: seq<string>)
    requires Walk(some, p) && forall x, y :: y in some(x) ==> y in all(x)
    ensures Walk(all, p)
  {
  }

  lemma PrefixIsWalk(next: Successors, p: seq<string>, k: nat)
    requires Walk(next, p) && 0 < k <= |p|
    ensures WalkBetween(next, p[..k], p[0], p[k - 1])
  {
  }

  lemma WalksCompose(next: Successors, p: seq<string>, q: seq<string>)
    requires Walk(next, p) && Walk(next, q) && Last(p) == q[0]
    ensures WalkBetween(next, p + q[1..], p[0], Last(q))
  {
    var r := p + q[1..];
    forall i | 0 <= i < |r| - 1 ensures r[i + 1] in next(r[i]) {
      if i >= |p| - 1 {
        assert r[i] == q[i - (|p| - 1)] && r[i + 1] == q[i - (|p| - 1) + 1];
      }
    }
  }
}
