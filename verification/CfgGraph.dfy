/** Depth-first marking of a finite graph (cfg.c, visit). */
module CfgGraph {

  /** Successors of each block, in the order visit follows them. */
  type Graph = seq<seq<nat>>

  ghost predicate WellFormed(g: Graph) {
    forall b :: 0 <= b < |g| ==> forall k :: 0 <= k < |g[b]| ==> g[b][k] < |g|
  }

  ghost predicate Edge(g: Graph, a: nat, b: nat) {
    a < |g| && b in g[a]
  }

  ghost predicate Path(g: Graph, p: seq<nat>) {
    p != [] && p[0] < |g| && forall i :: 0 < i < |p| ==> Edge(g, p[i - 1], p[i])
  }

  ghost predicate Reachable(g: Graph, a: nat, b: nat) {
    exists p :: Path(g, p) && p[0] == a && p[|p| - 1] == b
  }

  lemma ReachableSelf(g: Graph, a: nat)
    requires a < |g|
    ensures Reachable(g, a, a)
  {
    assert Path(g, [a]) && [a][|[a]| - 1] == a;
  }

  lemma ReachableStep(g: Graph, a: nat, b: nat, c: nat)
    requires Reachable(g, a, b) && Edge(g, b, c)
    ensures Reachable(g, a, c)
  {
    var p :| Path(g, p) && p[0] == a && p[|p| - 1] == b;
    var q := p + [c];
    forall i | 0 < i < |q| ensures Edge(g, q[i - 1], q[i]) {
      if i < |p| {
        assert Edge(g, p[i - 1], p[i]);
      }
    }
    assert Path(g, q) && q[0] == a && q[|q| - 1] == c;
  }

  lemma ReachableTrans(g: Graph, a: nat, b: nat, c: nat)
    requires Reachable(g, a, b) && Reachable(g, b, c)
    ensures Reachable(g, a, c)
  {
    var p :| Path(g, p) && p[0] == b && p[|p| - 1] == c;
    var i := 0;
    while i + 1 < |p|
      invariant 0 <= i < |p| && Reachable(g, a, p[i])
    {
      ReachableStep(g, a, p[i], p[i + 1]);
      i := i + 1;
    }
  }

  /** A set that contains `a` and every successor of its members contains what `a` reaches. */
  lemma ClosedContains(g: Graph, s: set<nat>, a: nat, b: nat)
    requires a in s && Reachable(g, a, b)
    requires forall x, y :: x in s && Edge(g, x, y) ==> y in s
    ensures b in s
  {
    var p :| Path(g, p) && p[0] == a && p[|p| - 1] == b;
    var i := 0;
    while i + 1 < |p|
      invariant 0 <= i < |p| && p[i] in s
    {
      assert Edge(g, p[i], p[i + 1]);
      i := i + 1;
    }
  }

  ghost predicate IsNode(g: Graph, b: nat) {
    b < |g|
  }

  ghost function Nodes(g: Graph): set<nat> {
    set b: nat | b < |g| && IsNode(g, b)
  }

  /** Every successor of a node that was marked in between is marked now. */
  ghost predicate ClosedBetween(g: Graph, before: set<nat>, after: set<nat>) {
    forall x, y :: x in after && x !in before && Edge(g, x, y) ==> y in after
  }

  /** Mark `b` and, recursively, its successors, stopping at marked blocks. */
  method Visit(g: Graph, b: nat, visited: set<nat>) returns (r: set<nat>)
    requires WellFormed(g) && b < |g| && visited <= Nodes(g)
    ensures visited <= r <= Nodes(g) && b in r
    ensures ClosedBetween(g, visited, r)
    ensures forall x :: x in r && x !in visited ==> Reachable(g, b, x)
    decreases Nodes(g) - visited
  {
    if b in visited {
      return visited;
    }
    r := visited + {b};
    ReachableSelf(g, b);
    assert b in Nodes(g) - visited && b !in Nodes(g) - r;
    var i := 0;
    while i < |g[b]|
      invariant 0 <= i <= |g[b]| && visited + {b} <= r <= Nodes(g)
      invariant forall k :: 0 <= k < i ==> g[b][k] in r
      invariant forall x, y :: x in r && x !in visited && x != b && Edge(g, x, y) ==> y in r
      invariant forall x :: x in r && x !in visited ==> Reachable(g, b, x)
    {
      var before := r;
      r := Visit(g, g[b][i], r);
      assert Edge(g, b, g[b][i]);
      ReachableStep(g, b, b, g[b][i]);
      forall x | x in r && x !in visited ensures Reachable(g, b, x) {
        if x !in before {
          ReachableTrans(g, b, g[b][i], x);
        }
      }
      i := i + 1;
    }
  }

  /** From an unmarked graph, exactly the reachable blocks end up marked. */
  method Mark(g: Graph, entry: nat) returns (r: set<nat>)
    requires WellFormed(g) && entry < |g|
    ensures forall x :: x in r <==> Reachable(g, entry, x)
  {
    r := Visit(g, entry, {});
    forall x | Reachable(g, entry, x) ensures x in r {
      ClosedContains(g, r, entry, x);
    }
  }
}
