/** Finite directed graphs given by child lists, reachability, and acyclicity. */
module Digraphs {

  type Node = nat
  type Digraph = seq<seq<Node>>

  ghost predicate WellFormed(g: Digraph) {
    forall n, c {:trigger c in g[n]} :: 0 <= n < |g| && c in g[n] ==> c < |g|
  }

  ghost predicate Edge(g: Digraph, x: Node, y: Node) {
    x < |g| && y in g[x]
  }

  ghost predicate IsPath(g: Digraph, p: seq<Node>, x: Node, y: Node) {
    p != [] && p[0] == x && p[|p| - 1] == y && forall i {:trigger p[i]} :: 0 <= i < |p| - 1 ==> Edge(g, p[i], p[i + 1])
  }

  ghost predicate Reach(g: Digraph, x: Node, y: Node) {
    exists p {:trigger IsPath(g, p, x, y)} :: IsPath(g, p, x, y)
  }

  lemma ReachSelf(g: Digraph, x: Node)
    ensures Reach(g, x, x)
  {
    assert IsPath(g, [x], x, x);
  }

  lemma ReachEdge(g: Digraph, x: Node, y: Node)
    requires Edge(g, x, y)
    ensures Reach(g, x, y)
  {
    assert IsPath(g, [x, y], x, y);
  }

  lemma ReachOn(g: Digraph, x: Node, y: Node, z: Node)
    requires Reach(g, x, y) && Reach(g, y, z)
    ensures Reach(g, x, z)
  {
    var p :| IsPath(g, p, x, y);
    var q :| IsPath(g, q, y, z);
    var r := p + q[1..];
    forall i | 0 <= i < |r| - 1 ensures Edge(g, r[i], r[i + 1]) {
      if i < |p| - 1 {
        assert r[i] == p[i] && r[i + 1] == p[i + 1];
      } else {
        var k := i - (|p| - 1);
        assert r[i] == q[k] && r[i + 1] == q[k + 1];
      }
    }
    assert IsPath(g, r, x, z);
  }

  ghost predicate Closed(g: Digraph, s: set<Node>) {
    forall x, y {:trigger Edge(g, x, y)} :: x in s && Edge(g, x, y) ==> y in s
  }

  lemma {:induction false} PathStays(g: Digraph, s: set<Node>, p: seq<Node>, x: Node, y: Node)
    requires Closed(g, s) && x in s && IsPath(g, p, x, y)
    ensures y in s
    decreases |p|
  {
    if |p| > 1 {
      assert Edge(g, p[0], p[1]);
      forall i | 0 <= i < |p[1..]| - 1 ensures Edge(g, p[1..][i], p[1..][i + 1]) {
        assert Edge(g, p[i + 1], p[i + 2]);
      }
      assert IsPath(g, p[1..], p[1], y);
      PathStays(g, s, p[1..], p[1], y);
    }
  }

  /** What a closed set reaches is in it. */
  lemma ReachStays(g: Digraph, s: set<Node>, x: Node, y: Node)
    requires Closed(g, s) && x in s && Reach(g, x, y)
    ensures y in s
  {
    var p :| IsPath(g, p, x, y);
    PathStays(g, s, p, x, y);
  }

  /** Two nodes of one strongly connected component. */
  ghost predicate Mutual(g: Digraph, x: Node, y: Node) {
    Reach(g, x, y) && Reach(g, y, x)
  }

  lemma MutualOn(g: Digraph, x: Node, y: Node, z: Node)
    requires Mutual(g, x, y) && Mutual(g, y, z)
    ensures Mutual(g, x, z) && Mutual(g, z, x)
  {
    ReachOn(g, x, y, z);
    ReachOn(g, z, y, x);
  }

  /** No node can be left and come back to. */
  ghost predicate Acyclic(g: Digraph) {
    forall x, y {:trigger Edge(g, x, y)} :: Edge(g, x, y) ==> !Reach(g, y, x)
  }

  ghost predicate NoSelfLoops(g: Digraph) {
    forall x {:trigger Edge(g, x, x)} :: !Edge(g, x, x)
  }

  ghost function ReachSet(g: Digraph, x: Node): set<Node> {
    set y | 0 <= y < |g| && Reach(g, x, y)
  }

  /** In an acyclic graph the number of reachable nodes drops along every edge. */
  lemma AcyclicRank(g: Digraph, x: Node, y: Node)
    requires WellFormed(g) && Acyclic(g) && Edge(g, x, y)
    ensures |ReachSet(g, y)| < |ReachSet(g, x)|
  {
    ReachEdge(g, x, y);
    ReachSelf(g, x);
    forall z | z in ReachSet(g, y) ensures z in ReachSet(g, x) - {x} {
      ReachOn(g, x, y, z);
    }
    Fewer(ReachSet(g, y), ReachSet(g, x) - {x});
  }

  lemma Fewer(a: set<Node>, b: set<Node>)
    requires a <= b
    ensures |a| <= |b|
  {
    assert (b - a) + a == b && (b - a) * a == {};
  }
}
