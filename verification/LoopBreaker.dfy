/** Breaking loops among substitutions: the graph of which variable's target mentions which, rounds of
    loop finding and breaking, and the acyclic part of the substitutions that is left. */
module LoopBreakers {
  import opened Terms
  import opened Digraphs
  import opened Tarjan
  import opened TarjanRuns

  // ---------------------------------------------------------------------------
  // Emptying the child lists of some nodes

  /** Every node is reached from some start node. */
  ghost predicate Covered(g: Digraph, starts: seq<Node>) {
    forall n: Node {:trigger CoveredAt(g, starts, n)} :: n < |g| ==> CoveredAt(g, starts, n)
  }

  ghost predicate CoveredAt(g: Digraph, starts: seq<Node>, n: Node) {
    exists s {:trigger s in starts} :: s in starts && Reach(g, s, n)
  }

  /** A path that passes through emptied nodes can be entered behind the last of them. */
  lemma {:induction false} EnterBehind(g: Digraph, m: Node, p: seq<Node>, x: Node, y: Node) returns (s: Node)
    requires m < |g| && IsPath(g, p, x, y)
    ensures (s == x || s in g[m]) && Reach(g[m := []], s, y)
    decreases |p|
  {
    var h := g[m := []];
    if |p| == 1 {
      s := x;
      ReachSelf(h, x);
    } else {
      assert Edge(g, p[0], p[1]);
      forall i | 0 <= i < |p[1..]| - 1 ensures Edge(g, p[1..][i], p[1..][i + 1]) {
        assert Edge(g, p[i + 1], p[i + 2]);
      }
      assert IsPath(g, p[1..], p[1], y);
      s := EnterBehind(g, m, p[1..], p[1], y);
      if s !in g[m] {
        assert x != m && Edge(h, x, p[1]);
        ReachEdge(h, x, p[1]);
        ReachOn(h, x, p[1], y);
        s := x;
      }
    }
  }

  /** If a node's children become start nodes, emptying its child list leaves everything covered. */
  lemma EmptyingCovers(g: Digraph, starts: seq<Node>, m: Node, starts': seq<Node>)
    requires m < |g| && Covered(g, starts)
    requires forall s {:trigger s in starts} :: s in starts ==> s in starts'
    requires forall s {:trigger s in g[m]} :: s in g[m] ==> s in starts'
    ensures Covered(g[m := []], starts')
  {
    var h := g[m := []];
    forall n: Node | n < |h| ensures CoveredAt(h, starts', n) {
      assert CoveredAt(g, starts, n);
      var s :| s in starts && Reach(g, s, n);
      var p :| IsPath(g, p, s, n);
      var e := EnterBehind(g, m, p, s, n);
      assert e in starts';
    }
  }

  /** A node that reaches another one has a child. */
  lemma HasChild(g: Digraph, x: Node, y: Node)
    requires x != y && Reach(g, x, y)
    ensures x < |g| && g[x] != []
  {
    var p :| IsPath(g, p, x, y);
    assert Edge(g, p[0], p[1]);
  }

  /** Without self-loops and without cycles through two nodes a covered graph is acyclic. */
  lemma NoCyclesAcyclic(g: Digraph)
    requires NoSelfLoops(g) && forall v: Node {:trigger OnCycle(g, v)} :: v < |g| ==> !OnCycle(g, v)
    ensures Acyclic(g)
  {
    forall x: Node, y: Node | Edge(g, x, y) ensures !Reach(g, y, x) {
      assert !OnCycle(g, x);
      ReachEdge(g, x, y);
      assert !Edge(g, x, x);
      assert Reach(g, y, x) ==> Mutual(g, x, y);
    }
  }

  // ---------------------------------------------------------------------------
  // One round

  /** The loops are the components of more than one node among the nodes the start nodes reach. */
  ghost predicate LoopsAre(g: Digraph, starts: seq<Node>, loops: seq<seq<Node>>) {
    && (forall l {:trigger l in loops} :: l in loops ==> Component(g, l) && |l| > 1)
    && (forall s: Node, v: Node {:trigger s in starts, OnCycle(g, v)} :: s in starts && Reach(g, s, v) && OnCycle(g, v) ==> exists l {:trigger l in loops} :: l in loops && v in l)
    && (forall i, j, x {:trigger x in loops[i], x in loops[j]} :: 0 <= i < j < |loops| && x in loops[i] ==> x !in loops[j])
  }

  lemma CompleteIsClosed(g: Digraph, s: Search)
    requires Resting(g, s)
    ensures Closed(g, CompleteNodes(g, s))
  {
    forall x: Node, y: Node | x in CompleteNodes(g, s) && Edge(g, x, y) ensures y in CompleteNodes(g, s) {
      assert ProgressOk(g, s, x);
    }
  }

  lemma SearchedAll(g: Digraph, s: Search, starts: seq<Node>, loops: seq<seq<Node>>)
    requires Resting(g, s) && Found(g, s, {}, loops) && forall x {:trigger x in starts} :: x in starts ==> x in CompleteNodes(g, s)
    ensures LoopsAre(g, starts, loops)
  {
    CompleteIsClosed(g, s);
    forall x: Node, v: Node | x in starts && Reach(g, x, v) && OnCycle(g, v) ensures exists l {:trigger l in loops} :: l in loops && v in l {
      ReachStays(g, CompleteNodes(g, s), x, v);
    }
  }

  /** One search object serves all start nodes. */
  method FindLoops(g: Digraph, startNodes: seq<Node>) returns (loops: seq<seq<Node>>)
    requires WellFormed(g) && forall s {:trigger s in startNodes} :: s in startNodes ==> s < |g|
    ensures LoopsAre(g, startNodes, loops)
  {
    hide Resting, Found, LoopsAre, Reach, OnCycle;
    var tarjan := new TarjanAlgorithm(g);
    loops := [];
    FoundNothing(g, tarjan.Now());
    for i := 0 to |startNodes|
      invariant Resting(g, tarjan.Now()) && Sized(g, tarjan.Now()) && Found(g, tarjan.Now(), {}, loops)
      invariant forall k {:trigger startNodes[k]} :: 0 <= k < i ==> startNodes[k] in CompleteNodes(g, tarjan.Now())
    {
      assert startNodes[i] in startNodes;
      ghost var s := tarjan.Now();
      var more := tarjan.GetLoops(startNodes[i]);
      FoundJoin(g, s, tarjan.Now(), {}, loops, more);
      loops := loops + more;
    }
    forall x | x in startNodes ensures x in CompleteNodes(g, tarjan.Now()) {
      var k :| 0 <= k < |startNodes| && startNodes[k] == x;
    }
    SearchedAll(g, tarjan.Now(), startNodes, loops);
  }

  /** How many nodes have children. */
  ghost function Inner(g: Digraph): set<Node> {
    set n | 0 <= n < |g| && g[n] != []
  }

  /** `h` is `g` with the child lists of `swiped` emptied. */
  ghost predicate Swiped(g: Digraph, h: Digraph, swiped: set<Node>) {
    |h| == |g| && forall n: Node {:trigger h[n]} {:trigger g[n]} :: n < |g| ==> h[n] == if n in swiped then [] else g[n]
  }

  /** The last node of each loop loses its children, which become start nodes. */
  method BreakLoops(g: Digraph, loops: seq<seq<Node>>, ghost starts: seq<Node>) returns (h: Digraph, orphans: seq<Node>, swiped: set<Node>)
    requires WellFormed(g) && LoopsAre(g, starts, loops) && Covered(g, starts)
    ensures Swiped(g, h, swiped) && WellFormed(h) && Covered(h, starts + orphans) && forall s {:trigger s in orphans} :: s in orphans ==> s < |g|
    ensures forall n {:trigger n in swiped} :: n in swiped ==> n < |g| && OnCycle(g, n)
    ensures loops != [] ==> Inner(h) < Inner(g)
  {
    hide Reach, Component, OnCycle, Covered, LoopsAre;
    h, orphans, swiped := g, [], {};
    assert starts + orphans == starts;
    for i := 0 to |loops|
      invariant Swiped(g, h, swiped) && Covered(h, starts + orphans) && forall s {:trigger s in orphans} :: s in orphans ==> s < |g|
      invariant forall n {:trigger n in swiped} :: n in swiped ==> n < |g| && OnCycle(g, n)
      invariant i == 0 ==> h == g
      invariant i > 0 ==> Inner(h) < Inner(g)
    {
      LastHasChild(g, loops, starts, i);
      var loop := loops[i];
      var last := loop[|loop| - 1];
      assert Inner(h[last := []]) == Inner(h) - {last} && (i == 0 ==> last in Inner(g));
      var orphans' := orphans + h[last];
      EmptyingCovers(h, starts + orphans, last, starts + orphans');
      h, orphans, swiped := h[last := []], orphans', swiped + {last};
    }
  }

  lemma LastHasChild(g: Digraph, loops: seq<seq<Node>>, starts: seq<Node>, i: nat)
    requires LoopsAre(g, starts, loops) && i < |loops|
    ensures var l := loops[i]; |l| > 1 && l[|l| - 1] < |g| && g[l[|l| - 1]] != [] && OnCycle(g, l[|l| - 1])
  {
    var l := loops[i];
    assert l in loops;
    assert l[|l| - 1] in l && l[0] in l && l[0] != l[|l| - 1];
    assert Mutual(g, l[|l| - 1], l[0]);
    HasChild(g, l[|l| - 1], l[0]);
  }

  // ---------------------------------------------------------------------------
  // The graph of a substitution

  /** A candidate substitution; disabled ones are ignored. */
  datatype Subst = Subst(key: Term, target: Term, enabled: bool)

  ghost predicate DistinctKeys(substs: seq<Subst>) {
    forall i, j :: 0 <= i < j < |substs| ==> substs[i].key != substs[j].key
  }

  /** The variables of a term, each once. */
  ghost predicate VarsAre(t: Term, vars: seq<Term>) {
    && (forall i, j :: 0 <= i < j < |vars| ==> vars[i] != vars[j])
    && forall x {:trigger x in vars} :: x in vars <==> x in Subterms(t) && x.Var?
  }

  /** Each term has one node. */
  ghost predicate Numbered(nodes: seq<Term>, number: map<Term, Node>) {
    && (forall n: Node {:trigger nodes[n]} :: n < |nodes| ==> nodes[n] in number && number[nodes[n]] == n)
    && (forall t {:trigger number[t]} :: t in number ==> number[t] < |nodes| && nodes[number[t]] == t)
  }

  /** The finished graph: the first nodes are the keys, a key's children are its target's variables, and
      other nodes have none. */
  ghost predicate GraphOf(keys: seq<Subst>, nodes: seq<Term>, g: Digraph) {
    && |g| == |nodes| && |keys| <= |nodes| && WellFormed(g)
    && (forall i, j :: 0 <= i < j < |nodes| ==> nodes[i] != nodes[j])
    && (forall i {:trigger keys[i]} :: 0 <= i < |keys| ==> nodes[i] == keys[i].key)
    && (forall i, v: Term {:trigger HasVarChild(nodes, g, i, v)} :: 0 <= i < |keys| ==> (HasVarChild(nodes, g, i, v) <==> v in Subterms(keys[i].target) && v.Var?))
    && (forall i: Node {:trigger g[i]} :: |keys| <= i < |nodes| ==> g[i] == [])
  }

  ghost predicate HasVarChild(nodes: seq<Term>, g: Digraph, i: Node, v: Term) {
    i < |g| && exists c: Node {:trigger c in g[i]} :: c in g[i] && c < |nodes| && nodes[c] == v
  }
}
