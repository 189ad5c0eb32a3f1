/** The path condition of every leaf of an annotated graph, computed from the leaves upwards. The walk
    never looks up a condition that is not there yet, because nodes are allocated before their parents. */
module PathConditions {
  import opened Terms
  import opened IteDags

  /** The pairs list every leaf under `root` once, and in any model the conditions select one of them:
      the one the model ends up at. */
  ghost predicate Separates(arena: seq<Node>, nodes: map<Term, NodeRef>, root: NodeRef, switches: seq<CondValPair>, refs: seq<NodeRef>)
    requires Built(arena, nodes) && root < |arena|
  {
    && |switches| == |refs|
    && (forall i, j :: 0 <= i < j < |refs| ==> refs[i] != refs[j])
    && (forall n: NodeRef {:trigger n in refs} :: n in refs <==> n in Below(arena, nodes, root) && n < |arena| && arena[n].Leaf?)
    && (forall j {:trigger switches[j]} :: 0 <= j < |refs| ==> refs[j] < |arena| && switches[j].val == arena[refs[j]].term)
    && (forall m: Model, j {:trigger Holds(m, switches[j].cond)} :: 0 <= j < |refs| ==>
          (Holds(m, switches[j].cond) <==> Final(arena, nodes, m, root) == refs[j]))
  }

  // ---------------------------------------------------------------------------
  // One path condition

  function EdgeTerm(arena: seq<Node>, conds: map<NodeRef, Term>, e: Edge): Term
    requires e.parent < |arena| && arena[e.parent].Inner? && e.parent in conds
  {
    And([conds[e.parent], if e.polarity then arena[e.parent].cond else Not(arena[e.parent].cond)])
  }

  /** `t` holds in a model exactly if the model passes through `n`. */
  ghost predicate IsCondition(arena: seq<Node>, nodes: map<Term, NodeRef>, root: NodeRef, n: NodeRef, t: Term)
    requires Built(arena, nodes) && root < |arena|
  {
    forall m: Model {:trigger Holds(m, t)} :: Holds(m, t) <==> OnPath(arena, nodes, m, root, n)
  }

  ghost predicate AllConditions(arena: seq<Node>, nodes: map<Term, NodeRef>, root: NodeRef, conds: map<NodeRef, Term>)
    requires Built(arena, nodes) && root < |arena|
  {
    forall n: NodeRef {:trigger conds[n]} :: n in conds ==> IsCondition(arena, nodes, root, n, conds[n])
  }

  lemma EdgeTermHolds(arena: seq<Node>, conds: map<NodeRef, Term>, e: Edge, m: Model)
    requires e.parent < |arena| && arena[e.parent].Inner? && e.parent in conds
    ensures Holds(m, EdgeTerm(arena, conds, e)) <==> Holds(m, conds[e.parent]) && Taken(arena, m, e)
  {
    var c := arena[e.parent].cond;
    OpsHold(m, c, c);
    var edge := if e.polarity then c else Not(c);
    AndHolds(m, [conds[e.parent], edge]);
    assert conds[e.parent] in [conds[e.parent], edge] && edge in [conds[e.parent], edge];
  }

  /** The edges of a node are known, and so are the conditions of their sources. */
  ghost predicate EdgesReady(arena: seq<Node>, nodes: map<Term, NodeRef>, root: NodeRef, n: NodeRef, es: seq<Edge>, conds: map<NodeRef, Term>)
    requires Built(arena, nodes) && root < |arena|
  {
    && (forall e: Edge {:trigger e in es} :: e in es <==> e.parent in Below(arena, nodes, root) && IsEdge(arena, e, n))
    && (forall e: Edge {:trigger e in es} :: e in es ==> e.parent in conds)
  }

  lemma DisjunctionIsCondition(arena: seq<Node>, nodes: map<Term, NodeRef>, root: NodeRef, n: NodeRef, es: seq<Edge>,
                               conds: map<NodeRef, Term>, args: seq<Term>)
    requires Built(arena, nodes) && root < |arena| && n != root
    requires AllConditions(arena, nodes, root, conds) && EdgesReady(arena, nodes, root, n, es, conds)
    requires |args| == |es| && forall i {:trigger args[i]} :: 0 <= i < |es| ==> es[i] in es && args[i] == EdgeTerm(arena, conds, es[i])
    ensures IsCondition(arena, nodes, root, n, Or(args))
  {
    hide Built, Below, EdgeTerm;
    forall m: Model ensures Holds(m, Or(args)) <==> OnPath(arena, nodes, m, root, n) {
      OrHolds(m, args);
      if Holds(m, Or(args)) {
        var t :| t in args && Holds(m, t);
        var i :| 0 <= i < |args| && args[i] == t;
        EdgeTermHolds(arena, conds, es[i], m);
        assert IsCondition(arena, nodes, root, es[i].parent, conds[es[i].parent]);
        EdgeLeadsOn(arena, nodes, m, root, es[i], n);
      }
      if OnPath(arena, nodes, m, root, n) {
        var e := ReachedByEdge(arena, nodes, m, root, n);
        assert e in es;
        var i :| 0 <= i < |es| && es[i] == e;
        EdgeTermHolds(arena, conds, e, m);
        assert IsCondition(arena, nodes, root, e.parent, conds[e.parent]);
        assert args[i] in args;
      }
    }
  }

  /** The root has no incoming edge, and every model starts there. */
  lemma RootIsCondition(arena: seq<Node>, nodes: map<Term, NodeRef>, root: NodeRef)
    requires Built(arena, nodes) && root < |arena|
    ensures IsCondition(arena, nodes, root, root, Or([True()]))
    ensures forall e: Edge {:trigger IsEdge(arena, e, root)} :: IsEdge(arena, e, root) ==> e.parent !in Below(arena, nodes, root)
  {
    forall m: Model ensures Holds(m, Or([True()])) {
      OrHolds(m, [True()]);
      OpsHold(m, True(), True());
      assert True() in [True()];
    }
    forall e: Edge | IsEdge(arena, e, root) ensures e.parent !in Below(arena, nodes, root) {
      assert Placed(arena, e.parent);
    }
  }

  lemma RootHasNoEdges(arena: seq<Node>, nodes: map<Term, NodeRef>, root: NodeRef, el: NodeRef, es: seq<Edge>, conds: map<NodeRef, Term>)
    requires Built(arena, nodes) && root < |arena| && EdgesReady(arena, nodes, root, el, es, conds)
    ensures el == root ==> es == []
  {
    RootIsCondition(arena, nodes, root);
    assert es != [] ==> es[0] in es;
  }

  /** Disjoins the incoming edges of a node whose parents are done. */
  method PathCondition(dag: Dag, ghost root: NodeRef, el: NodeRef, es: seq<Edge>, conds: map<NodeRef, Term>) returns (pathCondition: Term)
    requires dag.Valid() && root < |dag.arena| && el < |dag.arena|
    requires AllConditions(dag.arena, dag.nodes, root, conds) && EdgesReady(dag.arena, dag.nodes, root, el, es, conds)
    requires el == root || es != []
    ensures IsCondition(dag.arena, dag.nodes, root, el, pathCondition)
  {
    hide Built, Below, IsCondition, AllConditions;
    ghost var arena, nodes := dag.arena, dag.nodes;
    RootIsCondition(arena, nodes, root);
    RootHasNoEdges(arena, nodes, root, el, es, conds);
    var parentConditions: seq<Term> := [];
    if es == [] {
      parentConditions := parentConditions + [True()];
      assert parentConditions == [True()];
    } else {
      for i := 0 to |es|
        invariant |parentConditions| == i
        invariant forall k {:trigger parentConditions[k]} :: 0 <= k < i ==> es[k] in es && parentConditions[k] == EdgeTerm(arena, conds, es[k])
      {
        assert es[i] in es;
        var cond := dag.arena[es[i].parent].cond;
        var edgeCondition := if es[i].polarity then cond else Not(cond);
        parentConditions := parentConditions + [And([conds[es[i].parent], edgeCondition])];
      }
      DisjunctionIsCondition(arena, nodes, root, el, es, conds, parentConditions);
    }
    pathCondition := Or(parentConditions);
  }

  // ---------------------------------------------------------------------------
  // The climb

  /** The stack is a list of leaves still to do below a list of inner nodes that were pushed as
      someone's parents. The inner nodes are in allocation order, so nothing on the stack waits for a
      node further down. */
  ghost predicate Climbing(arena: seq<Node>, below: set<NodeRef>, leaves: set<NodeRef>, waiting: seq<NodeRef>, grays: seq<NodeRef>,
                           flag: seq<Mark>, done: set<NodeRef>) {
    && |flag| == |arena| && done <= below
    && (forall n: NodeRef {:trigger n in below} :: n in below ==> n < |arena|)
    && (forall n: NodeRef {:trigger n in grays} :: n in grays ==> n in below && n < |arena| && arena[n].Inner? && flag[n] != White)
    && (forall i, j :: 0 <= i < j < |grays| ==> grays[i] < grays[j])
    && (forall n: NodeRef {:trigger flag[n]} :: n in below && n < |arena| ==> (flag[n] == Black <==> n in done) && (flag[n] == Gray ==> n in grays))
    && (forall n: NodeRef {:trigger n in waiting} :: n in waiting ==> n in leaves)
    && (forall n: NodeRef {:trigger n in leaves} :: n in leaves ==> n in below && n < |arena| && arena[n].Leaf? && (n in done || n in waiting))
  }

  /** The incoming edges of a node, in allocation order of their sources. */
  ghost predicate EdgesOf(arena: seq<Node>, below: set<NodeRef>, n: NodeRef, es: seq<Edge>) {
    && SortedEdges(es)
    && forall e: Edge {:trigger e in es} :: e in es <==> e.parent in below && IsEdge(arena, e, n)
  }

  /** What one visit pushes: the white parents in order, now gray. */
  ghost predicate PushedParents(es: seq<Edge>, flag: seq<Mark>, flag': seq<Mark>, pushed: seq<NodeRef>) {
    && |flag'| == |flag|
    && (forall i, j :: 0 <= i < j < |pushed| ==> pushed[i] < pushed[j])
    && (forall x: NodeRef {:trigger x in pushed} :: x in pushed ==> x < |flag| && flag[x] == White && exists e: Edge :: e in es && e.parent == x)
    && (forall x: NodeRef {:trigger flag'[x]} :: x < |flag| ==> flag'[x] == if x in pushed then Gray else flag[x])
    && (forall e: Edge {:trigger e in es} :: e in es && e.parent < |flag| ==> flag'[e.parent] != White)
  }

  method PushWhiteParents(es: seq<Edge>, flag: seq<Mark>) returns (flag': seq<Mark>, pushed: seq<NodeRef>)
    requires SortedEdges(es) && forall e: Edge {:trigger e in es} :: e in es ==> e.parent < |flag|
    ensures PushedParents(es, flag, flag', pushed)
  {
    flag', pushed := flag, [];
    for i := 0 to |es|
      invariant PushedParents(es[..i], flag, flag', pushed)
    {
      assert es[..i + 1] == es[..i] + [es[i]];
      var parent := es[i].parent;
      assert es[i] in es;
      PushOne(es, i, flag, flag', pushed);
      if flag'[parent] == White {
        flag' := flag'[parent := Gray];
        pushed := pushed + [parent];
      }
    }
    assert es[..|es|] == es;
  }

  /** One more parent in order: it comes after those pushed. */
  lemma PushOne(es: seq<Edge>, i: nat, flag: seq<Mark>, flag': seq<Mark>, pushed: seq<NodeRef>)
    requires SortedEdges(es) && i < |es| && es[i].parent < |flag| && PushedParents(es[..i], flag, flag', pushed)
    ensures var parent := es[i].parent;
            if flag'[parent] == White then PushedParents(es[..i + 1], flag, flag'[parent := Gray], pushed + [parent])
            else PushedParents(es[..i + 1], flag, flag', pushed)
  {
    var parent := es[i].parent;
    assert es[..i + 1] == es[..i] + [es[i]];
    assert es[i] in es[..i + 1];
    assert forall e: Edge {:trigger e in es[..i]} :: e in es[..i] ==> e in es[..i + 1];
    forall x: NodeRef | x in pushed ensures x <= parent {
      var e: Edge :| e in es[..i] && e.parent == x;
      var k :| 0 <= k < i && es[k] == e;
      assert EdgeLess(es[k], es[i]);
    }
    if flag'[parent] == White {
      forall k | 0 <= k < |pushed| ensures pushed[k] < parent {
        assert pushed[k] in pushed && flag'[pushed[k]] == Gray;
      }
    }
  }

  /** The node on top of the stack. */
  function TopRef(waiting: seq<NodeRef>, grays: seq<NodeRef>): NodeRef
    requires waiting + grays != []
  {
    if grays != [] then grays[|grays| - 1] else waiting[|waiting| - 1]
  }

  function PopWaiting(waiting: seq<NodeRef>, grays: seq<NodeRef>): seq<NodeRef>
    requires waiting + grays != []
  {
    if grays != [] then waiting else waiting[..|waiting| - 1]
  }

  function PopGrays(grays: seq<NodeRef>): seq<NodeRef> {
    if grays != [] then grays[..|grays| - 1] else []
  }

  lemma PopBoth(waiting: seq<NodeRef>, grays: seq<NodeRef>)
    requires waiting + grays != []
    ensures var queue := waiting + grays;
            queue[|queue| - 1] == TopRef(waiting, grays) && queue[..|queue| - 1] == PopWaiting(waiting, grays) + PopGrays(grays)
    ensures forall n: NodeRef {:trigger n in PopWaiting(waiting, grays)} :: n in PopWaiting(waiting, grays) ==> n in waiting
    ensures forall n: NodeRef {:trigger n in waiting} :: n in waiting ==> n in PopWaiting(waiting, grays) || n == TopRef(waiting, grays)
    ensures forall n: NodeRef {:trigger n in PopGrays(grays)} :: n in PopGrays(grays) ==> n in grays
    ensures forall n: NodeRef {:trigger n in grays} :: n in grays ==> n in PopGrays(grays) || n == TopRef(waiting, grays)
    ensures grays != [] ==> TopRef(waiting, grays) in grays
    ensures grays == [] ==> TopRef(waiting, grays) in waiting
  {
    if grays != [] {
      assert grays == grays[..|grays| - 1] + [grays[|grays| - 1]];
    } else {
      assert waiting == waiting[..|waiting| - 1] + [waiting[|waiting| - 1]];
    }
  }

  lemma ClimbTop(arena: seq<Node>, below: set<NodeRef>, leaves: set<NodeRef>, waiting: seq<NodeRef>, grays: seq<NodeRef>,
                 flag: seq<Mark>, done: set<NodeRef>)
    requires Climbing(arena, below, leaves, waiting, grays, flag, done) && waiting + grays != []
    ensures var el := TopRef(waiting, grays);
            el in below && el < |arena| == |flag| && (flag[el] == Black <==> el in done) && (arena[el].Leaf? ==> el in leaves)
  {
    PopBoth(waiting, grays);
    var x := flag[TopRef(waiting, grays)];
  }

  /** Dropping a node that is done. */
  lemma ClimbPop(arena: seq<Node>, below: set<NodeRef>, leaves: set<NodeRef>, waiting: seq<NodeRef>, grays: seq<NodeRef>,
                 flag: seq<Mark>, done: set<NodeRef>)
    requires Climbing(arena, below, leaves, waiting, grays, flag, done) && waiting + grays != [] && TopRef(waiting, grays) in done
    ensures Climbing(arena, below, leaves, PopWaiting(waiting, grays), PopGrays(grays), flag, done)
  {
    PopBoth(waiting, grays);
  }

  /** Pushing the white parents of the top node keeps the inner nodes in allocation order. */
  lemma ClimbPush(arena: seq<Node>, below: set<NodeRef>, leaves: set<NodeRef>, waiting: seq<NodeRef>, grays: seq<NodeRef>,
                  flag: seq<Mark>, done: set<NodeRef>, es: seq<Edge>, flag': seq<Mark>, pushed: seq<NodeRef>)
    requires Climbing(arena, below, leaves, waiting, grays, flag, done) && waiting + grays != []
    requires forall n: NodeRef {:trigger Placed(arena, n)} :: n in below ==> Placed(arena, n)
    requires EdgesOf(arena, below, TopRef(waiting, grays), es) && PushedParents(es, flag, flag', pushed)
    ensures Climbing(arena, below, leaves, waiting, grays + pushed, flag', done)
  {
    var el := TopRef(waiting, grays);
    PopBoth(waiting, grays);
    forall x: NodeRef | x in pushed ensures x in below && x < |arena| && arena[x].Inner? && flag'[x] == Gray && flag[x] == White && el < x {
      var e: Edge :| e in es && e.parent == x;
      assert Placed(arena, x);
    }
    forall i, j | 0 <= i < j < |grays + pushed| ensures (grays + pushed)[i] < (grays + pushed)[j] {
      if i < |grays| <= j {
        assert pushed[j - |grays|] in pushed;
        assert grays[i] <= el;
      }
    }
  }

  /** Every parent of a top node without white parents is done: a gray one would lie above it. */
  lemma ParentsDone(arena: seq<Node>, below: set<NodeRef>, leaves: set<NodeRef>, waiting: seq<NodeRef>, grays: seq<NodeRef>,
                    flag: seq<Mark>, done: set<NodeRef>, es: seq<Edge>, flag': seq<Mark>, e: Edge)
    requires Climbing(arena, below, leaves, waiting, grays, flag, done) && waiting + grays != []
    requires forall n: NodeRef {:trigger Placed(arena, n)} :: n in below ==> Placed(arena, n)
    requires EdgesOf(arena, below, TopRef(waiting, grays), es) && PushedParents(es, flag, flag', []) && e in es
    ensures e.parent in done
  {
    var el := TopRef(waiting, grays);
    PopBoth(waiting, grays);
    assert Placed(arena, e.parent);
    assert flag'[e.parent] == flag[e.parent];
    forall i | 0 <= i < |grays| ensures grays[i] != e.parent {
      assert grays[i] <= el < e.parent;
    }
  }

  /** Finishing the top node. */
  lemma ClimbFinish(arena: seq<Node>, below: set<NodeRef>, leaves: set<NodeRef>, waiting: seq<NodeRef>, grays: seq<NodeRef>,
                    flag: seq<Mark>, done: set<NodeRef>)
    requires Climbing(arena, below, leaves, waiting, grays, flag, done) && waiting + grays != []
    requires TopRef(waiting, grays) < |flag|
    ensures var el := TopRef(waiting, grays);
            Climbing(arena, below, leaves, PopWaiting(waiting, grays), PopGrays(grays), flag[el := Black], done + {el})
  {
    PopBoth(waiting, grays);
    ClimbTop(arena, below, leaves, waiting, grays, flag, done);
  }

  ghost function Unfinished(below: set<NodeRef>, flag: seq<Mark>): set<NodeRef> {
    set n | n in below && n < |flag| && flag[n] != Black
  }

  ghost function Whites(below: set<NodeRef>, flag: seq<Mark>): set<NodeRef> {
    set n | n in below && n < |flag| && flag[n] == White
  }

  lemma ClimbShrinks(below: set<NodeRef>, flag: seq<Mark>, el: NodeRef, flag': seq<Mark>, es: seq<Edge>, pushed: seq<NodeRef>)
    requires el in below && el < |flag| && flag[el] != Black && PushedParents(es, flag, flag', pushed)
    requires forall x: NodeRef {:trigger x in pushed} :: x in pushed ==> x in below
    ensures |Unfinished(below, flag[el := Black])| < |Unfinished(below, flag)|
    ensures Unfinished(below, flag') == Unfinished(below, flag)
    ensures pushed != [] ==> |Whites(below, flag')| < |Whites(below, flag)|
  {
    assert Unfinished(below, flag[el := Black]) == Unfinished(below, flag) - {el};
    if pushed != [] {
      assert pushed[0] in pushed;
      assert Whites(below, flag') <= Whites(below, flag) - {pushed[0]};
      SubsetSize(Whites(below, flag'), Whites(below, flag) - {pushed[0]});
    }
  }

  lemma SubsetSize(a: set<NodeRef>, b: set<NodeRef>)
    requires a <= b
    ensures |a| <= |b|
  {
    assert |b - a| + |a| == |b| by { assert (b - a) + a == b && (b - a) * a == {}; }
  }

  // ---------------------------------------------------------------------------
  // The result so far

  ghost predicate LeavesListed(arena: seq<Node>, leaves: set<NodeRef>, conds: map<NodeRef, Term>, switches: seq<CondValPair>, refs: seq<NodeRef>) {
    && |switches| == |refs|
    && (forall i, j :: 0 <= i < j < |refs| ==> refs[i] != refs[j])
    && (forall n: NodeRef {:trigger n in refs} :: n in refs <==> n in leaves && n in conds)
    && (forall j {:trigger switches[j]} {:trigger refs[j]} :: 0 <= j < |refs| ==>
          refs[j] in conds && refs[j] < |arena| && switches[j] == CondValPair(conds[refs[j]], arena[refs[j]].term))
  }

  lemma ListLeaf(arena: seq<Node>, leaves: set<NodeRef>, conds: map<NodeRef, Term>, switches: seq<CondValPair>, refs: seq<NodeRef>,
                 el: NodeRef, t: Term)
    requires LeavesListed(arena, leaves, conds, switches, refs) && el !in conds && el < |arena|
    ensures el in leaves ==> LeavesListed(arena, leaves, conds[el := t], switches + [CondValPair(t, arena[el].term)], refs + [el])
    ensures el !in leaves ==> LeavesListed(arena, leaves, conds[el := t], switches, refs)
  {
    var refs' := refs + [el];
    assert el !in refs;
    forall n: NodeRef ensures n in refs' <==> n in refs || n == el {
    }
    forall i, j | 0 <= i < j < |refs'| ensures refs'[i] != refs'[j] {
      assert refs[i] in refs;
    }
  }

  lemma Settle(arena: seq<Node>, nodes: map<Term, NodeRef>, root: NodeRef, leaves: set<NodeRef>, flag: seq<Mark>,
               conds: map<NodeRef, Term>, switches: seq<CondValPair>, refs: seq<NodeRef>)
    requires Built(arena, nodes) && root < |arena|
    requires Climbing(arena, Below(arena, nodes, root), leaves, [], [], flag, conds.Keys)
    requires forall n: NodeRef {:trigger n in leaves} :: n in leaves <==> n in Below(arena, nodes, root) && n < |arena| && arena[n].Leaf?
    requires AllConditions(arena, nodes, root, conds) && LeavesListed(arena, leaves, conds, switches, refs)
    ensures Separates(arena, nodes, root, switches, refs)
  {
    hide Built;
    forall n: NodeRef ensures n in refs <==> n in Below(arena, nodes, root) && n < |arena| && arena[n].Leaf? {
      assert n in leaves ==> n in conds.Keys;
    }
    forall j | 0 <= j < |refs| ensures refs[j] < |arena| && switches[j].val == arena[refs[j]].term {
      assert refs[j] in refs;
    }
    forall m: Model, j | 0 <= j < |refs|
      ensures Holds(m, switches[j].cond) <==> Final(arena, nodes, m, root) == refs[j]
    {
      assert refs[j] in refs;
      assert IsCondition(arena, nodes, root, refs[j], conds[refs[j]]);
      OneLeaf(arena, nodes, m, root, refs[j]);
    }
  }

  // ---------------------------------------------------------------------------
  // The walk

  predicate IsLeast(s: set<NodeRef>, n: NodeRef) {
    n in s && forall k: NodeRef :: k in s ==> n <= k
  }

  /** A finite set of references in increasing order. */
  method SortedRefs(s: set<NodeRef>) returns (refs: seq<NodeRef>)
    ensures forall n: NodeRef {:trigger n in refs} :: n in refs <==> n in s
    ensures forall i, j :: 0 <= i < j < |refs| ==> refs[i] < refs[j]
  {
    refs := [];
    var rest := s;
    while rest != {}
      invariant forall n: NodeRef {:trigger n in refs} {:trigger n in rest} :: n in s <==> n in refs || n in rest
      invariant rest <= s && forall i, j :: 0 <= i < j < |refs| ==> refs[i] < refs[j]
      invariant forall i, n: NodeRef {:trigger refs[i], n in rest} :: 0 <= i < |refs| && n in rest ==> refs[i] < n
      decreases |rest|
    {
      SomeLeast(rest);
      var n: NodeRef :| IsLeast(rest, n);
      refs := refs + [n];
      rest := rest - {n};
    }
  }

  lemma {:induction false} SomeLeast(s: set<NodeRef>)
    requires s != {}
    ensures exists n: NodeRef {:trigger IsLeast(s, n)} :: IsLeast(s, n)
    decreases |s|
  {
    var x: NodeRef :| x in s;
    if s == {x} {
      assert IsLeast(s, x);
    } else {
      SomeLeast(s - {x});
      var y: NodeRef :| IsLeast(s - {x}, y);
      forall k: NodeRef | k in s ensures x <= k || y <= k {
        assert k != x ==> k in s - {x};
      }
      assert IsLeast(s, if x < y then x else y);
    }
  }

  lemma EdgesFound(arena: seq<Node>, nodes: map<Term, NodeRef>, root: NodeRef, parents: map<NodeRef, seq<Edge>>, leaves: set<NodeRef>, n: NodeRef)
    requires Built(arena, nodes) && root < |arena| && n in Below(arena, nodes, root)
    requires Annotated(arena, root, Below(arena, nodes, root), parents, leaves)
    ensures n in parents && EdgesOf(arena, Below(arena, nodes, root), n, parents[n]) && (n == root || parents[n] != [])
  {
    hide Built;
    assert AnnotatedAt(arena, root, Below(arena, nodes, root), parents, n);
    if n != root {
      var e := ParentBelow(arena, nodes, root, n);
      assert IsEdge(arena, e, n);
      assert e in parents[n];
    }
  }

  /** A node under the root, other than the root, has a parent under the root. */
  lemma {:induction false} ParentBelow(arena: seq<Node>, nodes: map<Term, NodeRef>, root: NodeRef, n: NodeRef) returns (e: Edge)
    requires Built(arena, nodes) && root < |arena| && n in Below(arena, nodes, root) && n != root
    ensures e.parent in Below(arena, nodes, root) && IsEdge(arena, e, n)
    decreases root
  {
    PlacedAt(arena, nodes, root);
    hide Built;
    var t, f := arena[root].trueChild, arena[root].falseChild;
    if n == t {
      e := Edge(root, true);
    } else if n == f {
      e := Edge(root, false);
    } else if n in Below(arena, nodes, t) {
      e := ParentBelow(arena, nodes, t, n);
    } else {
      e := ParentBelow(arena, nodes, f, n);
    }
  }

  lemma BelowPlaced(arena: seq<Node>, nodes: map<Term, NodeRef>, root: NodeRef)
    requires Built(arena, nodes) && root < |arena|
    ensures forall n: NodeRef {:trigger n in Below(arena, nodes, root)} :: n in Below(arena, nodes, root) ==> n < |arena|
    ensures forall n: NodeRef {:trigger Placed(arena, n)} :: n in Below(arena, nodes, root) ==> Placed(arena, n)
  {
    forall n: NodeRef | n in Below(arena, nodes, root) ensures n < |arena| && Placed(arena, n) {
      BelowClosed(arena, nodes, root, n);
    }
  }

  lemma ClimbStart(arena: seq<Node>, nodes: map<Term, NodeRef>, root: NodeRef, parents: map<NodeRef, seq<Edge>>, leaves: set<NodeRef>, waiting: seq<NodeRef>)
    requires Built(arena, nodes) && root < |arena|
    requires Annotated(arena, root, Below(arena, nodes, root), parents, leaves)
    requires forall n: NodeRef {:trigger n in waiting} :: n in waiting <==> n in leaves
    ensures Climbing(arena, Below(arena, nodes, root), leaves, waiting, [], seq(|arena|, i => White), {})
    ensures AllConditions(arena, nodes, root, map[]) && LeavesListed(arena, leaves, map[], [], [])
    ensures forall n: NodeRef {:trigger n in leaves} :: n in leaves <==> n in Below(arena, nodes, root) && n < |arena| && arena[n].Leaf?
  {
    BelowPlaced(arena, nodes, root);
  }

  lemma ReadyFromDone(arena: seq<Node>, nodes: map<Term, NodeRef>, root: NodeRef, leaves: set<NodeRef>, waiting: seq<NodeRef>, grays: seq<NodeRef>,
                      flag: seq<Mark>, es: seq<Edge>, flag': seq<Mark>, conds: map<NodeRef, Term>)
    requires Built(arena, nodes) && root < |arena| && waiting + grays != []
    requires Climbing(arena, Below(arena, nodes, root), leaves, waiting, grays, flag, conds.Keys)
    requires EdgesOf(arena, Below(arena, nodes, root), TopRef(waiting, grays), es) && PushedParents(es, flag, flag', [])
    ensures EdgesReady(arena, nodes, root, TopRef(waiting, grays), es, conds)
  {
    hide Climbing, PushedParents, Built;
    BelowPlaced(arena, nodes, root);
    forall e: Edge | e in es ensures e.parent in conds {
      ParentsDone(arena, Below(arena, nodes, root), leaves, waiting, grays, flag, conds.Keys, es, flag', e);
    }
  }

  lemma AddCondition(arena: seq<Node>, nodes: map<Term, NodeRef>, root: NodeRef, conds: map<NodeRef, Term>, n: NodeRef, t: Term)
    requires Built(arena, nodes) && root < |arena| && AllConditions(arena, nodes, root, conds) && IsCondition(arena, nodes, root, n, t)
    ensures AllConditions(arena, nodes, root, conds[n := t])
  {
  }

  /** From the leaves up: a node waits on the stack until the conditions of its parents are there. */
  method GetCondValPairs(dag: Dag, ghost root: NodeRef) returns (switches: seq<CondValPair>, ghost refs: seq<NodeRef>)
    requires dag.Valid() && root < |dag.arena|
    requires Annotated(dag.arena, root, Below(dag.arena, dag.nodes, root), dag.parents, dag.leaves)
    ensures Separates(dag.arena, dag.nodes, root, switches, refs)
  {
    hide Built, Placed, Below, IsCondition, AllConditions, Annotated, Climbing, Whites, Unfinished, Separates, LeavesListed, PushedParents, EdgesOf, EdgesReady;
    ghost var arena, nodes, leaves := dag.arena, dag.nodes, dag.leaves;
    ghost var below := Below(arena, nodes, root);
    ghost var waiting, grays: seq<NodeRef>;
    var queue := SortedRefs(dag.leaves);
    waiting, grays := queue, [];
    var flag := seq(|dag.arena|, i => White);
    var conds: map<NodeRef, Term> := map[];
    switches, refs := [], [];
    BelowPlaced(arena, nodes, root);
    ClimbStart(arena, nodes, root, dag.parents, leaves, waiting);
    assert conds.Keys == {};
    while queue != []
      invariant queue == waiting + grays && |flag| == |arena|
      invariant Climbing(arena, below, leaves, waiting, grays, flag, conds.Keys)
      invariant AllConditions(arena, nodes, root, conds) && LeavesListed(arena, leaves, conds, switches, refs)
      decreases |Unfinished(below, flag)|, |Whites(below, flag)|, |queue|
    {
      var el := queue[|queue| - 1];
      PopBoth(waiting, grays);
      ClimbTop(arena, below, leaves, waiting, grays, flag, conds.Keys);
      if flag[el] == Black {
        ClimbPop(arena, below, leaves, waiting, grays, flag, conds.Keys);
        queue := queue[..|queue| - 1];
        waiting, grays := PopWaiting(waiting, grays), PopGrays(grays);
        continue;
      }
      EdgesFound(arena, nodes, root, dag.parents, leaves, el);
      EdgesInRange(arena, nodes, root, el, dag.parents[el]);
      var flag', pushed := PushWhiteParents(dag.parents[el], flag);
      PushedBelow(arena, below, el, dag.parents[el], flag, flag', pushed);
      ClimbShrinks(below, flag, el, flag', dag.parents[el], pushed);
      if pushed != [] {
        ClimbPush(arena, below, leaves, waiting, grays, flag, conds.Keys, dag.parents[el], flag', pushed);
        assert queue + pushed == waiting + (grays + pushed);
        queue, flag := queue + pushed, flag';
        grays := grays + pushed;
        continue;
      }
      ReadyFromDone(arena, nodes, root, leaves, waiting, grays, flag, dag.parents[el], flag', conds);
      var pathCondition := PathCondition(dag, root, el, dag.parents[el], conds);
      ClimbFinish(arena, below, leaves, waiting, grays, flag, conds.Keys);
      flag := flag[el := Black];
      queue := queue[..|queue| - 1];
      waiting, grays := PopWaiting(waiting, grays), PopGrays(grays);
      AddCondition(arena, nodes, root, conds, el, pathCondition);
      ListLeaf(arena, leaves, conds, switches, refs, el, pathCondition);
      assert conds[el := pathCondition].Keys == conds.Keys + {el};
      conds := conds[el := pathCondition];
      if dag.arena[el].Leaf? {
        switches, refs := switches + [CondValPair(pathCondition, dag.arena[el].term)], refs + [el];
      }
    }
    Settle(arena, nodes, root, leaves, flag, conds, switches, refs);
  }

  lemma EdgesInRange(arena: seq<Node>, nodes: map<Term, NodeRef>, root: NodeRef, n: NodeRef, es: seq<Edge>)
    requires Built(arena, nodes) && root < |arena| && EdgesOf(arena, Below(arena, nodes, root), n, es)
    ensures SortedEdges(es) && forall e: Edge {:trigger e in es} :: e in es ==> e.parent < |arena|
  {
  }

  lemma PushedBelow(arena: seq<Node>, below: set<NodeRef>, n: NodeRef, es: seq<Edge>, flag: seq<Mark>, flag': seq<Mark>, pushed: seq<NodeRef>)
    requires EdgesOf(arena, below, n, es) && PushedParents(es, flag, flag', pushed)
    ensures |flag'| == |flag| && forall x: NodeRef {:trigger x in pushed} :: x in pushed ==> x in below
  {
  }
}
