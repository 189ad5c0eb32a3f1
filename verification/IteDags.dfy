/** The directed acyclic graph of nested if-then-else terms: construction, the annotation of nodes with
    their parents, and the path condition of every leaf. */
module IteDags {
  import opened Terms
  import opened Dfs

  /** Nodes are referred to by the order of their allocation. */
  type NodeRef = nat

  datatype Node =
    | Leaf(term: Term)
    | Inner(term: Term, cond: Term, trueChild: NodeRef, falseChild: NodeRef)

  datatype Edge = Edge(parent: NodeRef, polarity: bool)

  datatype Mark = White | Gray | Black

  datatype CondValPair = CondValPair(cond: Term, val: Term)

  // ---------------------------------------------------------------------------
  // The allocation order

  /** A node's children were allocated before it, and together with its condition they are its term. */
  ghost predicate Placed(arena: seq<Node>, i: NodeRef) {
    i < |arena| &&
    match arena[i]
    case Leaf(term) => !term.Ite?
    case Inner(term, cond, t, f) => t < i && f < i && term == Ite(cond, arena[t].term, arena[f].term)
  }

  ghost predicate Built(arena: seq<Node>, nodes: map<Term, NodeRef>) {
    && (forall i: NodeRef {:trigger Placed(arena, i)} :: i < |arena| ==> Placed(arena, i))
    && (forall i: NodeRef {:trigger arena[i].term} :: i < |arena| ==> arena[i].term in nodes && nodes[arena[i].term] == i)
    && (forall t {:trigger nodes[t]} :: t in nodes ==> nodes[t] < |arena| && arena[nodes[t]].term == t)
  }

  lemma PlacedAt(arena: seq<Node>, nodes: map<Term, NodeRef>, i: NodeRef)
    requires Built(arena, nodes) && i < |arena|
    ensures Placed(arena, i) && arena[i].term in nodes && nodes[arena[i].term] == i
  {
  }

  lemma NodeOf(arena: seq<Node>, nodes: map<Term, NodeRef>, t: Term)
    requires Built(arena, nodes) && t in nodes
    ensures nodes[t] < |arena| && arena[nodes[t]].term == t && Placed(arena, nodes[t]) && (arena[nodes[t]].Inner? <==> t.Ite?)
  {
    assert Placed(arena, nodes[t]);
  }

  /** Allocating one more node. */
  lemma Allocate(arena: seq<Node>, nodes: map<Term, NodeRef>, n: Node)
    requires Built(arena, nodes) && n.term !in nodes && Placed(arena + [n], |arena|)
    ensures Built(arena + [n], nodes[n.term := |arena|])
  {
    var arena' := arena + [n];
    forall i: NodeRef | i < |arena'| ensures Placed(arena', i) {
      if i < |arena| { assert Placed(arena, i); }
    }
  }

  function Succ(arena: seq<Node>): NodeRef -> seq<NodeRef> {
    (i: NodeRef) => if i < |arena| && arena[i].Inner? then [arena[i].falseChild, arena[i].trueChild] else []
  }

  /** The nodes a node leads to. */
  ghost function Below(arena: seq<Node>, nodes: map<Term, NodeRef>, i: NodeRef): (r: set<NodeRef>)
    requires Built(arena, nodes) && i < |arena|
    ensures i in r && forall j: NodeRef {:trigger j in r} :: j in r ==> j <= i
    decreases i
  {
    PlacedAt(arena, nodes, i);
    if arena[i].Leaf? then {i}
    else {i} + Below(arena, nodes, arena[i].trueChild) + Below(arena, nodes, arena[i].falseChild)
  }

  lemma {:induction false} BelowClosed(arena: seq<Node>, nodes: map<Term, NodeRef>, i: NodeRef, j: NodeRef)
    requires Built(arena, nodes) && i < |arena| && j in Below(arena, nodes, i)
    ensures j < |arena| && Placed(arena, j)
    ensures arena[j].Inner? ==> arena[j].trueChild in Below(arena, nodes, i) && arena[j].falseChild in Below(arena, nodes, i)
    decreases i
  {
    PlacedAt(arena, nodes, i);
    hide Built;
    if arena[i].Inner? && j != i {
      if j in Below(arena, nodes, arena[i].trueChild) {
        BelowClosed(arena, nodes, arena[i].trueChild, j);
      } else {
        BelowClosed(arena, nodes, arena[i].falseChild, j);
      }
    }
  }

  lemma {:induction false} BelowLeast(arena: seq<Node>, nodes: map<Term, NodeRef>, i: NodeRef, s: set<NodeRef>)
    requires Built(arena, nodes) && i < |arena| && i in s
    requires forall x, y {:trigger y in Succ(arena)(x)} :: x in s && y in Succ(arena)(x) ==> y in s
    ensures Below(arena, nodes, i) <= s
    decreases i
  {
    PlacedAt(arena, nodes, i);
    hide Built;
    if arena[i].Inner? {
      assert arena[i].trueChild in Succ(arena)(i) && arena[i].falseChild in Succ(arena)(i);
      BelowLeast(arena, nodes, arena[i].trueChild, s);
      BelowLeast(arena, nodes, arena[i].falseChild, s);
    }
  }

  function RankRef(): NodeRef -> nat {
    (i: NodeRef) => i
  }

  lemma RefsDescend(arena: seq<Node>, nodes: map<Term, NodeRef>, root: NodeRef)
    requires Built(arena, nodes) && root < |arena|
    ensures Descending(Succ(arena), RankRef(), Below(arena, nodes, root))
  {
    hide Built;
    forall x, y {:trigger y in Succ(arena)(x)} | x in Below(arena, nodes, root) && y in Succ(arena)(x)
      ensures y in Below(arena, nodes, root) && RankRef()(y) < RankRef()(x)
    {
      BelowClosed(arena, nodes, root, x);
    }
  }

  // ---------------------------------------------------------------------------
  // Paths

  /** The branch a model takes at an inner node. */
  ghost function Chosen(arena: seq<Node>, m: Model, i: NodeRef): NodeRef
    requires i < |arena| && arena[i].Inner?
  {
    if Holds(m, arena[i].cond) then arena[i].trueChild else arena[i].falseChild
  }

  /** The leaf a model ends up at. */
  ghost function Final(arena: seq<Node>, nodes: map<Term, NodeRef>, m: Model, i: NodeRef): (r: NodeRef)
    requires Built(arena, nodes) && i < |arena|
    ensures r < |arena| && arena[r].Leaf? && r in Below(arena, nodes, i)
    decreases i
  {
    PlacedAt(arena, nodes, i);
    if arena[i].Leaf? then i else Final(arena, nodes, m, Chosen(arena, m, i))
  }

  /** The nodes a model passes through. */
  ghost predicate OnPath(arena: seq<Node>, nodes: map<Term, NodeRef>, m: Model, i: NodeRef, n: NodeRef)
    requires Built(arena, nodes) && i < |arena|
    decreases i
  {
    PlacedAt(arena, nodes, i);
    n == i || (arena[i].Inner? && OnPath(arena, nodes, m, Chosen(arena, m, i), n))
  }

  /** A term has the value of the leaf it ends up at. */
  lemma {:induction false} FinalIsValue(arena: seq<Node>, nodes: map<Term, NodeRef>, m: Model, i: NodeRef)
    requires Built(arena, nodes) && i < |arena| && m.ites == Defined
    ensures Eval(m, arena[i].term) == Eval(m, arena[Final(arena, nodes, m, i)].term)
    decreases i
  {
    PlacedAt(arena, nodes, i);
    hide Built;
    if arena[i].Inner? {
      FinalIsValue(arena, nodes, m, Chosen(arena, m, i));
    }
  }

  /** The only leaf on a path is its end. */
  lemma {:induction false} OneLeaf(arena: seq<Node>, nodes: map<Term, NodeRef>, m: Model, i: NodeRef, n: NodeRef)
    requires Built(arena, nodes) && i < |arena| && n < |arena| && arena[n].Leaf?
    ensures OnPath(arena, nodes, m, i, n) <==> Final(arena, nodes, m, i) == n
    decreases i
  {
    PlacedAt(arena, nodes, i);
    hide Built;
    if arena[i].Inner? {
      OneLeaf(arena, nodes, m, Chosen(arena, m, i), n);
    }
  }

  /** An edge and the condition it stands for. */
  ghost predicate IsEdge(arena: seq<Node>, e: Edge, n: NodeRef) {
    && e.parent < |arena| && arena[e.parent].Inner?
    && n == if e.polarity then arena[e.parent].trueChild else arena[e.parent].falseChild
  }

  ghost predicate Taken(arena: seq<Node>, m: Model, e: Edge)
    requires e.parent < |arena| && arena[e.parent].Inner?
  {
    Holds(m, arena[e.parent].cond) == e.polarity
  }

  /** A path reaches a node other than its start by a taken edge from a node on it, and by none else. */
  lemma {:induction false} ReachedByEdge(arena: seq<Node>, nodes: map<Term, NodeRef>, m: Model, i: NodeRef, n: NodeRef) returns (e: Edge)
    requires Built(arena, nodes) && i < |arena| && n != i && OnPath(arena, nodes, m, i, n)
    ensures IsEdge(arena, e, n) && Taken(arena, m, e) && e.parent in Below(arena, nodes, i) && OnPath(arena, nodes, m, i, e.parent)
    decreases i
  {
    PlacedAt(arena, nodes, i);
    hide Built;
    var next := Chosen(arena, m, i);
    if n == next {
      e := Edge(i, Holds(m, arena[i].cond));
    } else {
      e := ReachedByEdge(arena, nodes, m, next, n);
    }
  }

  lemma {:induction false} EdgeLeadsOn(arena: seq<Node>, nodes: map<Term, NodeRef>, m: Model, i: NodeRef, e: Edge, n: NodeRef)
    requires Built(arena, nodes) && i < |arena| && OnPath(arena, nodes, m, i, e.parent)
    requires IsEdge(arena, e, n) && Taken(arena, m, e)
    ensures OnPath(arena, nodes, m, i, n)
    decreases i
  {
    PlacedAt(arena, nodes, i);
    hide Built;
    if e.parent == i {
      assert OnPath(arena, nodes, m, n, n);
    } else {
      EdgeLeadsOn(arena, nodes, m, Chosen(arena, m, i), e, n);
    }
  }

  // ---------------------------------------------------------------------------
  // Sorted parent sets

  /** Edges are ordered by the parent's reference; a true edge comes before a false one. */
  predicate EdgeLess(x: Edge, y: Edge) {
    x.parent < y.parent || (x.parent == y.parent && x.polarity && !y.polarity)
  }

  predicate SortedEdges(es: seq<Edge>) {
    forall i, j :: 0 <= i < j < |es| ==> EdgeLess(es[i], es[j])
  }

  function InsertEdge(es: seq<Edge>, e: Edge): seq<Edge> {
    if es == [] then [e]
    else if es[0] == e then es
    else if EdgeLess(e, es[0]) then [e] + es
    else [es[0]] + InsertEdge(es[1..], e)
  }

  lemma {:induction false} InsertKeepsOrder(es: seq<Edge>, e: Edge)
    requires SortedEdges(es)
    ensures SortedEdges(InsertEdge(es, e))
    ensures forall x {:trigger x in InsertEdge(es, e)} :: x in InsertEdge(es, e) <==> x in es || x == e
  {
    if es != [] {
      InsertKeepsOrder(es[1..], e);
      var rest := InsertEdge(es[1..], e);
      assert es == [es[0]] + es[1..];
      forall k | 0 <= k < |rest| && es[0] != e && !EdgeLess(e, es[0]) ensures EdgeLess(es[0], rest[k]) {
        assert rest[k] in rest;
      }
    }
  }

  // ---------------------------------------------------------------------------
  // The graph as an object

  /** The terms a term can take the value of by choosing branches. */
  function Branches(t: Term): set<Term> {
    if t.Ite? then {t} + Branches(t.tt) + Branches(t.ff) else {t}
  }

  class Dag {
    var arena: seq<Node>
    var nodes: map<Term, NodeRef>
    var topLevelItes: seq<Term>
    var leaves: set<NodeRef>
    var parents: map<NodeRef, seq<Edge>>

    ghost predicate Valid()
      reads this
    {
      Built(arena, nodes)
    }

    constructor ()
      ensures Valid() && arena == [] && nodes == map[] && topLevelItes == [] && leaves == {} && parents == map[]
    {
      arena, nodes, topLevelItes, leaves, parents := [], map[], [], {}, map[];
    }

    method NewNode(n: Node) returns (r: NodeRef)
      requires Valid() && n.term !in nodes && Placed(arena + [n], |arena|)
      modifies this`arena, this`nodes
      ensures Valid() && r == |old(arena)| && arena == old(arena) + [n] && nodes == old(nodes)[n.term := r]
    {
      r := |arena|;
      Allocate(arena, nodes, n);
      arena := arena + [n];
      nodes := nodes[n.term := r];
    }

    method GetNodeOrCreateLeafNode(tr: Term) returns (r: NodeRef)
      requires Valid() && (tr !in nodes ==> !tr.Ite?)
      modifies this`arena, this`nodes
      ensures Valid() && old(arena) <= arena && r < |arena| && arena[r].term == tr
      ensures nodes.Keys == old(nodes).Keys + {tr}
    {
      if tr in nodes {
        NodeOf(arena, nodes, tr);
        r := nodes[tr];
      } else {
        r := NewNode(Leaf(tr));
      }
    }

    method CreateAndStoreNode(tr: Term, cond: Term, trueNode: NodeRef, falseNode: NodeRef)
      requires Valid() && tr !in nodes && trueNode < |arena| && falseNode < |arena|
      requires tr == Ite(cond, arena[trueNode].term, arena[falseNode].term)
      modifies this`arena, this`nodes
      ensures Valid() && old(arena) <= arena && nodes.Keys == old(nodes).Keys + {tr}
    {
      var r := NewNode(Inner(tr, cond, trueNode, falseNode));
    }

    method AddTopLevelIte(tr: Term)
      modifies this`topLevelItes
      ensures topLevelItes == if tr in old(topLevelItes) then old(topLevelItes) else old(topLevelItes) + [tr]
    {
      if tr !in topLevelItes {
        topLevelItes := topLevelItes + [tr];
      }
    }

    /** Adds an if-then-else over terms that are if-then-elses only if they are nodes already. */
    method AddIte(tr: Term, cond: Term, tt: Term, ff: Term)
      requires Valid() && tr == Ite(cond, tt, ff) && tr !in nodes
      requires (tt.Ite? ==> tt in nodes) && (ff.Ite? ==> ff in nodes)
      modifies this`arena, this`nodes
      ensures Valid() && nodes.Keys == old(nodes).Keys + {tt, ff, tr}
    {
      hide Built;
      var trueNode := GetNodeOrCreateLeafNode(tt);
      var falseNode := GetNodeOrCreateLeafNode(ff);
      CreateAndStoreNode(tr, cond, trueNode, falseNode);
    }

    /** Copies an if-then-else whose branches are copied already; leaves wait for their parents. */
    method CopyNode(el: NodeRef, dag: Dag, ghost done: set<NodeRef>)
      requires Valid() && dag != this && dag.Valid() && el < |arena| && el !in done && Copied(arena, done, dag.nodes)
      requires arena[el].Inner? ==> arena[el].trueChild in done && arena[el].falseChild in done
      modifies dag`arena, dag`nodes
      ensures dag.Valid() && Copied(arena, done + {el}, dag.nodes)
    {
      hide Built, Copied;
      PlacedAt(arena, nodes, el);
      if arena[el].Inner? {
        CopyReady(arena, nodes, done, dag.nodes, el);
        ghost var copies := dag.nodes;
        dag.AddIte(arena[el].term, arena[el].cond, arena[arena[el].trueChild].term, arena[arena[el].falseChild].term);
        CopyInner(arena, nodes, done, copies, dag.nodes, el);
      } else {
        CopyLeaf(arena, nodes, done, dag.nodes, el);
      }
    }

    /** The part of the graph under one term, as a graph of its own. */
    method GetReachableSubGraph(root: Term) returns (dag: Dag)
      requires Valid() && root in nodes && root.Ite?
      ensures fresh(dag) && dag.Valid() && dag.leaves == {} && dag.parents == map[]
      ensures dag.nodes.Keys == Branches(root)
    {
      hide Built, Walking, Descending, Work, Placed, Below, Succ, Marked, Copied, Pushed;
      dag := new Dag();
      var rootNode := nodes[root];
      NodeOf(arena, nodes, root);
      var flag := seq(|arena|, i => White);
      NothingMarked(arena);
      NothingCopied(arena);
      var queue := [rootNode];
      ghost var succ, univ := Succ(arena), Below(arena, nodes, rootNode);
      ghost var flags, open: set<NodeRef>, done: set<NodeRef> := [false], {}, {};
      RefsDescend(arena, nodes, rootNode);
      Start(succ, RankRef(), univ, rootNode);
      while queue != []
        invariant dag.Valid() && dag.leaves == {} && dag.parents == map[]
        invariant Walking(succ, RankRef(), univ, rootNode, queue, flags, open, done) && Marked(arena, flag, open, done)
        invariant Copied(arena, done, dag.nodes)
        decreases Work<NodeRef>(univ, open, done), |queue|
      {
        var top := |queue| - 1;
        var el := queue[top];
        Top(succ, RankRef(), univ, rootNode, queue, flags, open, done);
        Apart(succ, RankRef(), univ, rootNode, queue, flags, open, done);
        BelowClosed(arena, nodes, rootNode, el);
        MarksFit(arena, flag, open, done);
        MarkStep(arena, flag, open, done, el);
        if flag[el] == Black {
          Pop(succ, RankRef(), univ, rootNode, queue, flags, open, done);
          queue, flags := queue[..top], flags[..top];
          continue;
        }
        WorkShrinks<NodeRef>(univ, open, done, el);
        flag := flag[el := Gray];
        var above := WhiteChildren(arena, flag, el);
        if above != [] {
          Expand(succ, RankRef(), univ, rootNode, queue, flags, open, done, above);
          queue, flags := queue + above, flags[top := true] + seq(|above|, i => false);
          open := open + {el};
          continue;
        }
        Finish(succ, RankRef(), univ, rootNode, queue, flags, open, done);
        flag := flag[el := Black];
        queue, flags := queue[..top], flags[..top];
        ghost var before := done;
        open, done := open - {el}, done + {el};
        CopyNode(el, dag, before);
      }
      CopiedAll(arena, nodes, root, flags, open, done, dag.arena, dag.nodes);
    }

    /** Finds, for every node under `root`, the edges that lead to it, and the leaves. */
    method AnnotateWithParentInfo(root: Term)
      requires Valid() && root in nodes && leaves == {} && parents == map[]
      modifies this`leaves, this`parents
      ensures Valid() && nodes[root] < |arena|
      ensures Annotated(arena, nodes[root], Below(arena, nodes, nodes[root]), parents, leaves)
    {
      hide Built, Walking, Descending, Work, Placed, Below, Succ, Marked, Pushed, Annotated;
      var rootNode := nodes[root];
      NodeOf(arena, nodes, root);
      var flag := seq(|arena|, i => White);
      NothingMarked(arena);
      parents := parents[rootNode := []];
      NothingAnnotated(arena, rootNode);
      var queue := [rootNode];
      ghost var succ, univ := Succ(arena), Below(arena, nodes, rootNode);
      ghost var flags, open: set<NodeRef>, done: set<NodeRef> := [false], {}, {};
      RefsDescend(arena, nodes, rootNode);
      Start(succ, RankRef(), univ, rootNode);
      assert open + done == {} && parents == map[rootNode := []];
      while queue != []
        invariant Walking(succ, RankRef(), univ, rootNode, queue, flags, open, done) && Marked(arena, flag, open, done)
        invariant Annotated(arena, rootNode, open + done, parents, leaves)
        decreases Work<NodeRef>(univ, open, done), |queue|
      {
        var top := |queue| - 1;
        var el := queue[top];
        Top(succ, RankRef(), univ, rootNode, queue, flags, open, done);
        Apart(succ, RankRef(), univ, rootNode, queue, flags, open, done);
        BelowClosed(arena, nodes, rootNode, el);
        MarksFit(arena, flag, open, done);
        MarkStep(arena, flag, open, done, el);
        if flag[el] == Black {
          Pop(succ, RankRef(), univ, rootNode, queue, flags, open, done);
          queue, flags := queue[..top], flags[..top];
          continue;
        }
        WorkShrinks<NodeRef>(univ, open, done, el);
        flag := flag[el := Gray];
        AnnotateStep(arena, rootNode, open + done, parents, leaves, el);
        if arena[el].Inner? {
          parents := AddParent(parents, arena[el].falseChild, Edge(el, false));
          parents := AddParent(parents, arena[el].trueChild, Edge(el, true));
        } else {
          leaves := leaves + {el};
        }
        assert open + {el} + done == open + done + {el} && open - {el} + (done + {el}) == open + done + {el};
        var above := WhiteChildren(arena, flag, el);
        if above != [] {
          Expand(succ, RankRef(), univ, rootNode, queue, flags, open, done, above);
          queue, flags := queue + above, flags[top := true] + seq(|above|, i => false);
          open := open + {el};
          continue;
        }
        Finish(succ, RankRef(), univ, rootNode, queue, flags, open, done);
        flag := flag[el := Black];
        queue, flags := queue[..top], flags[..top];
        open, done := open - {el}, done + {el};
      }
      AllAnnotated(arena, nodes, rootNode, flags, open, done);
    }
  }

  ghost predicate Marked(arena: seq<Node>, flag: seq<Mark>, open: set<NodeRef>, done: set<NodeRef>) {
    && |flag| == |arena|
    && forall i: NodeRef {:trigger flag[i]} :: i < |arena| ==> (flag[i] == Black <==> i in done) && (flag[i] == Gray <==> i in open)
  }

  lemma MarksFit(arena: seq<Node>, flag: seq<Mark>, open: set<NodeRef>, done: set<NodeRef>)
    requires Marked(arena, flag, open, done)
    ensures |flag| == |arena|
  {
  }

  lemma NothingMarked(arena: seq<Node>)
    ensures Marked(arena, seq(|arena|, i => White), {}, {})
  {
  }

  /** The children the walk has not seen yet, the false child first. */
  function WhiteChildren(arena: seq<Node>, flag: seq<Mark>, i: NodeRef): seq<NodeRef>
    requires |flag| == |arena| && Placed(arena, i)
  {
    match arena[i]
    case Leaf(_) => []
    case Inner(_, _, t, f) => (if flag[f] == White then [f] else []) + (if flag[t] == White then [t] else [])
  }

  /** One visit of a node that is not black: the children pushed are those not done, and none are
      when the walk comes back. */
  lemma MarkStep(arena: seq<Node>, flag: seq<Mark>, open: set<NodeRef>, done: set<NodeRef>, el: NodeRef)
    requires Placed(arena, el) && Marked(arena, flag, open, done) && open !! done
    requires forall y {:trigger y in Succ(arena)(el)} :: y in Succ(arena)(el) ==> y !in open && (el in open ==> y in done)
    ensures flag[el] == Black <==> el in done
    ensures flag[el] != Black ==>
              var flag' := flag[el := Gray];
              var above := WhiteChildren(arena, flag', el);
              && Marked(arena, flag', open + {el}, done) && Marked(arena, flag'[el := Black], open - {el}, done + {el})
              && Pushed(Succ(arena), el, done, above)
              && (above != [] ==> el !in open)
              && (above == [] ==> forall y {:trigger y in Succ(arena)(el)} :: y in Succ(arena)(el) ==> y in done)
              && (above == [] && arena[el].Inner? ==> arena[el].trueChild in done && arena[el].falseChild in done)
  {
    SuccAt(arena, el);
    if arena[el].Inner? {
      assert arena[el].falseChild in Succ(arena)(el) && arena[el].trueChild in Succ(arena)(el);
    }
  }

  lemma SuccAt(arena: seq<Node>, i: NodeRef)
    requires Placed(arena, i)
    ensures arena[i].Leaf? ==> Succ(arena)(i) == []
    ensures arena[i].Inner? ==> Succ(arena)(i) == [arena[i].falseChild, arena[i].trueChild]
    ensures arena[i].Inner? ==> arena[i].trueChild < i && arena[i].falseChild < i
  {
  }

  /** The finished if-then-elses are copied, and nothing but terms of finished nodes is. */
  ghost predicate Copied(arena: seq<Node>, done: set<NodeRef>, copies: map<Term, NodeRef>) {
    && (forall i: NodeRef {:trigger i in done} :: i in done ==> i < |arena|)
    && (forall i: NodeRef {:trigger arena[i].term} :: i in done && i < |arena| && arena[i].Inner? ==> arena[i].term in copies)
    && (forall t {:trigger t in copies} :: t in copies ==> exists i: NodeRef :: i in done && i < |arena| && arena[i].term == t)
  }

  lemma NothingCopied(arena: seq<Node>)
    ensures Copied(arena, {}, map[])
  {
  }

  lemma CopyReady(arena: seq<Node>, nodes: map<Term, NodeRef>, done: set<NodeRef>, copies: map<Term, NodeRef>, el: NodeRef)
    requires Built(arena, nodes) && Copied(arena, done, copies) && el < |arena| && arena[el].Inner? && el !in done
    requires Placed(arena, el) && arena[el].trueChild in done && arena[el].falseChild in done
    ensures var n := arena[el];
            && n.term !in copies && n.term == Ite(n.cond, arena[n.trueChild].term, arena[n.falseChild].term)
            && (arena[n.trueChild].term.Ite? ==> arena[n.trueChild].term in copies)
            && (arena[n.falseChild].term.Ite? ==> arena[n.falseChild].term in copies)
  {
    var n := arena[el];
    assert Placed(arena, n.trueChild) && Placed(arena, n.falseChild);
    forall i: NodeRef | i in done && i < |arena| ensures arena[i].term != n.term {
      assert nodes[arena[el].term] == el && nodes[arena[i].term] == i;
    }
  }

  lemma CopyInner(arena: seq<Node>, nodes: map<Term, NodeRef>, done: set<NodeRef>, copies0: map<Term, NodeRef>, copies: map<Term, NodeRef>, el: NodeRef)
    requires Built(arena, nodes) && Placed(arena, el) && arena[el].Inner? && arena[el].trueChild in done && arena[el].falseChild in done
    requires Copied(arena, done, copies0)
    requires copies.Keys == copies0.Keys + {arena[arena[el].trueChild].term, arena[arena[el].falseChild].term, arena[el].term}
    ensures Copied(arena, done + {el}, copies)
  {
  }

  lemma CopyLeaf(arena: seq<Node>, nodes: map<Term, NodeRef>, done: set<NodeRef>, copies: map<Term, NodeRef>, el: NodeRef)
    requires Copied(arena, done, copies) && el < |arena| && arena[el].Leaf?
    ensures Copied(arena, done + {el}, copies)
  {
    forall t | t in copies ensures exists i: NodeRef :: i in done + {el} && i < |arena| && arena[i].term == t {
      var i: NodeRef :| i in done && i < |arena| && arena[i].term == t;
      assert i in done + {el};
    }
  }

  /** The nodes under a term are its branches. */
  lemma {:induction false} BelowAreBranches(arena: seq<Node>, nodes: map<Term, NodeRef>, i: NodeRef, j: NodeRef)
    requires Built(arena, nodes) && i < |arena| && j in Below(arena, nodes, i)
    ensures j < |arena| && arena[j].term in Branches(arena[i].term)
    decreases i
  {
    PlacedAt(arena, nodes, i);
    hide Built;
    if arena[i].Inner? && j != i {
      if j in Below(arena, nodes, arena[i].trueChild) {
        BelowAreBranches(arena, nodes, arena[i].trueChild, j);
      } else {
        BelowAreBranches(arena, nodes, arena[i].falseChild, j);
      }
    }
  }

  /** A graph that holds a term holds its branches. */
  lemma {:induction false} BranchesArePresent(arena: seq<Node>, nodes: map<Term, NodeRef>, t: Term)
    requires Built(arena, nodes) && t in nodes
    ensures Branches(t) <= nodes.Keys
    decreases t
  {
    NodeOf(arena, nodes, t);
    if t.Ite? {
      var n := arena[nodes[t]];
      PlacedAt(arena, nodes, n.trueChild);
      PlacedAt(arena, nodes, n.falseChild);
      BranchesArePresent(arena, nodes, t.tt);
      BranchesArePresent(arena, nodes, t.ff);
    }
  }

  lemma CopiedAll(arena: seq<Node>, nodes: map<Term, NodeRef>, root: Term, flags: seq<bool>, open: set<NodeRef>, done: set<NodeRef>,
                  copyArena: seq<Node>, copies: map<Term, NodeRef>)
    requires Built(arena, nodes) && root in nodes && root.Ite? && Built(copyArena, copies) && Copied(arena, done, copies)
    requires nodes[root] < |arena|
    requires Walking(Succ(arena), RankRef(), Below(arena, nodes, nodes[root]), nodes[root], [], flags, open, done)
    ensures copies.Keys == Branches(root)
  {
    hide Built, Walking;
    NodeOf(arena, nodes, root);
    Finished(Succ(arena), RankRef(), Below(arena, nodes, nodes[root]), nodes[root], flags, open, done);
    assert arena[nodes[root]].term in copies;
    BranchesArePresent(copyArena, copies, root);
    forall t | t in copies ensures t in Branches(root) {
      var i: NodeRef :| i in done && i < |arena| && arena[i].term == t;
      BelowAreBranches(arena, nodes, nodes[root], i);
    }
  }

  // ---------------------------------------------------------------------------
  // Parents

  function AddParent(parents: map<NodeRef, seq<Edge>>, child: NodeRef, e: Edge): map<NodeRef, seq<Edge>> {
    parents[child := InsertEdge(if child in parents then parents[child] else [], e)]
  }

  ghost predicate HasParent(arena: seq<Node>, seen: set<NodeRef>, n: NodeRef) {
    exists e: Edge {:trigger IsEdge(arena, e, n)} :: e.parent in seen && IsEdge(arena, e, n)
  }

  /** A node's entry lists, in order, exactly its edges from the nodes seen. */
  ghost predicate AnnotatedAt(arena: seq<Node>, root: NodeRef, seen: set<NodeRef>, parents: map<NodeRef, seq<Edge>>, n: NodeRef) {
    && (n in parents <==> n == root || HasParent(arena, seen, n))
    && (n in parents ==> SortedEdges(parents[n]) && forall e: Edge {:trigger e in parents[n]} :: e in parents[n] <==> e.parent in seen && IsEdge(arena, e, n))
  }

  ghost predicate Annotated(arena: seq<Node>, root: NodeRef, seen: set<NodeRef>, parents: map<NodeRef, seq<Edge>>, leaves: set<NodeRef>) {
    && (forall n: NodeRef {:trigger AnnotatedAt(arena, root, seen, parents, n)} :: AnnotatedAt(arena, root, seen, parents, n))
    && (forall n: NodeRef {:trigger n in leaves} :: n in leaves <==> n in seen && n < |arena| && arena[n].Leaf?)
  }

  lemma NothingAnnotated(arena: seq<Node>, root: NodeRef)
    ensures Annotated(arena, root, {}, map[root := []], {})
  {
  }

  /** Entering one edge. */
  lemma AddParentEntry(parents: map<NodeRef, seq<Edge>>, child: NodeRef, e: Edge, n: NodeRef)
    requires child in parents ==> SortedEdges(parents[child])
    ensures var p := AddParent(parents, child, e);
            && (n in p <==> n in parents || n == child)
            && (n != child && n in parents ==> p[n] == parents[n])
            && SortedEdges(p[child])
            && forall x {:trigger x in p[child]} :: x in p[child] <==> (child in parents && x in parents[child]) || x == e
  {
    InsertKeepsOrder(if child in parents then parents[child] else [], e);
  }

  /** Entering both edges of an inner node. */
  lemma AnnotateInner(arena: seq<Node>, root: NodeRef, seen: set<NodeRef>, parents: map<NodeRef, seq<Edge>>, el: NodeRef, n: NodeRef)
    requires forall n: NodeRef {:trigger AnnotatedAt(arena, root, seen, parents, n)} :: AnnotatedAt(arena, root, seen, parents, n)
    requires Placed(arena, el) && arena[el].Inner?
    ensures AnnotatedAt(arena, root, seen + {el},
                        AddParent(AddParent(parents, arena[el].falseChild, Edge(el, false)), arena[el].trueChild, Edge(el, true)), n)
  {
    hide InsertEdge, SortedEdges;
    var f, t := arena[el].falseChild, arena[el].trueChild;
    assert AnnotatedAt(arena, root, seen, parents, n) && AnnotatedAt(arena, root, seen, parents, f) && AnnotatedAt(arena, root, seen, parents, t);
    var p1 := AddParent(parents, f, Edge(el, false));
    AddParentEntry(parents, f, Edge(el, false), n);
    AddParentEntry(parents, f, Edge(el, false), t);
    AddParentEntry(p1, t, Edge(el, true), n);
    assert IsEdge(arena, Edge(el, false), f) && IsEdge(arena, Edge(el, true), t);
    assert forall e: Edge {:trigger IsEdge(arena, e, n)} :: e.parent == el && IsEdge(arena, e, n) ==> (e == Edge(el, false) && n == f) || (e == Edge(el, true) && n == t);
  }

  /** Seeing one more node. */
  lemma AnnotateStep(arena: seq<Node>, root: NodeRef, seen: set<NodeRef>, parents: map<NodeRef, seq<Edge>>, leaves: set<NodeRef>, el: NodeRef)
    requires Annotated(arena, root, seen, parents, leaves) && Placed(arena, el)
    ensures arena[el].Leaf? ==> Annotated(arena, root, seen + {el}, parents, leaves + {el})
    ensures arena[el].Inner? ==>
              Annotated(arena, root, seen + {el}, AddParent(AddParent(parents, arena[el].falseChild, Edge(el, false)), arena[el].trueChild, Edge(el, true)), leaves)
  {
    hide AddParent;
    forall n: NodeRef ensures arena[el].Leaf? ==> AnnotatedAt(arena, root, seen + {el}, parents, n) {
      assert AnnotatedAt(arena, root, seen, parents, n);
      assert arena[el].Leaf? ==> forall e: Edge {:trigger IsEdge(arena, e, n)} :: IsEdge(arena, e, n) ==> e.parent != el;
    }
    if arena[el].Inner? {
      forall n: NodeRef
        ensures AnnotatedAt(arena, root, seen + {el}, AddParent(AddParent(parents, arena[el].falseChild, Edge(el, false)), arena[el].trueChild, Edge(el, true)), n)
      {
        AnnotateInner(arena, root, seen, parents, el, n);
      }
    }
  }

  /** When the walk is over, the nodes seen are those under the root. */
  lemma AllAnnotated(arena: seq<Node>, nodes: map<Term, NodeRef>, root: NodeRef, flags: seq<bool>, open: set<NodeRef>, done: set<NodeRef>)
    requires Built(arena, nodes) && root < |arena|
    requires Walking(Succ(arena), RankRef(), Below(arena, nodes, root), root, [], flags, open, done)
    ensures open + done == Below(arena, nodes, root)
  {
    hide Built, Succ, Below;
    Finished(Succ(arena), RankRef(), Below(arena, nodes, root), root, flags, open, done);
    BelowLeast(arena, nodes, root, done);
  }
}
