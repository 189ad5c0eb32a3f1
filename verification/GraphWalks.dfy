/** Walks over the whole proof graph: the depth-first topological order the interpolation engine
    follows, and the clean-up that leaves exactly what the root uses. */
module GraphWalks {
  import opened Clauses
  import opened Proofs
  import opened Rules
  import opened Cuts
  import opened ProofGraphs
  import opened Dfs

  /** A chain of resolvents from `n` to the root. */
  ghost predicate PathToRoot(g: Graph, root: Id, n: Id, path: seq<Id>) {
    && path != [] && path[0] == n && path[|path| - 1] == root
    && (forall i {:trigger path[i]} :: 0 <= i < |path| ==> path[i] in g)
    && (forall i {:trigger g[path[i]]} :: 0 <= i < |path| - 1 ==> path[i + 1] in g[path[i]].res)
  }

  ghost predicate Reachable(g: Graph, root: Id, n: Id) {
    exists path :: PathToRoot(g, root, n, path)
  }

  lemma RootReachable(g: Graph, root: Id)
    requires root in g
    ensures Reachable(g, root, root)
  {
    assert PathToRoot(g, root, root, [root]);
  }

  lemma RootReached(g: Graph, root: Id)
    requires root in g
    ensures root in ReachableSet(g, root)
  {
    RootReachable(g, root);
  }

  lemma AntReachable(g: Graph, root: Id, n: Id, a: Id)
    requires Linked(g) && n in g && Reachable(g, root, n) && IsAnt(g[n], a)
    ensures Reachable(g, root, a)
  {
    var path :| PathToRoot(g, root, n, path);
    var longer := [a] + path;
    assert n in g[a].res;
    forall i | 0 <= i < |longer| - 1 ensures longer[i] in g && longer[i + 1] in g[longer[i]].res {
      if i > 0 { assert longer[i] == path[i - 1]; }
    }
    assert PathToRoot(g, root, a, longer);
  }

  /** A set with the root that is closed under antecedents holds every reachable node. */
  lemma {:induction false} ReachedByClosure(g: Graph, root: Id, s: set<Id>, n: Id, path: seq<Id>)
    requires Linked(g) && root in s && PathToRoot(g, root, n, path)
    requires forall m, a {:trigger IsAnt(g[m], a)} :: m in g && m in s && IsAnt(g[m], a) ==> a in s
    ensures n in s
    decreases |path|
  {
    if |path| > 1 {
      assert path[0] in g && path[1] in g && path[1] in g[path[0]].res;
      assert PathToRoot(g, root, path[1], path[1..]) by {
        forall i | 0 <= i < |path[1..]| - 1 ensures path[1..][i + 1] in g[path[1..][i]].res {
          assert path[1..][i] == path[i + 1];
          assert path[i + 1] in g;
        }
      }
      ReachedByClosure(g, root, s, path[1], path[1..]);
      assert IsAnt(g[path[1]], n);
    }
  }

  // ---------------------------------------------------------------------------
  // Topological order

  datatype Mark = White | Open | Black

  /** `order` lists every node the root uses exactly once, after its antecedents. */
  ghost predicate TopologicalOrder(g: Graph, root: Id, order: seq<Id>) {
    && (forall i, j :: 0 <= i < j < |order| ==> order[i] != order[j])
    && (forall n {:trigger n in order} :: n in order <==> Reachable(g, root, n))
    && (forall i, a {:trigger IsAnt(g[order[i]], a)} :: 0 <= i < |order| && order[i] in g && IsAnt(g[order[i]], a) ==> a in order[..i])
  }

  /** The part of the walk's state that is the result so far. */
  ghost predicate Listed(g: Graph, root: Id, order: seq<Id>) {
    && (forall n {:trigger n in order} :: n in order ==> n in g && Reachable(g, root, n))
    && (forall i, j :: 0 <= i < j < |order| ==> order[i] != order[j])
    && (forall i, a {:trigger IsAnt(g[order[i]], a)} :: 0 <= i < |order| && order[i] in g && IsAnt(g[order[i]], a) ==> a in order[..i])
  }

  /** The walk goes from a node to its antecedents. */
  ghost function AntsOf(g: Graph): Id -> seq<Id> {
    n => if n in g && g[n].links.Ants? then [g[n].links.ant1, g[n].links.ant2] else []
  }

  ghost function RankOf(rank: map<Id, nat>): Id -> nat {
    n => if n in rank then rank[n] else 0
  }

  ghost function ReachableSet(g: Graph, root: Id): set<Id> {
    set n | n in g && Reachable(g, root, n)
  }

  lemma AntsInOrder(g: Graph, root: Id, rank: map<Id, nat>)
    requires Linked(g) && Ranked(g, rank)
    ensures Descending(AntsOf(g), RankOf(rank), ReachableSet(g, root))
  {
    forall x, y {:trigger y in AntsOf(g)(x)} | x in ReachableSet(g, root) && y in AntsOf(g)(x)
      ensures y in ReachableSet(g, root) && RankOf(rank)(y) < RankOf(rank)(x)
    {
      assert RankedAt(g, rank, x) && IsAnt(g[x], y);
      AntReachable(g, root, x, y);
    }
  }

  ghost function Elems(order: seq<Id>): set<Id> {
    set n | n in order
  }

  lemma WalkDone(g: Graph, root: Id, rank: map<Id, nat>, flags: seq<bool>, open: set<Id>, order: seq<Id>)
    requires Linked(g) && Listed(g, root, order)
    requires Walking(AntsOf(g), RankOf(rank), ReachableSet(g, root), root, [], flags, open, Elems(order))
    ensures TopologicalOrder(g, root, order)
  {
    hide Linked;
    var listed := Elems(order);
    Finished(AntsOf(g), RankOf(rank), ReachableSet(g, root), root, flags, open, listed);
    forall m, a {:trigger IsAnt(g[m], a)} | m in g && m in listed && IsAnt(g[m], a) ensures a in listed {
      assert a in AntsOf(g)(m);
    }
    forall n | Reachable(g, root, n) ensures n in order {
      var path :| PathToRoot(g, root, n, path);
      ReachedByClosure(g, root, listed, n, path);
    }
  }

  /** Listing a node whose antecedents are all listed. */
  lemma ListNode(g: Graph, root: Id, order: seq<Id>, n: Id)
    requires Listed(g, root, order) && n in g && n !in Elems(order) && Reachable(g, root, n)
    requires forall a {:trigger a in AntsOf(g)(n)} :: a in AntsOf(g)(n) ==> a in Elems(order)
    ensures Listed(g, root, order + [n])
    ensures Elems(order + [n]) == Elems(order) + {n}
  {
    var order' := order + [n];
    forall i, a {:trigger IsAnt(g[order'[i]], a)} | 0 <= i < |order'| && order'[i] in g && IsAnt(g[order'[i]], a) ensures a in order'[..i] {
      assert a in AntsOf(g)(order'[i]);
      if i < |order| {
        assert IsAnt(g[order[i]], a) && order'[..i] == order[..i];
      } else {
        assert order'[..i] == order;
      }
    }
  }

  ghost predicate MarksAgree(g: Graph, marks: seq<Mark>, open: set<Id>, listed: set<Id>) {
    forall n: Id {:trigger marks[n]} {:trigger n in g} :: n in g ==>
      n < |marks| && (marks[n] == Black <==> n in listed) && (marks[n] == Open <==> n in open)
  }

  lemma MarkAt(g: Graph, marks: seq<Mark>, open: set<Id>, listed: set<Id>, n: Id)
    requires MarksAgree(g, marks, open, listed) && n in g
    ensures n < |marks| && (marks[n] == Black <==> n in listed) && (marks[n] == Open <==> n in open)
  {
  }

  lemma MarkOpened(g: Graph, marks: seq<Mark>, open: set<Id>, listed: set<Id>, n: Id)
    requires MarksAgree(g, marks, open, listed) && n < |marks| && n !in listed
    ensures MarksAgree(g, marks[n := Open], open + {n}, listed)
  {
  }

  lemma MarkListed(g: Graph, marks: seq<Mark>, open: set<Id>, listed: set<Id>, n: Id)
    requires MarksAgree(g, marks, open, listed) && n < |marks|
    ensures MarksAgree(g, marks[n := Black], open - {n}, listed + {n})
  {
  }

  lemma NothingMarked(g: Graph, marks: seq<Mark>)
    requires forall i {:trigger marks[i]} :: 0 <= i < |marks| ==> marks[i] == White
    requires forall n: Id {:trigger n in g} :: n in g ==> n < |marks|
    ensures MarksAgree(g, marks, {}, Elems([]))
  {
  }

  /** Depth-first walk from the root with an explicit stack; a node is listed when the walk comes
      back to it, that is after everything it derives from. */
  method TopolSortingTopDown(pg: ProofGraph, ghost rank: map<Id, nat>) returns (order: seq<Id>)
    requires pg.Valid() && Linked(pg.View()) && Ranked(pg.View(), rank) && pg.root in pg.View()
    ensures TopologicalOrder(pg.View(), pg.root, order)
  {
    hide Linked, Ranked, Walking, Descending, Listed, Work, Elems, Reachable, RankOf, AntsOf, ReachableSet, pg.Valid, MarksAgree;
    ghost var g := pg.View();
    ghost var succ, rk, univ := AntsOf(g), RankOf(rank), ReachableSet(g, pg.root);
    order := [];
    var marks := seq(|pg.graph|, i => White);
    var unprocessed: seq<Id> := [pg.root];
    ghost var flags, open: set<Id> := [false], {};
    MarksFit(pg);
    NothingMarked(g, marks);
    RootReached(g, pg.root);
    AntsInOrder(g, pg.root, rank);
    NothingListed(g, pg.root);
    Start(succ, rk, univ, pg.root);
    while unprocessed != []
      invariant Listed(g, pg.root, order) && Walking(succ, rk, univ, pg.root, unprocessed, flags, open, Elems(order))
      invariant MarksAgree(g, marks, open, Elems(order))
      decreases Work<Id>(univ, open, Elems(order)), |unprocessed|
    {
      var top := |unprocessed| - 1;
      var id: Id := unprocessed[top];
      InReach(g, pg.root, id);
      Top(succ, rk, univ, pg.root, unprocessed, flags, open, Elems(order));
      MarkAt(g, marks, open, Elems(order), id);
      if marks[id] == Black {
        Pop(succ, rk, univ, pg.root, unprocessed, flags, open, Elems(order));
        unprocessed, flags := unprocessed[..top], flags[..top];
        continue;
      }
      WorkShrinks<Id>(univ, open, Elems(order), id);
      var n := pg.GetNode(id);
      if marks[id] == Open || n.ant1 == null {
        ListNode(g, pg.root, order, id);
        MarkListed(g, marks, open, Elems(order), id);
        Finish(succ, rk, univ, pg.root, unprocessed, flags, open, Elems(order));
        marks := marks[id := Black];
        order := order + [id];
        open := open - {id};
        unprocessed, flags := unprocessed[..top], flags[..top];
        continue;
      }
      pg.NodeAt(n);
      pg.NodeAt(n.ant1);
      pg.NodeAt(n.ant2);
      MarkOpened(g, marks, open, Elems(order), id);
      marks := marks[id := Open];
      MarkAt(g, marks, open + {id}, Elems(order), n.ant1.id);
      MarkAt(g, marks, open + {id}, Elems(order), n.ant2.id);
      var above: seq<Id> := (if marks[n.ant1.id] == White then [n.ant1.id] else []) + (if marks[n.ant2.id] == White then [n.ant2.id] else []);
      Expand(succ, rk, univ, pg.root, unprocessed, flags, open, Elems(order), above);
      unprocessed, flags := unprocessed + above, flags[top := true] + seq(|above|, i => false);
      open := open + {id};
    }
    WalkDone(g, pg.root, rank, flags, open, order);
  }

  lemma MarksFit(pg: ProofGraph)
    requires pg.Valid()
    ensures forall n: Id {:trigger n in pg.View()} :: n in pg.View() ==> n < |pg.graph|
  {
  }

  lemma InReach(g: Graph, root: Id, n: Id)
    ensures n in ReachableSet(g, root) ==> n in g && Reachable(g, root, n)
    ensures n in g ==> AntsOf(g)(n) == if g[n].links.Ants? then [g[n].links.ant1, g[n].links.ant2] else []
  {
  }

  lemma NothingListed(g: Graph, root: Id)
    ensures Listed(g, root, []) && Elems([]) == {}
  {
  }

  // ---------------------------------------------------------------------------
  // Clean-up

  /** `h` is `g` without an upward closed set of nodes that does not contain the root. */
  ghost predicate Pruned(g: Graph, root: Id, h: Graph) {
    var gone := g.Keys - h.Keys;
    && root in h && h.Keys <= g.Keys
    && (forall n {:trigger h[n]} :: n in h ==> h[n] == Without(g[n], gone))
    && (forall n {:trigger n in gone} :: n in gone ==> g[n].res <= gone)
  }

  lemma PrunedLinked(g: Graph, root: Id, h: Graph)
    requires Linked(g) && Pruned(g, root, h)
    ensures Linked(h)
  {
    forall a, r {:trigger r in h[a].res} | a in h && r in h[a].res ensures r in h && IsAnt(h[r], a) {
      assert r in g[a].res && IsAnt(g[r], a);
    }
    forall a, r {:trigger IsAnt(h[r], a)} | r in h && IsAnt(h[r], a) ensures a in h && r in h[a].res {
      assert h[r] == Without(g[r], g.Keys - h.Keys);
      assert IsAnt(g[r], a) && r in g[a].res;
      assert a !in g.Keys - h.Keys;
    }
  }

  /** A cascade on a pruned graph gives a pruned graph. */
  lemma PruneMore(g: Graph, root: Id, h: Graph, first: Id, k: Graph)
    requires Linked(g) && Pruned(g, root, h) && h[root].res == {} && first != root && Cascade(h, first, k)
    ensures Pruned(g, root, k) && |k| < |h| && k[root].res == {}
  {
    PrunedLinked(g, root, h);
    CascadeMember(h, first, k, root);
    var gone, gone' := g.Keys - h.Keys, g.Keys - k.Keys;
    assert gone' == gone + (h.Keys - k.Keys);
    forall n | n in k ensures k[n] == Without(g[n], gone') {
      assert h[n] == Without(g[n], gone) && k[n] == Without(h[n], h.Keys - k.Keys);
      assert k[n].res == g[n].res - gone';
    }
    forall n | n in gone' ensures g[n].res <= gone' {
      if n in h {
        assert n in h.Keys - k.Keys;
        assert h[n] == Without(g[n], gone);
      } else {
        assert n in gone;
      }
    }
    assert k.Keys <= h.Keys - {first};
    assert |h.Keys - {first}| == |h.Keys| - 1;
    SubsetSize(k.Keys, h.Keys - {first});
  }

  lemma SubsetSize(a: set<Id>, b: set<Id>)
    requires a <= b
    ensures |a| <= |b|
  {
    assert b == a + (b - a);
  }

  /** If every node but the root has a resolvent, then every node leads up to the root. */
  lemma {:induction false} ServingReaches(g: Graph, root: Id, rank: map<Id, nat>, h: Graph, n: Id, top: nat)
    requires Linked(g) && Ranked(g, rank) && Pruned(g, root, h)
    requires forall m {:trigger h[m]} :: m in h && m != root ==> h[m].res != {}
    requires n in h && forall m :: m in g ==> rank[m] <= top
    ensures Reachable(g, root, n)
    decreases top - rank[n]
  {
    if n == root {
      RootReachable(g, root);
    } else {
      var r :| r in h[n].res;
      assert h[n] == Without(g[n], g.Keys - h.Keys);
      assert r in g[n].res && IsAnt(g[r], n) && RankedAt(g, rank, r);
      ServingReaches(g, root, rank, h, r, top);
      AntReachable(g, root, r, n);
    }
  }

  /** Pruning never takes away a node the root uses. */
  lemma ReachableStays(g: Graph, root: Id, h: Graph, n: Id)
    requires Linked(g) && Pruned(g, root, h) && Reachable(g, root, n)
    ensures n in h
  {
    var path :| PathToRoot(g, root, n, path);
    forall m, a {:trigger IsAnt(g[m], a)} | m in g && m in h.Keys && IsAnt(g[m], a) ensures a in h.Keys {
      assert m in g[a].res;
      assert a !in g.Keys - h.Keys;
    }
    ReachedByClosure(g, root, h.Keys, n, path);
  }

  /** What the clean-up leaves: exactly the nodes the root uses. */
  ghost predicate Cleaned(g: Graph, root: Id, h: Graph) {
    && Pruned(g, root, h)
    && forall n {:trigger n in h} :: n in h <==> n in g && Reachable(g, root, n)
  }

  lemma CleanDone(g: Graph, root: Id, rank: map<Id, nat>, h: Graph, bound: nat)
    requires Linked(g) && Ranked(g, rank) && Pruned(g, root, h)
    requires Serving(h, root, bound) && forall m {:trigger h[m]} :: m in h ==> m < bound
    ensures Cleaned(g, root, h)
  {
    var top := MaxRank(rank, rank.Keys);
    forall n ensures n in h <==> n in g && Reachable(g, root, n) {
      if n in h {
        ServingReaches(g, root, rank, h, n, top);
      } else if n in g && Reachable(g, root, n) {
        ReachableStays(g, root, h, n);
      }
    }
  }

  /** Below position `i` only the root may be without resolvents. */
  ghost predicate Serving(h: Graph, root: Id, i: nat) {
    forall m {:trigger h[m]} :: m in h && m != root && m < i ==> h[m].res != {}
  }

  /** One sweep over all positions: deletes every node without resolvents except the root, together
      with what only served it; `clean` if there was none. */
  method Sweep(pg: ProofGraph, ghost g: Graph) returns (removed: nat, clean: bool)
    requires pg.Valid() && Linked(g) && Pruned(g, pg.root, pg.View()) && pg.root in pg.View() && pg.View()[pg.root].res == {}
    modifies pg`graph, pg`leaves, set n: ProofNode | n in pg.graph
    ensures pg.Valid() && Pruned(g, pg.root, pg.View()) && pg.root in pg.View() && pg.View()[pg.root].res == {}
    ensures forall m: ProofNode {:trigger m in pg.graph} :: m in pg.graph ==> m in old(pg.graph)
    ensures removed + |pg.View()| == |old(pg.View())|
    ensures if clean then pg.View() == old(pg.View()) && Serving(pg.View(), pg.root, |pg.graph|) else removed > 0
    ensures |pg.graph| == |old(pg.graph)|
  {
    hide Linked, Ranked, Pruned, Cascade, Serving, pg.Valid;
    ghost var h := pg.View();
    removed, clean := 0, true;
    var i := 0;
    ServingStart(h, pg.root);
    while i < |pg.graph|
      invariant 0 <= i <= |pg.graph| && |pg.graph| == |old(pg.graph)|
      invariant pg.Valid() && Pruned(g, pg.root, pg.View()) && pg.root in pg.View() && pg.View()[pg.root].res == {}
      invariant forall m: ProofNode {:trigger m in pg.graph} :: m in pg.graph ==> m in old(pg.graph)
      invariant removed + |pg.View()| == |h|
      invariant if clean then pg.View() == h && Serving(h, pg.root, i) else removed > 0
      decreases |pg.graph| - i
    {
      ghost var k := pg.View();
      var n := pg.Find(i);
      if n != null && n.resolvents == {} && i != pg.root {
        clean := false;
        PrunedLinked(g, pg.root, k);
        var count := pg.RemoveTree(i);
        PruneMore(g, pg.root, k, i, pg.View());
        removed := removed + count;
      } else {
        ServingStep(k, pg.root, i);
      }
      i := i + 1;
    }
  }

  lemma ServingStart(h: Graph, root: Id)
    ensures Serving(h, root, 0)
  {
  }

  lemma ServingStep(h: Graph, root: Id, i: nat)
    requires i in h && i != root ==> h[i].res != {}
    ensures Serving(h, root, i) ==> Serving(h, root, i + 1)
  {
  }

  /** Sweeps until one finds nothing to delete. */
  method CleanProofGraph(pg: ProofGraph, ghost rank: map<Id, nat>) returns (removed: nat)
    requires pg.Valid() && Linked(pg.View()) && Ranked(pg.View(), rank)
    requires pg.root in pg.View() && pg.View()[pg.root].res == {}
    modifies pg`graph, pg`leaves, set n: ProofNode | n in pg.graph
    ensures pg.Valid() && pg.root == old(pg.root) && Cleaned(old(pg.View()), pg.root, pg.View())
    ensures removed + |pg.View()| == |old(pg.View())|
  {
    hide Linked, Ranked, Pruned, Cascade, Serving;
    ghost var g := pg.View();
    removed := 0;
    var done := false;
    PruneStart(g, pg.root);
    while !done
      invariant pg.Valid() && Pruned(g, pg.root, pg.View()) && pg.root in pg.View() && pg.View()[pg.root].res == {}
      invariant removed + |pg.View()| == |g|
      invariant forall m: ProofNode {:trigger m in pg.graph} :: m in pg.graph ==> m in old(pg.graph)
      invariant done ==> Serving(pg.View(), pg.root, |pg.graph|)
      decreases |pg.View()|, !done
    {
      var count, clean := Sweep(pg, g);
      removed := removed + count;
      done := clean;
    }
    pg.ViewBound();
    CleanDone(g, pg.root, rank, pg.View(), |pg.graph|);
  }

  lemma PruneStart(g: Graph, root: Id)
    requires root in g
    ensures Pruned(g, root, g)
  {
  }
}
