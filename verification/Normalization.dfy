/** Putting the antecedents of every node in the order interpolation expects: the one with the
    positive pivot literal first. */
module Normalization {
  import opened Clauses
  import opened Proofs
  import opened Rules
  import opened ProofGraphs
  import opened GraphWalks
  import opened Interpolation
  import opened Unfolding

  /** The first antecedent holds the positive pivot literal. */
  ghost predicate PosFirst(g: Graph, n: Id) {
    n in g && (g[n].links.Ants? ==> g[n].links.ant1 in g && Lit(g[n].links.pivot, false) in C(g, g[n].links.ant1))
  }

  /** All nodes of the proof proper are in order. */
  ghost predicate Normalized(g: Graph, root: Id) {
    forall n {:trigger PosFirst(g, n)} :: Reachable(g, root, n) ==> PosFirst(g, n)
  }

  function Flip(k: Links): Links {
    match k
    case NoAnts => NoAnts
    case Ants(p, a, b) => Ants(p, b, a)
  }

  /** The graphs differ in the order of antecedents only. */
  ghost predicate Flipped(g: Graph, h: Graph) {
    h.Keys == g.Keys && forall n {:trigger FlippedAt(g, h, n)} :: n in g ==> FlippedAt(g, h, n)
  }

  ghost predicate FlippedAt(g: Graph, h: Graph, n: Id) {
    n in g && n in h && (h[n] == g[n] || h[n] == g[n].(links := Flip(g[n].links)))
  }

  lemma FlippedLinks(g: Graph, h: Graph, n: Id, a: Id)
    requires Flipped(g, h) && n in g
    ensures n in h && h[n].clause == g[n].clause && h[n].res == g[n].res && h[n].ty == g[n].ty
    ensures IsAnt(h[n], a) <==> IsAnt(g[n], a)
  {
    assert FlippedAt(g, h, n);
  }

  lemma FlippedLinked(g: Graph, h: Graph)
    requires Linked(g) && Flipped(g, h)
    ensures Linked(h)
  {
    hide Flipped;
    assert h.Keys == g.Keys by { FlippedKeys(g, h); }
    forall n | n in g ensures h[n].res == g[n].res && forall a :: IsAnt(h[n], a) <==> IsAnt(g[n], a) {
      forall a ensures IsAnt(h[n], a) <==> IsAnt(g[n], a) {
        FlippedLinks(g, h, n, a);
      }
      FlippedLinks(g, h, n, n);
    }
    SameEdgesLinked(g, h);
  }

  lemma FlippedKeys(g: Graph, h: Graph)
    requires Flipped(g, h)
    ensures h.Keys == g.Keys
  {
  }

  lemma FlippedNode(g: Graph, root: Id, rank: map<Id, nat>, h: Graph, n: Id)
    requires ValidExcept(g, root, rank, {}) && Flipped(g, h) && n in h
    ensures RankedAt(h, rank, n) && WellFormed(h[n]) && WellDerived(h, n)
  {
    assert n in g && FlippedAt(g, h, n);
    assert RankedAt(g, rank, n) && WellFormed(g[n]) && WellDerived(g, n);
    if g[n].links.Ants? {
      var a, b := g[n].links.ant1, g[n].links.ant2;
      FlippedLinks(g, h, a, n);
      FlippedLinks(g, h, b, n);
      DerivedFrom(h, n, a, b);
    }
  }

  /** Reordering antecedents keeps the proof valid. */
  lemma FlippedValid(g: Graph, root: Id, rank: map<Id, nat>, h: Graph)
    requires ValidExcept(g, root, rank, {}) && Flipped(g, h)
    ensures ValidExcept(h, root, rank, {})
  {
    hide Linked, Flipped, RankedAt, WellFormed, WellDerived;
    FlippedLinked(g, h);
    FlippedKeys(g, h);
    forall n | n in h ensures RankedAt(h, rank, n) && WellFormed(h[n]) && WellDerived(h, n) {
      FlippedNode(g, root, rank, h, n);
    }
  }

  /** Reordering antecedents keeps every node's derivation. */
  lemma {:induction false} FlippedUnfolds(g: Graph, root: Id, rank: map<Id, nat>, h: Graph, n: Id)
    requires ValidExcept(g, root, rank, {}) && Flipped(g, h) && ValidExcept(h, root, rank, {}) && n in g
    ensures n in h && Unfold(h, rank, n) == Unfold(g, rank, n)
    decreases rank[n]
  {
    hide Linked, Flipped;
    FlippedLinks(g, h, n, n);
    RankedParts(g, root, rank, n);
    RankedParts(h, root, rank, n);
    if g[n].links.Ants? {
      var a, b := g[n].links.ant1, g[n].links.ant2;
      FlippedLinks(g, h, a, n);
      FlippedLinks(g, h, b, n);
      FlippedUnfolds(g, root, rank, h, a);
      FlippedUnfolds(g, root, rank, h, b);
      FlippedAnts(g, root, rank, h, n);
    }
  }

  lemma FlippedAnts(g: Graph, root: Id, rank: map<Id, nat>, h: Graph, n: Id)
    requires ValidExcept(g, root, rank, {}) && Flipped(g, h) && Ranked(h, rank) && n in g && g[n].links.Ants?
    ensures n in h && h[n].links.Ants? && h[n].links.pivot == g[n].links.pivot
    ensures PosAnt(h, rank, n) == PosAnt(g, rank, n) && NegAnt(h, rank, n) == NegAnt(g, rank, n)
  {
    hide Linked;
    RankedParts(g, root, rank, n);
    assert FlippedAt(g, h, n) && RankedAt(h, rank, n);
    var a, b, p := g[n].links.ant1, g[n].links.ant2, g[n].links.pivot;
    assert WellFormed(g[a]) && WellFormed(g[b]);
    NodeNonTaut(g, a);
    NodeNonTaut(g, b);
    var s := PivotSigns(C(g, n), C(g, a), C(g, b), p);
    FlippedLinks(g, h, a, n);
    FlippedLinks(g, h, b, n);
  }

  // ---------------------------------------------------------------------------
  // The breadth-first walk

  ghost predicate Normalizing(g: Graph, root: Id, h: Graph, visited: set<Id>, q: seq<Id>) {
    && Flipped(g, h) && (root in visited || root in q)
    && (forall n {:trigger n in q} :: n in q ==> n in g)
    && (forall n {:trigger PosFirst(h, n)} :: n in visited ==> PosFirst(h, n))
    && (forall n, a {:trigger IsAnt(g[n], a)} :: n in g && n in visited && IsAnt(g[n], a) ==> a in visited || a in q)
  }

  lemma QueueSplit(q: seq<Id>)
    requires q != []
    ensures forall n {:trigger n in q} {:trigger n in q[1..]} :: n in q <==> n == q[0] || n in q[1..]
  {
    assert q == [q[0]] + q[1..];
  }

  lemma NormalizingSkip(g: Graph, root: Id, h: Graph, visited: set<Id>, q: seq<Id>)
    requires Normalizing(g, root, h, visited, q) && q != [] && q[0] in visited
    ensures Normalizing(g, root, h, visited, q[1..])
  {
    hide Flipped, PosFirst;
    QueueSplit(q);
  }

  /** Visiting a node: it is put in order and its antecedents are queued. */
  lemma NormalizingVisit(g: Graph, root: Id, h: Graph, visited: set<Id>, q: seq<Id>, h': Graph, more: seq<Id>)
    requires Linked(g) && Normalizing(g, root, h, visited, q) && q != []
    requires Flipped(g, h') && PosFirst(h', q[0])
    requires forall n {:trigger h'[n]} :: n in g && n != q[0] ==> n in h && n in h' && h'[n] == h[n]
    requires forall a {:trigger a in more} :: a in more <==> IsAnt(g[q[0]], a)
    ensures Normalizing(g, root, h', visited + {q[0]}, q[1..] + more)
  {
    hide Linked;
    QueueSplit(q);
    forall n | n in q[1..] + more ensures n in g {
      if n in more { LinkedAnt(g, q[0], n); }
    }
    forall n | n in visited + {q[0]} ensures PosFirst(h', n) {
      if n != q[0] {
        VisitKeeps(g, h, h', q[0], n);
      }
    }
  }

  lemma LinkedAnt(g: Graph, n: Id, a: Id)
    requires Linked(g) && n in g && IsAnt(g[n], a)
    ensures a in g
  {
  }

  lemma VisitKeeps(g: Graph, h: Graph, h': Graph, x: Id, n: Id)
    requires Flipped(g, h) && Flipped(g, h') && PosFirst(h, n) && n != x
    requires forall m {:trigger h'[m]} :: m in g && m != x ==> m in h && m in h' && h'[m] == h[m]
    ensures PosFirst(h', n)
  {
    assert n in g && h'[n] == h[n];
    if g[n].links.Ants? {
      assert FlippedAt(g, h, n);
      var a := h[n].links.ant1;
      FlippedLinks(g, h, a, n);
      FlippedLinks(g, h', a, n);
    }
  }

  lemma NormalizingDone(g: Graph, root: Id, h: Graph, visited: set<Id>)
    requires Linked(g) && Normalizing(g, root, h, visited, [])
    ensures forall n {:trigger PosFirst(h, n)} :: Reachable(g, root, n) ==> PosFirst(h, n)
  {
    hide PosFirst, Flipped, Linked;
    forall n | Reachable(g, root, n) ensures PosFirst(h, n) {
      var path :| PathToRoot(g, root, n, path);
      ReachedByClosure(g, root, visited, n, path);
    }
  }

  lemma FlippedReachable(g: Graph, h: Graph, root: Id, n: Id)
    requires Flipped(g, h) && Reachable(h, root, n)
    ensures Reachable(g, root, n)
  {
    var path :| PathToRoot(h, root, n, path);
    forall i | 0 <= i < |path| ensures path[i] in g && h[path[i]].res == g[path[i]].res {
      FlippedLinks(g, h, path[i], root);
    }
    forall i | 0 <= i < |path| - 1 ensures path[i + 1] in g[path[i]].res {
      assert path[i] in h && path[i + 1] in h[path[i]].res;
    }
    assert PathToRoot(g, root, n, path);
  }

  /** Exchanging the antecedents of one node, or leaving them. */
  lemma FlipOne(g: Graph, h: Graph, h': Graph, n: Id)
    requires Flipped(g, h) && n in h
    requires h' == h || h' == h[n := h[n].(links := Flip(h[n].links))]
    ensures Flipped(g, h')
  {
    forall m | m in g ensures FlippedAt(g, h', m) {
      assert FlippedAt(g, h, m);
    }
  }

  /** Puts the antecedents of one node in order. */
  method NormalizeNode(pg: ProofGraph, n: ProofNode, ghost rank: map<Id, nat>)
    requires pg.Valid() && n in pg.graph && n.ant1 != null
    requires ValidExcept(pg.View(), pg.root, rank, {})
    modifies n`ant1, n`ant2
    ensures pg.Valid() && n.id in old(pg.View()) && PosFirst(pg.View(), n.id)
    ensures pg.View() == old(pg.View()) || pg.View() == old(pg.View())[n.id := old(pg.View())[n.id].(links := Flip(old(pg.View())[n.id].links))]
  {
    hide Linked, Ranked, ValidExcept, SortedVars, pg.Valid, pg.View;
    pg.NodeAt(n);
    ghost var g := pg.View();
    pg.NodeAt(n.ant1);
    pg.NodeAt(n.ant2);
    NodeSigns(g, pg.root, rank, n.id);
    var f1 := HasOccurrenceBin(n.ant1.clause, n.pivot);
    var f2 := HasOccurrenceBin(n.ant2.clause, n.pivot);
    if f1 == Negative && f2 == Positive {
      pg.PutAnts(n, n.ant2, n.ant1);
    }
  }

  /** The two antecedents hold the pivot with opposite signs. */
  lemma NodeSigns(g: Graph, root: Id, rank: map<Id, nat>, n: Id)
    requires ValidExcept(g, root, rank, {}) && n in g && g[n].links.Ants?
    ensures var a, b, p := g[n].links.ant1, g[n].links.ant2, g[n].links.pivot;
            && a in g && b in g && a != n && b != n && SortedVars(g[a].clause) && SortedVars(g[b].clause)
            && (Lit(p, false) in C(g, a) <==> Lit(p, true) in C(g, b))
            && (Lit(p, true) in C(g, a) <==> Lit(p, false) in C(g, b))
            && (Lit(p, false) in C(g, a) || Lit(p, true) in C(g, a))
            && !(Lit(p, false) in C(g, a) && Lit(p, true) in C(g, a))
  {
    hide Linked;
    RankedParts(g, root, rank, n);
    var a, b := g[n].links.ant1, g[n].links.ant2;
    assert WellFormed(g[a]) && WellFormed(g[b]);
    NodeNonTaut(g, a);
    NodeNonTaut(g, b);
    var s := PivotSigns(C(g, n), C(g, a), C(g, b), g[n].links.pivot);
  }

  lemma NormalizingStart(g: Graph, root: Id, rank: map<Id, nat>)
    requires ValidExcept(g, root, rank, {})
    ensures Normalizing(g, root, g, {}, [root])
  {
  }

  /** Antecedents of a node, in the graph before and after reordering. */
  lemma VisitReady(g: Graph, root: Id, h: Graph, visited: set<Id>, q: seq<Id>)
    requires Normalizing(g, root, h, visited, q) && q != []
    ensures q[0] in g && q[0] in h && Flipped(g, h)
    ensures forall a {:trigger IsAnt(g[q[0]], a)} :: IsAnt(h[q[0]], a) <==> IsAnt(g[q[0]], a)
  {
    assert q[0] in q;
    assert FlippedAt(g, h, q[0]);
  }

  /** One unvisited node: its antecedents are exchanged if need be and returned for the queue. */
  method Visit(pg: ProofGraph, ghost g: Graph, ghost rank: map<Id, nat>, ghost visited: set<Id>, q: seq<Id>) returns (more: seq<Id>)
    requires pg.Valid() && ValidExcept(g, pg.root, rank, {}) && Normalizing(g, pg.root, pg.View(), visited, q) && q != []
    modifies set n: ProofNode | n in pg.graph
    ensures pg.Valid() && Normalizing(g, pg.root, pg.View(), visited + {q[0]}, q[1..] + more)
  {
    hide ValidExcept, Linked, Ranked, Normalizing, Flipped, PosFirst;
    ghost var h := pg.View();
    VisitReady(g, pg.root, h, visited, q);
    FlippedValid(g, pg.root, rank, h);
    var n := pg.GetNode(q[0]);
    more := [];
    if n.ant1 != null {
      more := [n.ant1.id, n.ant2.id];
      NormalizeNode(pg, n, rank);
    } else {
      LeafPosFirst(h, q[0]);
    }
    FlipOne(g, h, pg.View(), q[0]);
    ValidIsLinked(g, pg.root, rank);
    NormalizingVisit(g, pg.root, h, visited, q, pg.View(), more);
  }

  lemma LeafPosFirst(h: Graph, n: Id)
    requires n in h && h[n].links.NoAnts?
    ensures PosFirst(h, n)
  {
  }

  lemma ValidIsLinked(g: Graph, root: Id, rank: map<Id, nat>)
    requires ValidExcept(g, root, rank, {})
    ensures Linked(g) && Ranked(g, rank)
  {
  }

  /** Breadth first from the root: every node of the proof ends up in order, and nothing else changes. */
  method NormalizeAntecedentOrder(pg: ProofGraph, ghost rank: map<Id, nat>)
    requires pg.Valid() && ValidExcept(pg.View(), pg.root, rank, {})
    modifies set n: ProofNode | n in pg.graph
    ensures pg.Valid() && Flipped(old(pg.View()), pg.View())
    ensures ValidExcept(pg.View(), pg.root, rank, {}) && Normalized(pg.View(), pg.root)
  {
    hide ValidExcept, Linked, Ranked, Normalizing, Flipped, PosFirst, Unfold, pg.Valid, Normalized, Reachable;
    ghost var g := pg.View();
    var visited: set<Id> := {};
    var q := [pg.root];
    NormalizingStart(g, pg.root, rank);
    while q != []
      invariant pg.Valid() && Normalizing(g, pg.root, pg.View(), visited, q) && visited <= g.Keys
      decreases |g.Keys - visited|, |q|
    {
      VisitReady(g, pg.root, pg.View(), visited, q);
      if q[0] in visited {
        NormalizingSkip(g, pg.root, pg.View(), visited, q);
        q := q[1..];
      } else {
        var more := Visit(pg, g, rank, visited, q);
        OneLess(g.Keys, visited, q[0]);
        visited := visited + {q[0]};
        q := q[1..] + more;
      }
    }
    NormalizedAtLast(g, pg.root, rank, pg.View(), visited);
  }

  lemma OneLess(all: set<Id>, visited: set<Id>, n: Id)
    requires n in all && n !in visited
    ensures |all - (visited + {n})| < |all - visited|
  {
    assert all - (visited + {n}) == (all - visited) - {n};
  }

  lemma NormalizedAtLast(g: Graph, root: Id, rank: map<Id, nat>, h: Graph, visited: set<Id>)
    requires ValidExcept(g, root, rank, {}) && Normalizing(g, root, h, visited, [])
    ensures Flipped(g, h) && ValidExcept(h, root, rank, {}) && Normalized(h, root)
  {
    hide Linked, Flipped, PosFirst, Unfold, Reachable;
    assert Flipped(g, h);
    FlippedValid(g, root, rank, h);
    NormalizingDone(g, root, h, visited);
    forall n | Reachable(h, root, n) ensures PosFirst(h, n) {
      FlippedReachable(g, h, root, n);
    }
  }
}
