/** Restructuring: after a cut rule, the walk from the leaves to the root that recomputes clauses and takes out
    the resolution steps that have lost their pivot. */
module Restructuring {
  import opened Clauses
  import opened Proofs
  import opened Rules
  import opened Cuts
  import opened ProofGraphs

  // ---------------------------------------------------------------------------
  // Clauses that are no longer exact

  /** `c` still has all that `a` and `b` pass on when they are resolved on `p`, which need not be in them. */
  ghost predicate Covers(c: set<Lit>, a: set<Lit>, b: set<Lit>, p: Var, s: bool) {
    a - {Lit(p, s)} <= c && b - {Lit(p, !s)} <= c && !Mentions(c, p)
  }

  ghost predicate Covered(g: Graph, n: Id, s: bool)
    requires n in g
  {
    g[n].links.Ants? ==> g[n].links.ant1 in g && g[n].links.ant2 in g && Covers(C(g, n), C(g, g[n].links.ant1), C(g, g[n].links.ant2), g[n].links.pivot, s)
  }

  ghost predicate Loose(g: Graph, n: Id)
    requires n in g
  {
    exists s {:trigger Covered(g, n, s)} :: Covered(g, n, s)
  }

  lemma DerivedIsLoose(g: Graph, n: Id)
    requires n in g && WellDerived(g, n) && forall m {:trigger WellFormed(g[m])} :: m in g ==> WellFormed(g[m])
    ensures Loose(g, n)
  {
    if g[n].links.Ants? {
      var a, b := g[n].links.ant1, g[n].links.ant2;
      assert WellFormed(g[a]) && WellFormed(g[b]);
      NodeNonTaut(g, a);
      NodeNonTaut(g, b);
      var s := PivotSigns(C(g, n), C(g, a), C(g, b), g[n].links.pivot);
      assert Covered(g, n, s);
    } else {
      assert Covered(g, n, true);
    }
  }

  /** A clause for `n` that follows from its antecedents and is part of the old one. */
  ghost predicate Recomputed(g: Graph, n: Id, c: seq<Lit>)
    requires n in g
  {
    && g[n].links.Ants? && g[n].links.ant1 in g && g[n].links.ant2 in g && Lits(c) <= C(g, n) && SortedVars(c)
    && Resolves(Lits(c), C(g, g[n].links.ant1), C(g, g[n].links.ant2), g[n].links.pivot)
  }

  /** With the pivot in both antecedents the merged clause is right, and part of the old one. */
  lemma MergeFits(g: Graph, n: Id)
    requires n in g && g[n].links.Ants? && Loose(g, n) && forall m {:trigger WellFormed(g[m])} :: m in g ==> WellFormed(g[m])
    requires Mentions(C(g, g[n].links.ant1), g[n].links.pivot) && Mentions(C(g, g[n].links.ant2), g[n].links.pivot)
    ensures Recomputed(g, n, Merge(g[g[n].links.ant1].clause, g[g[n].links.ant2].clause, g[n].links.pivot))
  {
    var a, b, p := g[n].links.ant1, g[n].links.ant2, g[n].links.pivot;
    var s :| Covered(g, n, s);
    assert WellFormed(g[a]) && WellFormed(g[b]) && WellFormed(g[n]);
    NodeNonTaut(g, n);
    MergedClause(g, a, b, p);
    var c := Resolvent(C(g, a), C(g, b), p);
    assert c <= C(g, n);
    assert Lit(p, s) in C(g, a) by { assert Lit(p, !s) !in C(g, a); }
    assert Lit(p, !s) in C(g, b) by { assert Lit(p, s) !in C(g, b); }
  }

  /** An antecedent without the pivot passes on its whole clause. */
  lemma KeptFits(g: Graph, n: Id, keep: Id)
    requires n in g && Loose(g, n) && IsAnt(g[n], keep) && keep in g && !Mentions(C(g, keep), g[n].links.pivot)
    ensures C(g, keep) <= C(g, n)
  {
    var s :| Covered(g, n, s);
  }

  // ---------------------------------------------------------------------------
  // What holds between two steps of the walk

  /** A visited node is derived from its antecedents. Any other node has at least what they pass on, and exactly
      that unless one of them was modified. */
  ghost predicate WalkedAt(g: Graph, visited: set<Id>, modified: set<Id>, n: Id)
    requires n in g
  {
    if n in visited then WellDerived(g, n)
    else
      && Loose(g, n)
      && (g[n].links.Ants? && g[n].links.ant1 !in modified && g[n].links.ant2 !in modified ==> WellDerived(g, n))
      && (g[n].links.Ants? && g[n].links.ant1 == g[n].links.ant2 ==> g[n].links.ant1 in visited)
  }

  /** What a visited node derives from has been visited. */
  ghost predicate DownClosed(g: Graph, visited: set<Id>) {
    forall n, a {:trigger IsAnt(g[n], a)} :: n in g && n in visited && IsAnt(g[n], a) ==> a in visited
  }

  /** Only the root and the nodes of `spare` have no resolvents. */
  ghost predicate AllServe(g: Graph, root: Id, spare: set<Id>) {
    forall n {:trigger g[n]} :: n in g && g[n].res == {} ==> n == root || n in spare
  }

  ghost predicate Sound(g: Graph, root: Id, rank: map<Id, nat>) {
    && root in g && g[root].clause == [] && g[root].res == {}
    && Linked(g) && Ranked(g, rank) && forall n {:trigger WellFormed(g[n])} :: n in g ==> WellFormed(g[n])
  }

  ghost predicate Walking(g: Graph, root: Id, rank: map<Id, nat>, visited: set<Id>, modified: set<Id>, spare: set<Id>) {
    && Sound(g, root, rank) && AllServe(g, root, spare) && DownClosed(g, visited)
    && forall n {:trigger WalkedAt(g, visited, modified, n)} :: n in g ==> WalkedAt(g, visited, modified, n)
  }

  /** The antecedents of `n` have been visited. */
  ghost predicate Ready(g: Graph, visited: set<Id>, n: Id)
    requires n in g
  {
    g[n].links.Ants? ==> g[n].links.ant1 in visited && g[n].links.ant2 in visited
  }

  /** Every node that can be visited next is in the queue. */
  ghost predicate Queued(g: Graph, visited: set<Id>, q: seq<Id>) {
    forall n {:trigger Ready(g, visited, n)} :: n in g && n !in visited && Ready(g, visited, n) ==> n in q
  }

  /** The proof is of the same clauses: its leaves are leaves of `g0`, unchanged. */
  ghost predicate LeavesFrom(g0: Graph, g: Graph) {
    forall n {:trigger g[n]} :: n in g && g[n].links.NoAnts? ==> n in g0 && g0[n].links.NoAnts? && g[n].clause == g0[n].clause && g[n].ty == g0[n].ty
  }

  /** Nothing left to visit: the graph is a refutation. */
  lemma WalkDone(g: Graph, root: Id, rank: map<Id, nat>, visited: set<Id>, modified: set<Id>)
    requires Walking(g, root, rank, visited, modified, {}) && Queued(g, visited, [])
    ensures Refutation(g, root, rank)
  {
    forall n | n in g ensures n in visited && WellDerived(g, n) {
      AllVisited(g, rank, visited, n);
      assert WalkedAt(g, visited, modified, n);
    }
  }

  lemma {:induction false} AllVisited(g: Graph, rank: map<Id, nat>, visited: set<Id>, n: Id)
    requires Ranked(g, rank) && Queued(g, visited, []) && n in g
    ensures n in visited
    decreases rank[n]
  {
    assert RankedAt(g, rank, n);
    if g[n].links.Ants? {
      AllVisited(g, rank, visited, g[n].links.ant1);
      AllVisited(g, rank, visited, g[n].links.ant2);
    }
    assert Ready(g, visited, n);
  }

  // ---------------------------------------------------------------------------
  // One node is visited

  /** A leaf, or a node whose antecedents are as they were. */
  lemma VisitUnchanged(g: Graph, root: Id, rank: map<Id, nat>, visited: set<Id>, modified: set<Id>, n: Id)
    requires Walking(g, root, rank, visited, modified, {}) && n in g && Ready(g, visited, n)
    requires g[n].links.Ants? ==> g[n].links.ant1 !in modified && g[n].links.ant2 !in modified
    ensures Walking(g, root, rank, visited + {n}, modified, {})
  {
    hide Loose;
    assert WalkedAt(g, visited, modified, n);
    forall m | m in g ensures WalkedAt(g, visited + {n}, modified, m) {
      assert WalkedAt(g, visited, modified, m);
    }
  }

  /** A node takes the merge of its antecedents. */
  lemma VisitMerged(g: Graph, root: Id, rank: map<Id, nat>, visited: set<Id>, modified: set<Id>, n: Id, c: seq<Lit>)
    requires Walking(g, root, rank, visited, modified, {}) && n in g && n !in visited && Ready(g, visited, n) && Recomputed(g, n, c)
    ensures Walking(SetClause(g, n, c), root, rank, visited + {n}, modified + {n}, {})
    ensures LeavesFrom(g, SetClause(g, n, c))
  {
    hide Sound, Recomputed, WalkedAt;
    var h := SetClause(g, n, c);
    MergedSound(g, root, rank, n, c);
    forall m | m in h ensures WalkedAt(h, visited + {n}, modified + {n}, m) {
      MergedAt(g, root, rank, visited, modified, n, c, m);
    }
    RecomputedInner(g, n, c);
  }

  lemma RecomputedInner(g: Graph, n: Id, c: seq<Lit>)
    requires n in g && Recomputed(g, n, c)
    ensures g[n].links.Ants?
  {
  }

  lemma MergedSound(g: Graph, root: Id, rank: map<Id, nat>, n: Id, c: seq<Lit>)
    requires Sound(g, root, rank) && n in g && Recomputed(g, n, c)
    ensures Sound(SetClause(g, n, c), root, rank)
  {
    hide Ranked, Linked;
    var h := SetClause(g, n, c);
    SameEdgesLinked(g, h);
    SameLinksRanked(g, h, rank);
    if n == root { HeadLit(c); assert Lits(g[n].clause) == {}; }
    forall m | m in h ensures WellFormed(h[m]) { assert WellFormed(g[m]); }
  }

  lemma SameLinksRanked(g: Graph, h: Graph, rank: map<Id, nat>)
    requires Ranked(g, rank) && h.Keys == g.Keys && forall n {:trigger h[n]} :: n in g ==> h[n].links == g[n].links
    ensures Ranked(h, rank)
  {
    forall n | n in h ensures RankedAt(h, rank, n) { assert RankedAt(g, rank, n); }
  }

  lemma MergedAt(g: Graph, root: Id, rank: map<Id, nat>, visited: set<Id>, modified: set<Id>, n: Id, c: seq<Lit>, m: Id)
    requires Sound(g, root, rank) && DownClosed(g, visited) && n in g && n !in visited && Recomputed(g, n, c)
    requires m in g && WalkedAt(g, visited, modified, m)
    ensures WalkedAt(SetClause(g, n, c), visited + {n}, modified + {n}, m)
  {
    var h := SetClause(g, n, c);
    if m == n {
      assert RankedAt(g, rank, n);
    } else if m in visited {
      assert IsAnt(g[m], n) ==> n in visited;
      DerivedFrame(g, h, m);
    } else {
      var s :| Covered(g, m, s);
      assert Covered(h, m, s);
    }
  }

  // ---------------------------------------------------------------------------
  // A step without its pivot is taken out: an antecedent takes the node's place

  /** The root after node `n` has made way for `keep`. */
  function RootAfter(root: Id, n: Id, keep: Id): Id {
    if n == root then keep else root
  }

  ghost predicate CanReplace(g: Graph, root: Id, rank: map<Id, nat>, visited: set<Id>, modified: set<Id>, n: Id, keep: Id, other: Id) {
    && Walking(g, root, rank, visited, modified, {}) && n in g && n !in visited && Ready(g, visited, n)
    && Antecedents(g[n], keep, other) && keep in g && other in g && C(g, keep) <= C(g, n)
  }

  lemma ReplaceReady(g: Graph, root: Id, rank: map<Id, nat>, visited: set<Id>, modified: set<Id>, n: Id, keep: Id, other: Id)
    requires CanReplace(g, root, rank, visited, modified, n, keep, other)
    ensures Inheritable(g, n, keep)
  {
    assert RankedAt(g, rank, n);
    forall r | r in g[n].res ensures r in g && r !in {n, keep} && IsAnt(g[r], n) && g[r].links.ant1 != g[r].links.ant2 {
      assert IsAnt(g[r], n) && RankedAt(g, rank, r);
      assert WalkedAt(g, visited, modified, r);
    }
  }

  /** When the root is visited, every other node has been. */
  lemma {:induction false} BelowRoot(g: Graph, root: Id, rank: map<Id, nat>, visited: set<Id>, n: Id, top: nat)
    requires Sound(g, root, rank) && AllServe(g, root, {}) && DownClosed(g, visited) && Ready(g, visited, root)
    requires n in g && n != root && forall m :: m in g ==> rank[m] <= top
    ensures n in visited
    decreases top - rank[n]
  {
    var r :| r in g[n].res;
    assert IsAnt(g[r], n) && RankedAt(g, rank, r);
    if r != root { BelowRoot(g, root, rank, visited, r, top); }
  }

  /** Nothing but the root derives from its empty antecedent. */
  lemma OnlyRootUses(g: Graph, root: Id, rank: map<Id, nat>, visited: set<Id>, modified: set<Id>, keep: Id)
    requires Walking(g, root, rank, visited, modified, {}) && Ready(g, visited, root)
    requires IsAnt(g[root], keep) && keep in g && C(g, keep) <= C(g, root)
    ensures g[keep].clause == [] && g[keep].res == {root}
  {
    HeadLit(g[keep].clause);
    assert Lits(g[root].clause) == {};
    var top := MaxRank(rank, rank.Keys);
    assert root in g[keep].res;
    forall r | r in g[keep].res ensures r == root {
      if r != root { UsedIsNotEmpty(g, root, rank, visited, modified, keep, r, top); }
    }
  }

  lemma UsedIsNotEmpty(g: Graph, root: Id, rank: map<Id, nat>, visited: set<Id>, modified: set<Id>, keep: Id, r: Id, top: nat)
    requires Walking(g, root, rank, visited, modified, {}) && Ready(g, visited, root)
    requires keep in g && r in g[keep].res && r != root && forall m :: m in g ==> rank[m] <= top
    ensures g[keep].clause != []
  {
    BelowRoot(g, root, rank, visited, r, top);
    assert IsAnt(g[r], keep) && WalkedAt(g, visited, modified, r);
  }

  lemma VisitReplaced(g: Graph, root: Id, rank: map<Id, nat>, visited: set<Id>, modified: set<Id>, n: Id, keep: Id, other: Id)
    requires CanReplace(g, root, rank, visited, modified, n, keep, other)
    ensures var h := Replaced(g, n, keep);
            && Walking(h, RootAfter(root, n, keep), rank, visited + {n}, modified + {keep}, if keep == other then {} else {other})
            && keep in h && other in h && LeavesFrom(g, h)
  {
    hide Linked, Loose, Replaced;
    var h, root' := Replaced(g, n, keep), RootAfter(root, n, keep);
    ReplaceReady(g, root, rank, visited, modified, n, keep, other);
    Cuts.ReplacedLinked(g, n, keep);
    ReplacedSound(g, root, rank, visited, modified, n, keep, other);
    forall m | m in h ensures WalkedAt(h, visited + {n}, modified + {keep}, m) {
      ReplacedWalked(g, root, rank, visited, modified, n, keep, other, m);
    }
    ReplacedServes(g, root, rank, visited, modified, n, keep, other);
    forall m, a {:trigger IsAnt(h[m], a)} | m in h && m in visited + {n} && IsAnt(h[m], a) ensures a in visited + {n} {
      ReplacedAt(g, n, keep, m);
      assert !IsAnt(g[m], n) && IsAnt(g[m], a);
    }
    forall m | m in h ensures m in g && (h[m].links.NoAnts? <==> g[m].links.NoAnts?) && h[m].clause == g[m].clause && h[m].ty == g[m].ty {
      ReplacedAt(g, n, keep, m);
    }
  }

  lemma ReplacedAt(g: Graph, n: Id, keep: Id, m: Id)
    requires n in g
    ensures m in Replaced(g, n, keep) <==> m in g && m != n
    ensures m in g && m != n ==>
      Replaced(g, n, keep)[m] == g[m].(links := if IsAnt(g[m], n) then Redirect(g[m].links, n, keep) else g[m].links,
                                       res := g[m].res - {n} + (if m == keep then g[n].res else {}))
  {
  }

  lemma ReplacedSound(g: Graph, root: Id, rank: map<Id, nat>, visited: set<Id>, modified: set<Id>, n: Id, keep: Id, other: Id)
    requires CanReplace(g, root, rank, visited, modified, n, keep, other)
    ensures Sound(Replaced(g, n, keep), RootAfter(root, n, keep), rank)
  {
    hide Replaced, Loose;
    var h, root' := Replaced(g, n, keep), RootAfter(root, n, keep);
    ReplaceReady(g, root, rank, visited, modified, n, keep, other);
    Cuts.ReplacedLinked(g, n, keep);
    assert RankedAt(g, rank, n);
    forall m | m in h ensures RankedAt(h, rank, m) && WellFormed(h[m]) {
      ReplacedAt(g, n, keep, m);
      assert RankedAt(g, rank, m) && WellFormed(g[m]);
      if g[m].links.Ants? {
        ReplacedAt(g, n, keep, keep);
        ReplacedAt(g, n, keep, g[m].links.ant1);
        ReplacedAt(g, n, keep, g[m].links.ant2);
        if IsAnt(g[m], n) { assert m in g[n].res; }
      }
    }
    ReplacedAt(g, n, keep, root');
    if n == root {
      OnlyRootUses(g, root, rank, visited, modified, keep);
    } else {
      assert !IsAnt(g[n], root);
    }
  }

  lemma ReplacedWalked(g: Graph, root: Id, rank: map<Id, nat>, visited: set<Id>, modified: set<Id>, n: Id, keep: Id, other: Id, m: Id)
    requires CanReplace(g, root, rank, visited, modified, n, keep, other) && m in Replaced(g, n, keep)
    requires Sound(Replaced(g, n, keep), RootAfter(root, n, keep), rank)
    ensures WalkedAt(Replaced(g, n, keep), visited + {n}, modified + {keep}, m)
  {
    hide Replaced;
    var h := Replaced(g, n, keep);
    ReplacedAt(g, n, keep, m);
    assert WalkedAt(g, visited, modified, m);
    forall a | a in h ensures a in g && h[a].clause == g[a].clause { ReplacedAt(g, n, keep, a); }
    assert RankedAt(h, rank, m);
    if m in visited {
      assert !IsAnt(g[m], n);
      DerivedFrame(g, h, m);
    } else {
      var s :| Covered(g, m, s);
      assert Covered(h, m, s);
      ReplacedAt(g, n, keep, keep);
      if !IsAnt(g[m], n) && WellDerived(g, m) { DerivedFrame(g, h, m); }
    }
  }

  lemma ReplacedServes(g: Graph, root: Id, rank: map<Id, nat>, visited: set<Id>, modified: set<Id>, n: Id, keep: Id, other: Id)
    requires CanReplace(g, root, rank, visited, modified, n, keep, other)
    ensures AllServe(Replaced(g, n, keep), RootAfter(root, n, keep), if keep == other then {} else {other})
    ensures keep in Replaced(g, n, keep) && other in Replaced(g, n, keep)
  {
    hide Replaced, Loose;
    var h, root' := Replaced(g, n, keep), RootAfter(root, n, keep);
    assert RankedAt(g, rank, n);
    ReplacedAt(g, n, keep, keep);
    ReplacedAt(g, n, keep, other);
    forall m | m in h ensures h[m].res == {} ==> m == root' || (keep != other && m == other) {
      ReplacedAt(g, n, keep, m);
      if m == keep {
        if n != root {
          var r :| r in g[n].res;
          assert r in h[m].res;
        }
      } else if m != other {
        assert n in g[m].res ==> IsAnt(g[n], m);
        assert h[m].res == g[m].res;
      }
    }
  }

  /** A node without resolvents goes, with all that only served it. */
  lemma OtherGone(g: Graph, root: Id, rank: map<Id, nat>, visited: set<Id>, modified: set<Id>, spare: set<Id>, other: Id, h: Graph)
    requires Walking(g, root, rank, visited, modified, spare) && other != root && other in g && g[other].res == {} && Cascade(g, other, h)
    ensures Walking(h, root, rank, visited, modified, spare - {other}) && LeavesFrom(g, h)
  {
    hide Linked, Ranked, Loose;
    CascadeMemberOf(g, rank, other, h, root);
    CascadeSound(g, root, rank, other, h);
    forall m | m in h ensures WalkedAt(h, visited, modified, m) {
      assert WalkedAt(g, visited, modified, m);
      CascadeAt(g, root, rank, other, h, m);
      assert h[m] == Without(g[m], g.Keys - h.Keys);
      if WellDerived(g, m) { DerivedFrame(g, h, m); }
      if m !in visited { CascadeLoose(g, root, rank, other, h, m); }
    }
    forall m, a {:trigger IsAnt(h[m], a)} | m in h && m in visited && IsAnt(h[m], a) ensures a in visited {
      assert h[m] == Without(g[m], g.Keys - h.Keys) && IsAnt(g[m], a);
    }
    forall m | m in h ensures m in g && h[m].links == g[m].links && h[m].clause == g[m].clause && h[m].ty == g[m].ty {
      assert h[m] == Without(g[m], g.Keys - h.Keys);
    }
  }

  lemma CascadeMemberOf(g: Graph, rank: map<Id, nat>, first: Id, h: Graph, n: Id)
    requires Linked(g) && Cascade(g, first, h) && n in g && n != first && g[n].res == {}
    ensures n in h
  {
    CascadeMember(g, first, h, n);
  }

  /** The antecedents of what is left are left. */
  lemma CascadeAt(g: Graph, root: Id, rank: map<Id, nat>, first: Id, h: Graph, m: Id)
    requires Sound(g, root, rank) && Cascade(g, first, h) && m in h
    ensures m in g && h[m].links == g[m].links && h[m].clause == g[m].clause
    ensures forall a {:trigger IsAnt(g[m], a)} :: IsAnt(g[m], a) ==> a in h && h[a].clause == g[a].clause
  {
    assert h[m] == Without(g[m], g.Keys - h.Keys);
    forall a | IsAnt(g[m], a) ensures a in h && h[a].clause == g[a].clause {
      assert m in g[a].res;
      assert a !in g.Keys - h.Keys;
      assert h[a] == Without(g[a], g.Keys - h.Keys);
    }
  }

  lemma CascadeLoose(g: Graph, root: Id, rank: map<Id, nat>, first: Id, h: Graph, m: Id)
    requires Sound(g, root, rank) && Cascade(g, first, h) && m in h && Loose(g, m)
    ensures Loose(h, m)
  {
    CascadeAt(g, root, rank, first, h, m);
    var s :| Covered(g, m, s);
    if g[m].links.Ants? { assert IsAnt(g[m], g[m].links.ant1) && IsAnt(g[m], g[m].links.ant2); }
    assert Covered(h, m, s);
  }

  lemma CascadeSound(g: Graph, root: Id, rank: map<Id, nat>, first: Id, h: Graph)
    requires Sound(g, root, rank) && first != root && Cascade(g, first, h)
    ensures Sound(h, root, rank)
  {
    assert ValidExcept(g, root, rank, g.Keys);
    CascadeValid(g, root, rank, g.Keys, first, h);
    CascadeMember(g, first, h, root);
    assert h[root] == Without(g[root], g.Keys - h.Keys);
  }

  // ---------------------------------------------------------------------------
  // The queue

  lemma QueueSkip(g: Graph, visited: set<Id>, q: seq<Id>)
    requires Queued(g, visited, q) && q != [] && (q[0] in g && q[0] !in visited ==> !Ready(g, visited, q[0]))
    ensures Queued(g, visited, q[1..])
  {
    forall n | n in g && n !in visited && Ready(g, visited, n) ensures n in q[1..] {
      assert n in q && n != q[0];
    }
  }

  /** Once `n` is visited, only what derived from it can have become ready. */
  lemma QueueGrown(g: Graph, visited: set<Id>, q: seq<Id>, h: Graph, more: seq<Id>)
    requires Linked(g) && Queued(g, visited, q) && q != [] && q[0] in g
    requires forall m {:trigger h[m]} :: m in h ==> m in g && (m !in g[q[0]].res ==> h[m].links == g[m].links)
    requires forall r {:trigger r in g[q[0]].res} :: r in g[q[0]].res ==> r in more
    ensures Queued(h, visited + {q[0]}, q[1..] + more)
  {
    var n := q[0];
    forall m | m in h && m !in visited + {n} && Ready(h, visited + {n}, m) ensures m in q[1..] + more {
      if m !in g[n].res {
        assert h[m].links == g[m].links && !IsAnt(g[m], n);
        assert Ready(g, visited, m);
      }
    }
  }

  // ---------------------------------------------------------------------------
  // The walk

  method Listing(s: set<Id>) returns (q: seq<Id>)
    ensures forall r {:trigger r in s} {:trigger r in q} :: r in s <==> r in q
  {
    q := [];
    var todo := s;
    while todo != {}
      invariant todo <= s && (forall r {:trigger r in s} :: r in s ==> r in q || r in todo) && forall r {:trigger r in q} :: r in q ==> r in s
      decreases |todo|
    {
      var r :| r in todo;
      q := q + [r];
      todo := todo - {r};
    }
  }

  /** The antecedent that takes the place of a node neither of whose antecedents has the pivot. */
  function ChooseReplacingAntecedent(ant1: ProofNode, ant2: ProofNode, coin: bool): bool
    reads ant1, ant2
  {
    if |ant1.resolvents| == 1 && |ant2.resolvents| > 1 then false
    else if |ant1.resolvents| > 1 && |ant2.resolvents| == 1 then true
    else if |ant1.clause| > |ant2.clause| then false
    else if |ant2.clause| > |ant1.clause| then true
    else coin
  }

  /** Only what derived from `n` has got other antecedents, and at most `n` a new clause, which is part of its old one. */
  ghost predicate TookOut(g: Graph, n: Id, h: Graph) {
    && n in g && (forall m {:trigger h[m]} :: m in h ==> m in g && (m !in g[n].res ==> h[m].links == g[m].links))
    && (forall m {:trigger h[m]} :: m in h && m in g ==> C(h, m) <= C(g, m) && (m != n ==> h[m].clause == g[m].clause))
    && forall m, a {:trigger IsAnt(h[m], a)} :: m in h && IsAnt(h[m], a) ==> IsAnt(g[m], a) || IsAnt(g[n], a)
  }

  lemma TookOutReplaced(g: Graph, n: Id, keep: Id, h: Graph)
    requires Linked(g) && n in g && IsAnt(g[n], keep)
    requires forall m {:trigger h[m]} :: m in h ==> m in Replaced(g, n, keep) && h[m].links == Replaced(g, n, keep)[m].links && h[m].clause == Replaced(g, n, keep)[m].clause
    ensures TookOut(g, n, h)
  {
    forall m | m in h ensures m in g && (m !in g[n].res ==> h[m].links == g[m].links) && h[m].clause == g[m].clause {
      assert m in Replaced(g, n, keep);
      ReplacedAt(g, n, keep, m);
      assert IsAnt(g[m], n) ==> m in g[n].res;
    }
    forall m, a {:trigger IsAnt(h[m], a)} | m in h && IsAnt(h[m], a) ensures IsAnt(g[m], a) || IsAnt(g[n], a) {
      ReplacedAt(g, n, keep, m);
    }
  }

  lemma LeavesStay(g: Graph, h: Graph, k: Graph)
    requires LeavesFrom(g, h) && LeavesFrom(h, k)
    ensures LeavesFrom(g, k)
  {
    forall n | n in k && k[n].links.NoAnts? ensures n in g && g[n].links.NoAnts? && k[n].clause == g[n].clause && k[n].ty == g[n].ty {
      assert n in h && h[n].links.NoAnts?;
    }
  }

  lemma NotSpare(g: Graph, root: Id, rank: map<Id, nat>, visited: set<Id>, modified: set<Id>, other: Id)
    requires Walking(g, root, rank, visited, modified, {other}) && other in g && g[other].res != {}
    ensures Walking(g, root, rank, visited, modified, {})
  {
  }

  lemma WalkingLinked(g: Graph, root: Id, rank: map<Id, nat>, visited: set<Id>, modified: set<Id>, spare: set<Id>)
    requires Walking(g, root, rank, visited, modified, spare)
    ensures Linked(g) && root in g
  {
  }

  /** What replacing needs of the in-place graph. */
  lemma ReplaceParts(g: Graph, root: Id, rank: map<Id, nat>, visited: set<Id>, modified: set<Id>, n: Id, keep: Id, other: Id)
    requires CanReplace(g, root, rank, visited, modified, n, keep, other)
    ensures n in g && g[n].links.Ants? && IsAnt(g[n], keep) && Linked(g) && (other != RootAfter(root, n, keep) || other == keep)
  {
    assert IsAnt(g[n], other);
    assert n in g[other].res;
  }

  /** Takes out node `n`: `keep` gets its resolvents, and the other antecedent goes if it is of no use any more. */
  method TakeOut(pg: ProofGraph, n: ProofNode, keep: ProofNode, other: ProofNode, ghost visited: set<Id>, ghost modified: set<Id>, ghost rank: map<Id, nat>)
    requires pg.Valid() && n in pg.graph && keep in pg.graph && other in pg.graph
    requires CanReplace(pg.View(), pg.root, rank, visited, modified, n.id, keep.id, other.id)
    modifies pg`graph, pg`leaves, pg`root, set m: ProofNode | m in pg.graph
    ensures pg.Valid() && Walking(pg.View(), pg.root, rank, visited + {old(n.id)}, modified + {old(keep.id)}, {})
    ensures LeavesFrom(old(pg.View()), pg.View()) && TookOut(old(pg.View()), old(n.id), pg.View())
    ensures forall m: ProofNode {:trigger m in pg.graph} :: m in pg.graph ==> m in old(pg.graph)
  {
    hide Walking, CanReplace, LeavesFrom, TookOut, Linked, Cascade, Replaced, Inheritable, pg.Valid;
    ghost var g, root := pg.View(), pg.root;
    ghost var x, y, z := n.id, keep.id, other.id;
    pg.NodeAt(n);
    pg.NodeAt(keep);
    pg.NodeAt(other);
    ReplaceReady(g, root, rank, visited, modified, x, y, z);
    VisitReplaced(g, root, rank, visited, modified, x, y, z);
    ReplaceParts(g, root, rank, visited, modified, x, y, z);
    var otherId, identical := other.id, keep == other;
    if pg.root == n.id {
      pg.SetRoot(keep.id);
    }
    pg.ReplaceNode(n, keep);
    ghost var h := pg.View();
    var useless := pg.GetNode(otherId).resolvents == {};
    if !identical && useless {
      WalkingLinked(h, pg.root, rank, visited + {x}, modified + {y}, {z});
      var removed := pg.RemoveTree(otherId);
      OtherGone(h, pg.root, rank, visited + {x}, modified + {y}, {z}, z, pg.View());
      assert {z} - {z} == {};
      LeavesStay(g, h, pg.View());
    } else if !identical {
      NotSpare(h, pg.root, rank, visited + {x}, modified + {y}, z);
    }
    SubLinks(h, z, pg.View());
    TookOutReplaced(g, x, y, pg.View());
  }

  lemma SubLinks(h: Graph, first: Id, k: Graph)
    requires k == h || Cascade(h, first, k)
    ensures forall m {:trigger k[m]} :: m in k ==> m in h && k[m].links == h[m].links && k[m].clause == h[m].clause
  {
  }

  lemma FormedAt(g: Graph, root: Id, rank: map<Id, nat>, visited: set<Id>, modified: set<Id>, n: Id)
    requires Walking(g, root, rank, visited, modified, {}) && n in g
    ensures SortedVars(g[n].clause) && SortedLits(g[n].clause)
    ensures g[n].links.Ants? ==> g[n].links.ant1 in g && g[n].links.ant2 in g
    ensures n !in visited ==> Loose(g, n)
  {
    assert WellFormed(g[n]) && RankedAt(g, rank, n) && WalkedAt(g, visited, modified, n);
    SortedVarsFacts(g[n].clause);
  }

  lemma MergeAgain(g: Graph, root: Id, rank: map<Id, nat>, visited: set<Id>, modified: set<Id>, n: Id)
    requires Walking(g, root, rank, visited, modified, {}) && n in g && n !in visited && g[n].links.Ants?
    requires g[n].links.ant1 in g && g[n].links.ant2 in g
    requires Mentions(C(g, g[n].links.ant1), g[n].links.pivot) && Mentions(C(g, g[n].links.ant2), g[n].links.pivot)
    ensures Recomputed(g, n, Merge(g[g[n].links.ant1].clause, g[g[n].links.ant2].clause, g[n].links.pivot))
  {
    hide Merge, Linked, Loose, Ranked;
    assert WalkedAt(g, visited, modified, n);
    MergeFits(g, n);
  }

  lemma MayReplace(g: Graph, root: Id, rank: map<Id, nat>, visited: set<Id>, modified: set<Id>, n: Id, keep: Id, other: Id)
    requires Walking(g, root, rank, visited, modified, {}) && n in g && n !in visited && Ready(g, visited, n)
    requires Antecedents(g[n], keep, other) && keep in g && other in g && !Mentions(C(g, keep), g[n].links.pivot)
    ensures CanReplace(g, root, rank, visited, modified, n, keep, other)
  {
    hide Loose, Linked, Ranked;
    assert WalkedAt(g, visited, modified, n);
    KeptFits(g, n, keep);
  }

  /** What a visit does to the links. */
  lemma TookOutNothing(g: Graph, n: Id, c: seq<Lit>)
    requires n in g
    ensures TookOut(g, n, g) && LeavesFrom(g, g)
    ensures Lits(c) <= C(g, n) ==> TookOut(g, n, SetClause(g, n, c))
  {
  }

  lemma RecomputedShorter(g: Graph, n: Id, c: seq<Lit>)
    requires n in g && Recomputed(g, n, c)
    ensures Lits(c) <= C(g, n)
  {
  }

  /** Visits an inner node: its clause is merged again if an antecedent was modified, and if an antecedent has lost
      the pivot, the node is taken out. */
  method Visit(pg: ProofGraph, n: ProofNode, visited2: set<Id>, coin: bool, ghost visited1: set<Id>, ghost rank: map<Id, nat>) returns (modified: set<Id>)
    requires pg.Valid() && n in pg.graph && n.ant1 != null && n.id !in visited1
    requires Walking(pg.View(), pg.root, rank, visited1, visited2, {}) && n.id in pg.View() && Ready(pg.View(), visited1, n.id)
    modifies pg`graph, pg`leaves, pg`root, set m: ProofNode | m in pg.graph
    ensures pg.Valid() && Walking(pg.View(), pg.root, rank, visited1 + {old(n.id)}, modified, {})
    ensures LeavesFrom(old(pg.View()), pg.View()) && TookOut(old(pg.View()), old(n.id), pg.View())
    ensures forall m: ProofNode {:trigger m in pg.graph} :: m in pg.graph ==> m in old(pg.graph)
  {
    hide Walking, CanReplace, LeavesFrom, TookOut, Linked, Recomputed, Loose, SortedVars, SortedLits, Mentions, Merge, pg.Valid, pg.View;
    ghost var g, root, x := pg.View(), pg.root, n.id;
    pg.NodeAt(n);
    var ant1, ant2 := n.ant1, n.ant2;
    pg.NodeAt(ant1);
    pg.NodeAt(ant2);
    FormedAt(g, root, rank, visited1, visited2, x);
    FormedAt(g, root, rank, visited1, visited2, ant1.id);
    FormedAt(g, root, rank, visited1, visited2, ant2.id);
    modified := visited2;
    var f1 := HasOccurrenceBin(ant1.clause, n.pivot);
    var f2 := HasOccurrenceBin(ant2.clause, n.pivot);
    Occurs(ant1.clause, n.pivot, f1);
    Occurs(ant2.clause, n.pivot, f2);
    if f1 != Absent && f2 != Absent {
      if ant1.id in visited2 || ant2.id in visited2 {
        MergeAgain(g, root, rank, visited1, visited2, x);
        var c := MergeClauses(ant1.clause, ant2.clause, n.pivot);
        RecomputedShorter(g, x, c);
        TookOutNothing(g, x, c);
        VisitMerged(g, root, rank, visited1, visited2, x, c);
        pg.PutClause(n, c);
        modified := visited2 + {n.id};
      } else {
        TookOutNothing(g, x, n.clause);
        VisitUnchanged(g, root, rank, visited1, visited2, x);
      }
    } else {
      var chooseAnt1 := if f1 == Absent && f2 == Absent then ChooseReplacingAntecedent(ant1, ant2, coin) else f1 == Absent;
      var keep, other := if chooseAnt1 then ant1 else ant2, if chooseAnt1 then ant2 else ant1;
      MayReplace(g, root, rank, visited1, visited2, x, keep.id, other.id);
      modified := visited2 + {keep.id};
      TakeOut(pg, n, keep, other, visited1, visited2, rank);
    }
  }

  lemma Occurs(c: seq<Lit>, p: Var, f: Occurrence)
    requires (f == Positive <==> Lit(p, false) in Lits(c)) && (f == Negative <==> Lit(p, true) in Lits(c))
    ensures f == Absent <==> !Mentions(Lits(c), p)
  {
  }

  /** Whether a queue entry is to be visited: it is still there, new, and its antecedents have been visited. */
  function ToVisit(pg: ProofGraph, id: Id, visited: set<Id>): (b: bool)
    requires pg.Valid()
    reads pg, pg.graph
    ensures b <==> id in pg.View() && id !in visited && Ready(pg.View(), visited, id)
  {
    var n := pg.Find(id);
    if n == null || id in visited then false
    else
      pg.NodeAt(n);
      n.ant1 == null || (pg.NodeAt(n.ant1); pg.NodeAt(n.ant2); n.ant1.id in visited && n.ant2.id in visited)
  }

  /** Visits the node at the front of the queue, and queues what derives from it. */
  method VisitFront(pg: ProofGraph, ghost visited1: set<Id>, visited2: set<Id>, q: seq<Id>, coin: bool, ghost rank: map<Id, nat>)
    returns (modified: set<Id>, rest: seq<Id>)
    requires pg.Valid() && Walking(pg.View(), pg.root, rank, visited1, visited2, {}) && Queued(pg.View(), visited1, q)
    requires q != [] && ToVisit(pg, q[0], visited1)
    modifies pg`graph, pg`leaves, pg`root, set m: ProofNode | m in pg.graph
    ensures pg.Valid() && Walking(pg.View(), pg.root, rank, visited1 + {q[0]}, modified, {}) && Queued(pg.View(), visited1 + {q[0]}, rest)
    ensures LeavesFrom(old(pg.View()), pg.View()) && TookOut(old(pg.View()), q[0], pg.View())
    ensures forall r {:trigger r in rest} :: r in rest ==> r in q || r in old(pg.View())[q[0]].res
    ensures forall m: ProofNode {:trigger m in pg.graph} :: m in pg.graph ==> m in old(pg.graph)
  {
    hide Walking, LeavesFrom, TookOut, Linked, Queued, Ready, pg.Valid, pg.View;
    ghost var g, root := pg.View(), pg.root;
    var n := pg.GetNode(q[0]);
    var more := Listing(n.resolvents);
    modified := visited2;
    WalkingLinked(g, root, rank, visited1, visited2, {});
    if n.ant1 == null {
      TookOutNothing(g, q[0], n.clause);
      VisitUnchanged(g, root, rank, visited1, visited2, q[0]);
    } else {
      modified := Visit(pg, n, visited2, coin, visited1, rank);
    }
    QueueMore(g, root, rank, visited1, visited2, q, pg.View(), more);
    rest := q[1..] + more;
  }

  /** Nodes made by a rule are not marked as visited, but only visited nodes derive from them and the queue does not
      hold them. */
  ghost predicate Unmarked(g: Graph, visited: set<Id>, made: set<Id>, q: seq<Id>) {
    && (forall n, a {:trigger IsAnt(g[n], a)} :: n in g && a in made && IsAnt(g[n], a) ==> n in visited + made)
    && forall n {:trigger n in q} :: n in q ==> n !in made
  }

  lemma SameToVisit(g: Graph, visited: set<Id>, made: set<Id>, q: seq<Id>)
    requires Unmarked(g, visited, made, q) && q != []
    ensures q[0] in g && q[0] !in visited ==> (Ready(g, visited, q[0]) <==> Ready(g, visited + made, q[0])) && q[0] !in visited + made
  {
    var n := q[0];
    assert n in q;
    if n in g && n !in visited && g[n].links.Ants? {
      assert IsAnt(g[n], g[n].links.ant1) && IsAnt(g[n], g[n].links.ant2);
    }
  }

  lemma UnmarkedMore(g: Graph, visited: set<Id>, made: set<Id>, q: seq<Id>, h: Graph, rest: seq<Id>)
    requires Linked(g) && Unmarked(g, visited, made, q) && DownClosed(g, visited + made) && q != [] && q[0] !in visited + made && TookOut(g, q[0], h)
    requires forall r {:trigger r in rest} :: r in rest ==> r in q || r in g[q[0]].res
    ensures Unmarked(h, visited + {q[0]}, made, rest)
  {
    var id := q[0];
    assert id in q;
    forall r | r in rest ensures r !in made {
      if r in g[id].res { assert IsAnt(g[r], id); }
    }
    forall n, a {:trigger IsAnt(h[n], a)} | n in h && a in made && IsAnt(h[n], a) ensures n in visited + {id} + made {
      assert !IsAnt(g[id], a);
      assert IsAnt(g[n], a);
    }
  }

  /** What restructuring makes of `h`: no node is new, no clause grows, and what had been visited is as it was. */
  ghost predicate Repaired(h: Graph, visited: set<Id>, k: Graph) {
    forall n {:trigger k[n]} :: n in k ==> n in h && C(k, n) <= C(h, n) && (n in visited ==> k[n].clause == h[n].clause && k[n].links == h[n].links)
  }

  lemma RepairedMore(h: Graph, before: set<Id>, g: Graph, visited: set<Id>, n: Id, k: Graph)
    requires Repaired(h, before, g) && before <= visited && Linked(g) && DownClosed(g, visited) && n !in visited && TookOut(g, n, k)
    ensures Repaired(h, before, k)
  {
    forall m | m in k ensures m in h && C(k, m) <= C(h, m) && (m in before ==> k[m].clause == h[m].clause && k[m].links == h[m].links) {
      assert m in g;
      NotVisitedBelow(g, visited, n, m);
    }
  }

  lemma NotVisitedBelow(g: Graph, visited: set<Id>, n: Id, m: Id)
    requires Linked(g) && DownClosed(g, visited) && n in g && n !in visited && m in g
    ensures m in visited ==> m !in g[n].res
  {
  }

  lemma RepairedStart(h: Graph, visited: set<Id>)
    ensures Repaired(h, visited, h)
  {
  }

  /** The rest of a traversal that applies no further rule. `visited1` are the nodes visited so far, `visited2` those
      with a new clause, and `queue` the nodes that may be next. What comes out is a refutation of the same clauses. */
  method FinishTraversal(pg: ProofGraph, visited1: set<Id>, visited2: set<Id>, queue: seq<Id>, coin: Id -> bool, ghost made: set<Id>, ghost rank: map<Id, nat>)
    requires pg.Valid() && Walking(pg.View(), pg.root, rank, visited1 + made, visited2, {}) && Queued(pg.View(), visited1 + made, queue)
    requires Unmarked(pg.View(), visited1, made, queue)
    modifies pg`graph, pg`leaves, pg`root, set m: ProofNode | m in pg.graph
    ensures pg.Valid() && Refutation(pg.View(), pg.root, rank) && AllServe(pg.View(), pg.root, {})
    ensures LeavesFrom(old(pg.View()), pg.View()) && Repaired(old(pg.View()), visited1 + made, pg.View())
  {
    hide Repaired, Walking, LeavesFrom, TookOut, Queued, Ready, Unmarked, Refutation, AllServe, pg.Valid, pg.View;
    ghost var g0 := pg.View();
    var visited, modified, q := visited1, visited2, queue;
    LeavesStart(g0);
    RepairedStart(g0, visited1 + made);
    while q != []
      invariant pg.Valid() && Walking(pg.View(), pg.root, rank, visited + made, modified, {}) && Queued(pg.View(), visited + made, q)
      invariant LeavesFrom(g0, pg.View()) && Unmarked(pg.View(), visited, made, q)
      invariant visited1 <= visited && Repaired(g0, visited1 + made, pg.View())
      invariant forall m: ProofNode {:trigger m in pg.graph} :: m in pg.graph ==> m in old(pg.graph)
      decreases |pg.View().Keys - (visited + made)|, |q|
    {
      ghost var g, before := pg.View(), q;
      SameToVisit(g, visited, made, q);
      if ToVisit(pg, q[0], visited) {
        var id := q[0];
        WalkingParts(g, pg.root, rank, visited + made, modified);
        modified, q := VisitFront(pg, visited + made, modified, q, coin(id), rank);
        LeavesStay(g0, g, pg.View());
        RepairedMore(g0, visited1 + made, g, visited + made, id, pg.View());
        Shrinks(g, visited + made, id, pg.View());
        UnmarkedMore(g, visited, made, before, pg.View(), q);
        assert visited + made + {id} == visited + {id} + made;
        visited := visited + {id};
      } else {
        QueueSkip(g, visited + made, q);
        UnmarkedLess(g, visited, made, q);
        q := q[1..];
      }
    }
    WalkDone(pg.View(), pg.root, rank, visited + made, modified);
    WalkServes(pg.View(), pg.root, rank, visited + made, modified);
  }

  lemma UnmarkedLess(g: Graph, visited: set<Id>, made: set<Id>, q: seq<Id>)
    requires Unmarked(g, visited, made, q) && q != []
    ensures Unmarked(g, visited, made, q[1..])
  {
    forall n | n in q[1..] ensures n !in made { assert n in q; }
  }

  lemma WalkingParts(g: Graph, root: Id, rank: map<Id, nat>, visited: set<Id>, modified: set<Id>)
    requires Walking(g, root, rank, visited, modified, {})
    ensures Linked(g) && DownClosed(g, visited)
  {
  }

  lemma LeavesStart(g: Graph)
    ensures LeavesFrom(g, g)
  {
  }

  lemma QueueMore(g: Graph, root: Id, rank: map<Id, nat>, visited: set<Id>, modified: set<Id>, q: seq<Id>, h: Graph, more: seq<Id>)
    requires Linked(g) && Queued(g, visited, q) && q != [] && q[0] in g && TookOut(g, q[0], h)
    requires forall r {:trigger r in g[q[0]].res} :: r in g[q[0]].res ==> r in more
    ensures Queued(h, visited + {q[0]}, q[1..] + more)
  {
    hide Linked, Queued;
    QueueGrown(g, visited, q, h, more);
  }

  lemma Shrinks(g: Graph, visited: set<Id>, n: Id, h: Graph)
    requires n in g && n !in visited && TookOut(g, n, h)
    ensures |h.Keys - (visited + {n})| < |g.Keys - visited|
  {
    var a, b := h.Keys - (visited + {n}), g.Keys - visited - {n};
    assert a <= b;
    SmallerSet(a, b);
  }

  lemma {:induction false} SmallerSet(a: set<Id>, b: set<Id>)
    requires a <= b
    ensures |a| <= |b|
  {
    if a != {} {
      var x :| x in a;
      SmallerSet(a - {x}, b - {x});
    }
  }

  lemma WalkServes(g: Graph, root: Id, rank: map<Id, nat>, visited: set<Id>, modified: set<Id>)
    requires Walking(g, root, rank, visited, modified, {})
    ensures AllServe(g, root, {})
  {
  }
}
