/** The traversal that transforms a proof: from the leaves on, until a heuristic picks a rule; the rule, with w
    duplicated where it has to be; and the rest of the traversal. */
module Traversals {
  import opened Clauses
  import opened Proofs
  import opened Rules
  import opened Cuts
  import opened Contexts
  import opened ProofGraphs
  import opened Restructuring

  // ---------------------------------------------------------------------------
  // A cut rule in the middle of a traversal

  /** The rules that leave a shorter clause in v's place. */
  predicate Shortens(t: RuleType) {
    t == B1 || t == B2 || t == B2Prime || t == B3
  }

  /** What a cut rule leaves alone: other nodes keep their clauses, and their links up to v's heir. */
  ghost predicate KeptAt(g: Graph, root: Id, c: Context, h: Graph, m: Id)
    requires Shape(g, c) && m in h
  {
    && m in g && h[m].ty == g[m].ty && (h[m].res == {} ==> m == root)
    && (if m in {c.v, c.w} then forall a {:trigger IsAnt(h[m], a)} :: IsAnt(h[m], a) ==> a in {c.v1, c.v2, c.v3, c.w}
        else h[m].clause == g[m].clause && h[m].links == if IsAnt(g[m], c.v) then Redirect(g[m].links, c.v, Heir(c)) else g[m].links)
    && (m == c.w ==> h[m].clause == g[m].clause || g[c.w].res == {c.v})
    && (h[m].links.NoAnts? <==> g[m].links.NoAnts?)
  }

  lemma CutKept(g: Graph, root: Id, rank: map<Id, nat>, c: Context, h: Graph, m: Id)
    requires Refutation(g, root, rank) && Enabled(g, c) && (c.ty == B1 || c.ty == B2Prime) && CutResult(g, c, h)
    requires AllServe(g, root, {}) && m in h
    ensures KeptAt(g, root, c, h, m)
  {
    hide Shortcut, Linked, Ranked, RuleCondition;
    CutFacts(g, root, rank, c);
    var s := Shortcut(g, c);
    if g[c.w].res == {c.v} { assert h[m] == Without(s[m], s.Keys - h.Keys); }
    ShortcutAt(g, c, c.w);
    ShortcutAt(g, c, m);
    assert g[c.w].res != {} by { UsedByV(g, c); }
  }

  lemma UsedByV(g: Graph, c: Context)
    requires Linked(g) && Shape(g, c)
    ensures c.v in g[c.w].res && forall m {:trigger g[m]} :: m in g && c.v in g[m].res ==> m in {c.w, c.v3}
  {
    assert IsAnt(g[c.v], c.w);
  }

  lemma B2Kept(g: Graph, root: Id, rank: map<Id, nat>, c: Context, m: Id)
    requires Refutation(g, root, rank) && Enabled(g, c) && c.ty == B2 && g[c.w].res == {c.v}
    requires AllServe(g, root, {}) && m in ApplyB2(g, c)
    ensures KeptAt(g, root, c, ApplyB2(g, c), m)
  {
    hide Rotate, Linked, Ranked, Merge;
    ContextDistinct(g, root, rank, c);
    B2Merge(g, root, rank, c);
    RotateAt(g, c, c.v3, [], c.v);
    RotateAt(g, c, c.v3, [], m);
    RotateFields(g, c, c.v3, [], m);
  }

  lemma B3Kept(g: Graph, root: Id, rank: map<Id, nat>, c: Context, mid: Graph, h: Graph, m: Id)
    requires Refutation(g, root, rank) && Enabled(g, c) && c.ty == B3 && g[c.v].res != {} && B3Result(g, c, mid, h)
    requires AllServe(g, root, {}) && m in h
    ensures KeptAt(g, root, c, h, m)
  {
    hide Replaced, Linked, Ranked, RuleCondition;
    B3Facts(g, root, rank, c);
    var s := Replaced(g, c.v, c.v2);
    if mid[c.v3].res == {} { assert h[m] == Without(mid[m], mid.Keys - h.Keys); }
    if g[c.w].res == {c.v} { assert mid[m] == Without(s[m], s.Keys - mid.Keys); }
    ReplacedAt(g, c.v, c.v2, m);
    ReplacedAt(g, c.v, c.v2, c.w);
    UsedByV(g, c);
    assert h[m].res == {} ==> m != c.v3 && mid[m].res == {};
    assert mid[m].res == {} ==> m != c.w && s[m].res == {};
    assert m !in {c.w, c.v3} ==> g[m].res - {c.v} == g[m].res;
  }

  /** A node whose antecedents are as before, but for a shorter clause in v's place. */
  lemma StaleLoose(g: Graph, root: Id, rank: map<Id, nat>, c: Context, h: Graph, m: Id)
    requires ValidExcept(g, root, rank, {}) && Shape(g, c) && Distinct(c) && m in g[c.v].res && m in h && KeptAt(g, root, c, h, m)
    requires Linked(h) && forall a {:trigger h[a]} :: a in h ==> KeptAt(g, root, c, h, a)
    requires Heir(c) in h && C(h, Heir(c)) <= C(g, c.v) && (Heir(c) == c.v || c.v !in h)
    ensures Loose(h, m) && IsAnt(h[m], Heir(c)) && h[m].links.Ants?
  {
    hide Ranked;
    assert IsAnt(g[m], c.v) && WellDerived(g, m) && m !in {c.v, c.w} by { NotBelowV(g, root, rank, c, m); }
    DerivedIsLoose(g, m);
    AntsApart(g, m);
    var s :| Covered(g, m, s);
    var o := Other(g[m], c.v);
    assert IsAnt(h[m], o) && IsAnt(g[m], o);
    assert o in h && KeptAt(g, root, c, h, o);
    assert h[o].clause == g[o].clause by { if o == c.w { assert m in g[c.w].res; } }
    assert Covered(h, m, s);
  }

  lemma NotBelowV(g: Graph, root: Id, rank: map<Id, nat>, c: Context, m: Id)
    requires ValidExcept(g, root, rank, {}) && Shape(g, c) && m in g && IsAnt(g[m], c.v)
    ensures m !in {c.v, c.w, c.v1, c.v2, c.v3}
  {
    assert RankedAt(g, rank, m) && RankedAt(g, rank, c.v) && RankedAt(g, rank, c.w);
  }

  lemma AntsApart(g: Graph, n: Id)
    requires n in g && WellDerived(g, n) && g[n].links.Ants? && forall m {:trigger WellFormed(g[m])} :: m in g ==> WellFormed(g[m])
    ensures g[n].links.ant1 != g[n].links.ant2
  {
    assert WellFormed(g[g[n].links.ant1]);
    NodeNonTaut(g, g[n].links.ant1);
    assert forall p: Var, b: bool {:trigger Lit(p, b)} :: Negate(Lit(p, b)) == Lit(p, !b);
  }

  /** A cut rule was applied to `g` in the middle of a traversal, right after v had been visited. */
  ghost predicate JustCut(g: Graph, root: Id, rank: map<Id, nat>, visited: set<Id>, c: Context, h: Graph, rank': map<Id, nat>) {
    && Refutation(g, root, rank) && Enabled(g, c) && Shortens(c.ty) && (c.ty == B2 ==> g[c.w].res == {c.v}) && (c.ty == B3 ==> g[c.v].res != {})
    && AllServe(g, root, {}) && DownClosed(g, visited) && c.v in visited && g[c.v].res !! visited
    && Outcome(g, root, c, h, rank') && Applied(g, c, 0, h)
  }

  lemma JustKept(g: Graph, root: Id, rank: map<Id, nat>, visited: set<Id>, c: Context, h: Graph, rank': map<Id, nat>, m: Id)
    requires JustCut(g, root, rank, visited, c, h, rank') && m in h
    ensures KeptAt(g, root, c, h, m)
  {
    hide Outcome, Refutation, KeptAt, CutResult, B3Result, ApplyB2, RuleCondition;
    if c.ty == B2 {
      B2Kept(g, root, rank, c, m);
    } else if c.ty == B3 {
      var mid :| B3Result(g, c, mid, h);
      B3Kept(g, root, rank, c, mid, h, m);
    } else {
      CutKept(g, root, rank, c, h, m);
    }
  }

  lemma JustParts(g: Graph, root: Id, rank: map<Id, nat>, visited: set<Id>, c: Context, h: Graph, rank': map<Id, nat>)
    requires JustCut(g, root, rank, visited, c, h, rank')
    ensures ValidExcept(g, root, rank, {}) && ValidExcept(h, root, rank', g[c.v].res) && h[root].clause == []
    ensures Shape(g, c) && Distinct(c) && Linked(g) && Linked(h)
    ensures Heir(c) in h && C(h, Heir(c)) <= C(g, c.v) && (Heir(c) == c.v || c.v !in h)
    ensures {c.v1, c.v2, c.v3, c.w, c.v} <= visited
  {
    hide WellDerived, Linked, Applied;
    EnabledApplies(g, c);
    EnabledMentions(g, c);
    ContextDistinct(g, root, rank, c);
    assert IsAnt(g[c.v], c.w) && IsAnt(g[c.v], c.v3) && IsAnt(g[c.w], c.v1) && IsAnt(g[c.w], c.v2);
  }

  lemma EnabledMentions(g: Graph, c: Context)
    requires Applicable(g, c)
    ensures Shape(g, c) && Mentions(C(g, c.v1), T1(g, c))
  {
  }

  lemma CutServes(g: Graph, root: Id, c: Context, h: Graph)
    requires Shape(g, c) && root in h && forall m {:trigger KeptAt(g, root, c, h, m)} :: m in h ==> KeptAt(g, root, c, h, m)
    ensures AllServe(h, root, {})
  {
    forall m | m in h && h[m].res == {} ensures m == root { assert KeptAt(g, root, c, h, m); }
  }

  lemma CutClosed(g: Graph, root: Id, rank: map<Id, nat>, visited: set<Id>, c: Context, h: Graph, rank': map<Id, nat>)
    requires JustCut(g, root, rank, visited, c, h, rank')
    requires Shape(g, c) && forall m {:trigger KeptAt(g, root, c, h, m)} :: m in h ==> KeptAt(g, root, c, h, m)
    ensures DownClosed(h, visited)
  {
    JustParts(g, root, rank, visited, c, h, rank');
    hide Outcome, Applied, Enabled, ValidExcept, Refutation;
    forall m, a {:trigger IsAnt(h[m], a)} | m in h && m in visited && IsAnt(h[m], a) ensures a in visited {
      assert KeptAt(g, root, c, h, m);
      if m !in {c.v, c.w} {
        assert !IsAnt(g[m], c.v) && IsAnt(g[m], a);
      }
    }
  }

  lemma CutWalkedAt(g: Graph, root: Id, rank: map<Id, nat>, visited: set<Id>, c: Context, h: Graph, rank': map<Id, nat>, m: Id)
    requires JustCut(g, root, rank, visited, c, h, rank') && m in h
    requires Shape(g, c) && forall m {:trigger KeptAt(g, root, c, h, m)} :: m in h ==> KeptAt(g, root, c, h, m)
    ensures WalkedAt(h, visited, {Heir(c)}, m)
  {
    JustParts(g, root, rank, visited, c, h, rank');
    hide JustCut, Linked, Ranked, KeptAt, Loose;
    if m in g[c.v].res {
      HeirVisited(g, root, rank, visited, c, h, rank', m);
      StaleLoose(g, root, rank, c, h, m);
    } else {
      assert WellDerived(h, m);
      DerivedIsLoose(h, m);
      if h[m].links.Ants? { AntsApart(h, m); }
    }
  }

  lemma HeirVisited(g: Graph, root: Id, rank: map<Id, nat>, visited: set<Id>, c: Context, h: Graph, rank': map<Id, nat>, m: Id)
    requires JustCut(g, root, rank, visited, c, h, rank') && m in g[c.v].res
    ensures m !in visited && Heir(c) in visited
  {
    JustParts(g, root, rank, visited, c, h, rank');
  }

  lemma CutLeaves(g: Graph, root: Id, rank: map<Id, nat>, visited: set<Id>, c: Context, h: Graph, rank': map<Id, nat>)
    requires JustCut(g, root, rank, visited, c, h, rank')
    requires Shape(g, c) && forall m {:trigger KeptAt(g, root, c, h, m)} :: m in h ==> KeptAt(g, root, c, h, m)
    ensures LeavesFrom(g, h)
  {
    hide JustCut;
    forall n | n in h && h[n].links.NoAnts? ensures n in g && g[n].links.NoAnts? && h[n].clause == g[n].clause && h[n].ty == g[n].ty {
      assert KeptAt(g, root, c, h, n);
    }
  }

  lemma CutQueued(g: Graph, root: Id, rank: map<Id, nat>, visited: set<Id>, c: Context, h: Graph, rank': map<Id, nat>, q: seq<Id>)
    requires JustCut(g, root, rank, visited, c, h, rank') && Queued(g, visited, q)
    ensures Queued(h, visited, q)
  {
    JustParts(g, root, rank, visited, c, h, rank');
    hide JustCut, Linked, Ranked, ValidExcept, KeptAt, Ready, Distinct;
    forall m | m in h && m !in visited && Ready(h, visited, m) ensures m in q {
      JustKept(g, root, rank, visited, c, h, rank', m);
      ReadyBefore(g, root, c, h, visited, m);
      assert Ready(g, visited, m);
    }
  }

  lemma ReadyBefore(g: Graph, root: Id, c: Context, h: Graph, visited: set<Id>, m: Id)
    requires Shape(g, c) && {c.v1, c.v2, c.v3, c.w, c.v} <= visited && m in h && m !in visited && KeptAt(g, root, c, h, m) && Ready(h, visited, m)
    ensures m in g && Ready(g, visited, m)
  {
  }

  /** Nothing derives from the root. */
  lemma RootStays(g: Graph, root: Id, rank: map<Id, nat>, visited: set<Id>, c: Context, h: Graph, rank': map<Id, nat>)
    requires JustCut(g, root, rank, visited, c, h, rank')
    requires Shape(g, c) && forall m {:trigger KeptAt(g, root, c, h, m)} :: m in h ==> KeptAt(g, root, c, h, m)
    ensures root in h && h[root].res == {}
  {
    JustParts(g, root, rank, visited, c, h, rank');
    RootOnTop(g, root, rank);
    NotTheRoot(g, root, c);
    assert root != c.v by { OutcomeNotEmpty(g, root, c, h, rank'); }
    hide JustCut, Ranked, ValidExcept, WellDerived, Enabled, Outcome, Applied;
    forall r ensures r !in h[root].res {
      if r in h[root].res {
        assert IsAnt(h[r], root) && KeptAt(g, root, c, h, r);
        UsedBefore(g, root, c, h, r);
      }
    }
  }

  lemma UsedBefore(g: Graph, root: Id, c: Context, h: Graph, r: Id)
    requires Shape(g, c) && r in h && KeptAt(g, root, c, h, r) && IsAnt(h[r], root) && root !in {c.v1, c.v2, c.v3, c.w, c.v}
    ensures r in g && IsAnt(g[r], root)
  {
  }

  lemma OutcomeNotEmpty(g: Graph, root: Id, c: Context, h: Graph, rank: map<Id, nat>)
    requires root in g && g[root].clause == []
    requires Shortens(c.ty) && Outcome(g, root, c, h, rank)
    ensures root != c.v
  {
  }

  lemma NotTheRoot(g: Graph, root: Id, c: Context)
    requires Linked(g) && Shape(g, c) && root in g && g[root].res == {}
    ensures root !in {c.v1, c.v2, c.v3, c.w}
  {
    assert IsAnt(g[c.v], c.w) && IsAnt(g[c.v], c.v3) && IsAnt(g[c.w], c.v1) && IsAnt(g[c.w], c.v2);
  }

  /** The traversal can go on: only v's heir counts as modified. */
  lemma CutWalks(g: Graph, root: Id, rank: map<Id, nat>, visited: set<Id>, c: Context, h: Graph, rank': map<Id, nat>)
    requires JustCut(g, root, rank, visited, c, h, rank')
    ensures Walking(h, root, rank', visited, {Heir(c)}, {}) && LeavesFrom(g, h)
  {
    hide JustCut, KeptAt, Loose, Linked, Ranked, WellDerived;
    JustParts(g, root, rank, visited, c, h, rank');
    forall m | m in h ensures KeptAt(g, root, c, h, m) { JustKept(g, root, rank, visited, c, h, rank', m); }
    CutServes(g, root, c, h);
    RootStays(g, root, rank, visited, c, h, rank');
    CutClosed(g, root, rank, visited, c, h, rank');
    forall m | m in h ensures WalkedAt(h, visited, {Heir(c)}, m) {
      CutWalkedAt(g, root, rank, visited, c, h, rank', m);
    }
    CutLeaves(g, root, rank, visited, c, h, rank');
  }

  // ---------------------------------------------------------------------------
  // Any rule, and the rest of the traversal

  /** A node that a rule does not orphan, and that is a leaf only if it was one. */
  ghost predicate ServesAt(g: Graph, root: Id, h: Graph, m: Id)
    requires m in h
  {
    && (h[m].res == {} ==> m == root)
    && (h[m].links.NoAnts? ==> m in g && g[m].links.NoAnts? && h[m].clause == g[m].clause && h[m].ty == g[m].ty)
  }

  lemma RotateServes(g: Graph, root: Id, c: Context, x: Id, m: Id)
    requires Linked(g) && Shape(g, c) && Distinct(c) && g[c.w].res == {c.v} && x in g && x !in {c.v1, c.v2, c.w, c.v}
    requires AllServe(g, root, {}) && m in g
    ensures m in Rotate(g, c, x, g[c.v].clause)
    ensures m != c.v3 || m == x ==> ServesAt(g, root, Rotate(g, c, x, g[c.v].clause), m)
  {
    hide Rotate, Merge;
    RotateAt(g, c, x, g[c.v].clause, m);
    RotateFields(g, c, x, g[c.v].clause, m);
  }

  lemma A1Serves(g: Graph, root: Id, c: Context, y: Id, m: Id)
    requires Linked(g) && Shape(g, c) && Distinct(c) && g[c.w].res == {c.v} && y !in g
    requires AllServe(g, root, {}) && m in ApplyA1(g, c, y)
    ensures ServesAt(g, root, ApplyA1(g, c, y), m)
  {
    hide Merge, Linked;
    A1Pointwise(g, c, y, y);
    A1Pointwise(g, c, y, m);
    A1Resolvents(g, c, y, m);
  }

  lemma A1Resolvents(g: Graph, c: Context, y: Id, m: Id)
    requires Shape(g, c) && Distinct(c) && y !in g && (m in g || m == y)
    ensures m in ApplyA1(g, c, y)
    ensures ApplyA1(g, c, y)[m].res ==
            if m == y then {c.v} else if m == c.v2 then g[m].res + {y} - {c.w}
            else if m == c.v3 then g[m].res + {y} + {c.w} - {c.v} else g[m].res
  {
    var g1 := AddNode(g, y, Merge(g[c.v2].clause, g[c.v3].clause, T1(g, c)), T1(g, c), c.v2, c.v3);
    var g2 := Rewire(g1, c.w, c.v2, c.v3);
    RewireAt(g1, c.w, c.v2, c.v3, m);
    RewireAt(g1, c.w, c.v2, c.v3, c.v);
    RewireAt(g2, c.v, c.v3, y, m);
  }

  lemma UndoServes(g: Graph, root: Id, rank: map<Id, nat>, c: Context, m: Id)
    requires Refutation(g, root, rank) && Enabled(g, c) && c.ty == A1Prime && AllServe(g, root, {})
    requires g[c.v3].links.Ants? && Other(g[c.v3], c.v2) in g && m in ApplyA1Prime(g, c)
    ensures ServesAt(g, root, ApplyA1Prime(g, c), m)
  {
    hide Rotate, Merge, Ranked;
    A1PrimeReady(g, root, rank, c);
    var x := Other(g[c.v3], c.v2);
    var h, undone := Rotate(g, c, x, g[c.v].clause), Undone(g, c);
    RotateFields(g, c, x, g[c.v].clause, c.v3);
    RotateFields(g, c, x, g[c.v].clause, m);
    RotateServes(g, root, c, x, m);
    assert undone[m].res == h[m].res;
    if undone[c.v3].res == {} {
      assert c.v3 in g[m].res ==> IsAnt(g[c.v3], m);
      assert m == x ==> c.w in undone[m].res;
      assert m == c.v2 ==> c.v in undone[m].res;
    }
  }

  lemma AllServeWhere(g: Graph, root: Id, h: Graph)
    requires forall m {:trigger ServesAt(g, root, h, m)} :: m in h ==> ServesAt(g, root, h, m)
    ensures AllServe(h, root, {}) && LeavesFrom(g, h)
  {
    forall m | m in h ensures ServesAt(g, root, h, m) {}
    forall m | m in h && h[m].res == {} ensures m == root { assert ServesAt(g, root, h, m); }
    forall m | m in h && h[m].links.NoAnts? ensures m in g && g[m].links.NoAnts? && h[m].clause == g[m].clause && h[m].ty == g[m].ty { assert ServesAt(g, root, h, m); }
  }

  /** A swap leaves no node but the root without resolvents. */
  lemma SwapServes(g: Graph, root: Id, rank: map<Id, nat>, c: Context, y: Id, h: Graph)
    requires Refutation(g, root, rank) && Applicable(g, c) && AllServe(g, root, {}) && Applied(g, c, y, h)
    requires c.ty == A1Prime || ((IsA1(c.ty) || IsA2(c.ty)) && g[c.w].res == {c.v})
    ensures AllServe(h, root, {}) && LeavesFrom(g, h)
  {
    hide ServesAt, ApplyA1, ApplyA1Prime, Rotate, Refutation, AllServe, RuleCondition, LeavesFrom;
    SwapParts(g, root, rank, c);
    forall m | m in h ensures ServesAt(g, root, h, m) {
      if c.ty == A1Prime {
        UndoServes(g, root, rank, c, m);
      } else if IsA1(c.ty) {
        A1Serves(g, root, c, y, m);
      } else {
        RotateKeys(g, c, c.v3, m);
        RotateServes(g, root, c, c.v3, m);
      }
    }
    AllServeWhere(g, root, h);
  }

  lemma SwapParts(g: Graph, root: Id, rank: map<Id, nat>, c: Context)
    requires Refutation(g, root, rank) && Applicable(g, c)
    ensures Linked(g) && Shape(g, c) && Distinct(c)
  {
    EnabledMentions(g, c);
    ContextDistinct(g, root, rank, c);
  }

  lemma RotateKeys(g: Graph, c: Context, x: Id, m: Id)
    requires Shape(g, c) && x in g && m in Rotate(g, c, x, g[c.v].clause)
    ensures m in g
  {
  }

  predicate IsSwap(t: RuleType) {
    IsA1(t) || t == A1Prime || IsA2(t) || t == B2
  }

  /** The graph right after the rule: made from `g`, or from `g` with a copy of w where w serves more than v and the
      rule needs it for itself. `c` is the context the rule is applied to, and `y` the node that A1 adds. */
  ghost predicate Ruled(g: Graph, ra: Context, c: Context, y: Id, h: Graph)
    requires Shape(g, ra)
  {
    if |g[ra.w].res| > 1 && IsSwap(ra.ty) then
      c.w !in g && c == ra.(w := c.w) && Shape(Duplicated(g, ra, c.w), c) && Applied(Duplicated(g, ra, c.w), c, y, h)
    else c == ra && Applied(g, ra, y, h)
  }

  /** What a rule does to v, w and the clauses. After a swap v has its clause, w's old pivot, and w and the rule's other
      node for antecedents; w resolves on v's old pivot. After a cut v's heir has a part of v's clause: v itself, over
      v1 and v3 or over w and v2, or v2 in the place of v, which is gone. No other clause grows. */
  ghost predicate Effect(g: Graph, ra: Context, c: Context, y: Id, h: Graph)
    requires Shape(g, ra)
  {
    && (forall n {:trigger h[n]} :: n in h && n in g && n != c.w ==> C(h, n) <= C(g, n))
    && match ra.ty
       case NoRule => false
       case A1 | A1B => Swapped(g, ra, c.w, y, ra.v3, h) && y !in g && y in h && Antecedents(h[y], ra.v2, ra.v3) && h[y].links.pivot == T1(g, ra)
       case A2 | A2B | A2U => Swapped(g, ra, c.w, ra.v2, ra.v3, h)
       case A1Prime => g[ra.v3].links.Ants? && Swapped(g, ra, c.w, ra.v2, Other(g[ra.v3], ra.v2), h)
       case B2 => ra.v in h && h[ra.v].clause == [] && Antecedents(h[ra.v], c.w, ra.v2) && h[ra.v].links.pivot == T0(g, ra)
       case B1 | B2Prime => ra.v in h && Antecedents(h[ra.v], ra.v1, ra.v3) && h[ra.v].links.pivot == T1(g, ra)
       case B3 => ra.v !in h && ra.v2 in h && h[ra.v2].clause == g[ra.v2].clause && C(g, ra.v2) <= C(g, ra.v)
                  && forall n {:trigger h[n]} :: n in h && n in g && IsAnt(g[n], ra.v) ==> IsAnt(h[n], ra.v2)
  }

  ghost predicate Swapped(g: Graph, ra: Context, w: Id, other: Id, x: Id, h: Graph)
    requires Shape(g, ra)
  {
    && ra.v in h && h[ra.v].clause == g[ra.v].clause && Antecedents(h[ra.v], w, other) && h[ra.v].links.pivot == T0(g, ra)
    && w in h && Antecedents(h[w], ra.v1, x) && h[w].links.pivot == T1(g, ra)
  }

  lemma TurnEffect(g: Graph, c: Context, x: Id, n: Id)
    requires Shape(g, c) && Distinct(c) && x in g && x !in {c.v1, c.v2, c.w, c.v} && n in g
    ensures var h := Rotate(g, c, x, g[c.v].clause);
            Swapped(g, c, c.w, c.v2, x, h) && h.Keys == g.Keys && (n != c.w ==> h[n].clause == g[n].clause)
  {
    hide Rotate, Merge;
    RotateAt(g, c, x, g[c.v].clause, c.v);
    RotateAt(g, c, x, g[c.v].clause, c.w);
    RotateAt(g, c, x, g[c.v].clause, n);
  }

  lemma A1Effect(g: Graph, root: Id, rank: map<Id, nat>, c: Context, y: Id)
    requires Refutation(g, root, rank) && Applicable(g, c) && IsA1(c.ty) && y !in g
    ensures Effect(g, c, c, y, ApplyA1(g, c, y))
  {
    hide ApplyA1, Merge, Linked, Ranked, RuleCondition;
    ApplicableDistinct(g, root, rank, c);
    A1Pointwise(g, c, y, y);
    A1Pointwise(g, c, y, c.v);
    A1Pointwise(g, c, y, c.w);
    forall n | n in g ensures A1At(g, c, y, ApplyA1(g, c, y), n) { A1Pointwise(g, c, y, n); }
  }

  lemma A2Effect(g: Graph, root: Id, rank: map<Id, nat>, c: Context, y: Id)
    requires Refutation(g, root, rank) && Applicable(g, c) && IsA2(c.ty)
    ensures Effect(g, c, c, y, ApplyA2(g, c))
  {
    hide Rotate, Merge, Linked, Ranked, RuleCondition;
    ApplicableDistinct(g, root, rank, c);
    TurnEffect(g, c, c.v3, c.v);
    forall n | n in g && n != c.w ensures ApplyA2(g, c)[n].clause == g[n].clause { TurnEffect(g, c, c.v3, n); }
  }

  lemma UndoEffect(g: Graph, c: Context, n: Id)
    requires UndoReady(g, c) && n in g
    ensures g[c.v3].links.Ants? && Other(g[c.v3], c.v2) in g
    ensures var x, h := Other(g[c.v3], c.v2), Undone(g, c);
            Swapped(g, c, c.w, c.v2, x, h) && h.Keys == g.Keys && (n != c.w ==> h[n].clause == g[n].clause)
  {
    hide Rotate, Merge, Linked, SortedLits;
    TurnEffect(g, c, Other(g[c.v3], c.v2), n);
  }

  lemma DroppedEffect(g: Graph, c: Context, x: Id, h: Graph, d: Id)
    requires Shape(g, c) && Distinct(c) && Swapped(g, c, c.w, c.v2, x, h) && d == c.v3
    ensures Swapped(g, c, c.w, c.v2, x, Drop(h, d))
  {
  }

  lemma A1PrimeEffect(g: Graph, root: Id, rank: map<Id, nat>, c: Context, y: Id)
    requires Refutation(g, root, rank) && Applicable(g, c) && c.ty == A1Prime
    ensures g[c.v3].links.Ants? && Other(g[c.v3], c.v2) in g && Effect(g, c, c, y, ApplyA1Prime(g, c))
  {
    A1PrimeReady(g, root, rank, c);
    ReadyDistinct(g, c);
    hide Undone, Swapped, Refutation, Applicable, UndoReady;
    var x, h := Other(g[c.v3], c.v2), Undone(g, c);
    UndoEffect(g, c, c.v);
    DroppedEffect(g, c, x, h, c.v3);
    forall n | n in g && n != c.w ensures h[n].clause == g[n].clause { UndoEffect(g, c, n); }
  }

  lemma ReadyDistinct(g: Graph, c: Context)
    requires UndoReady(g, c)
    ensures Shape(g, c) && Distinct(c)
  {
  }

  lemma B2Effect(g: Graph, root: Id, rank: map<Id, nat>, c: Context, y: Id)
    requires Refutation(g, root, rank) && Applicable(g, c) && c.ty == B2
    ensures Effect(g, c, c, y, ApplyB2(g, c))
  {
    hide Rotate, Merge, Linked, Ranked, RuleCondition;
    ApplicableDistinct(g, root, rank, c);
    B2Merge(g, root, rank, c);
    RotateAt(g, c, c.v3, [], c.v);
    forall n | n in g ensures n !in {c.w, c.v} ==> ApplyB2(g, c)[n].clause == g[n].clause { RotateAt(g, c, c.v3, [], n); }
  }

  lemma ShortcutNodes(g: Graph, c: Context, h: Graph, n: Id)
    requires Shape(g, c) && Distinct(c) && CutResult(g, c, h) && n in h
    ensures n in g && h[n].clause == (if n == c.v then Merge(g[c.v1].clause, g[c.v3].clause, T1(g, c)) else g[n].clause)
    ensures n == c.v ==> Antecedents(h[n], c.v1, c.v3) && h[n].links.pivot == T1(g, c)
  {
    hide Shortcut, Merge;
    var s := Shortcut(g, c);
    if g[c.w].res == {c.v} { assert h[n] == Without(s[n], s.Keys - h.Keys); }
    ShortcutAt(g, c, c.v);
    ShortcutAt(g, c, n);
  }

  lemma ShortcutEffect(g: Graph, root: Id, rank: map<Id, nat>, c: Context, y: Id, h: Graph)
    requires Refutation(g, root, rank) && Applicable(g, c) && (c.ty == B1 || c.ty == B2Prime) && CutResult(g, c, h)
    ensures Effect(g, c, c, y, h)
  {
    hide CutResult, Merge, RuleCondition, Refutation, Linked, Ranked, WellDerived;
    ApplicableParts(g, root, rank, c);
    CutSubsumes(g, root, rank, c, h);
    forall n | n in h ensures n in g && (n != c.v ==> h[n].clause == g[n].clause) { ShortcutNodes(g, c, h, n); }
    ShortcutNodes(g, c, h, c.v);
  }

  lemma B3Nodes(g: Graph, c: Context, mid: Graph, h: Graph, n: Id)
    requires Shape(g, c) && B3Result(g, c, mid, h) && n in h
    ensures n in g && n != c.v && h[n].clause == g[n].clause && h[n].links == if IsAnt(g[n], c.v) then Redirect(g[n].links, c.v, c.v2) else g[n].links
  {
    hide Replaced;
    var s := Replaced(g, c.v, c.v2);
    if mid[c.v3].res == {} { assert h[n] == Without(mid[n], mid.Keys - h.Keys); }
    if g[c.w].res == {c.v} { assert mid[n] == Without(s[n], s.Keys - mid.Keys); }
    ReplacedAt(g, c.v, c.v2, n);
  }

  lemma B3Effect(g: Graph, root: Id, rank: map<Id, nat>, c: Context, y: Id, mid: Graph, h: Graph)
    requires Refutation(g, root, rank) && Applicable(g, c) && c.ty == B3 && g[c.v].res != {} && B3Result(g, c, mid, h)
    ensures Effect(g, c, c, y, h)
  {
    hide B3Result, Merge, RuleCondition, Refutation, Linked, Ranked, WellDerived;
    ApplicableParts(g, root, rank, c);
    B3Subsumes(g, root, rank, c, mid, h);
    forall n | n in h ensures n in g && h[n].clause == g[n].clause && h[n].links == if IsAnt(g[n], c.v) then Redirect(g[n].links, c.v, c.v2) else g[n].links {
      B3Nodes(g, c, mid, h, n);
    }
  }

  lemma ApplicableParts(g: Graph, root: Id, rank: map<Id, nat>, c: Context)
    requires Refutation(g, root, rank) && Applicable(g, c)
    ensures Shape(g, c) && Distinct(c)
  {
    ApplicableDistinct(g, root, rank, c);
  }

  lemma AppliedEffect(g: Graph, root: Id, rank: map<Id, nat>, c: Context, y: Id, h: Graph)
    requires Refutation(g, root, rank) && Applicable(g, c) && AllServe(g, root, {}) && Applied(g, c, y, h)
    ensures Effect(g, c, c, y, h)
  {
    hide Refutation, Applicable, AllServe, Effect, ApplyA1, ApplyA2, ApplyA1Prime, ApplyB2, CutResult, B3Result;
    CutHasResolvents(g, root, rank, c);
    ApplicableParts(g, root, rank, c);
    match c.ty {
      case A1 | A1B => A1Effect(g, root, rank, c, y);
      case A1Prime => A1PrimeEffect(g, root, rank, c, y);
      case A2 | A2B | A2U => A2Effect(g, root, rank, c, y);
      case B1 | B2Prime => ShortcutEffect(g, root, rank, c, y, h);
      case B2 => B2Effect(g, root, rank, c, y);
      case B3 =>
        var mid :| B3Result(g, c, mid, h);
        B3Effect(g, root, rank, c, y, mid, h);
    }
  }

  lemma RuledEffect(g: Graph, root: Id, rank: map<Id, nat>, ra: Context, c: Context, y: Id, before: Graph, rank1: map<Id, nat>, h: Graph)
    requires Refutation(g, root, rank) && Enabled(g, ra) && Ruled(g, ra, c, y, h)
    requires Refutation(before, root, rank1) && Applicable(before, c) && AllServe(before, root, {})
    requires (before == g && c == ra) || (ra.ty != A1Prime && c.w !in g && c == ra.(w := c.w) && Distinct(ra) && before == Duplicated(g, ra, c.w))
    requires Applied(before, c, y, h)
    ensures Effect(g, ra, c, y, h)
  {
    hide Refutation, Applicable, AllServe, Ruled, Duplicated, Applied, Enabled;
    EnabledParts(g, root, rank, ra);
    ApplicableParts(before, root, rank1, c);
    AppliedEffect(before, root, rank1, c, y, h);
    if before != g {
      DuplicatedEffect(g, ra, c, y, h);
    }
  }

  lemma DuplicatedEffect(g: Graph, ra: Context, c: Context, y: Id, h: Graph)
    requires Shape(g, ra) && Distinct(ra) && c.w !in g && c == ra.(w := c.w) && ra.ty != A1Prime
    requires Shape(Duplicated(g, ra, c.w), c) && Effect(Duplicated(g, ra, c.w), c, c, y, h)
    ensures Effect(g, ra, c, y, h)
  {
    hide Duplicated;
    var d := Duplicated(g, ra, c.w);
    DuplicatedAt(g, ra, c.w, c.w);
    DuplicatedAt(g, ra, c.w, ra.v);
    DuplicatedAt(g, ra, c.w, ra.v2);
    forall n | n in g ensures n in d && d[n].clause == g[n].clause && (n != ra.v ==> d[n].links == g[n].links) { DuplicatedAt(g, ra, c.w, n); }
  }

  /** What is left of the traversal repairs what a shortened clause makes stale. */
  ghost predicate Finished(ty: RuleType, visited: set<Id>, h: Graph, k: Graph) {
    if Shortens(ty) then Repaired(h, visited, k) else k == h
  }

  /** Applies a rule in the middle of a traversal, where v has just been visited, and finishes the traversal. Whatever
      the rule, the graph is a refutation of the same clauses again. */
  method TransformAndRestructure(pg: ProofGraph, ra: Context, visited1: set<Id>, queue: seq<Id>, coin: Id -> bool, ghost rank: map<Id, nat>)
    returns (ghost rank': map<Id, nat>, ghost c: Context, ghost y: Id, ghost h: Graph)
    requires pg.Valid() && Refutation(pg.View(), pg.root, rank) && Enabled(pg.View(), ra) && AllServe(pg.View(), pg.root, {})
    requires ra.ty == B3 ==> V3Survives(pg.View(), ra)
    requires Paused(pg.View(), ra.v, visited1, queue) && Ids(queue, |pg.graph|)
    modifies pg`graph, pg`leaves, pg`root, set m: ProofNode | m in pg.graph
    ensures pg.Valid() && Refutation(pg.View(), pg.root, rank') && AllServe(pg.View(), pg.root, {})
    ensures LeavesFrom(old(pg.View()), pg.View())
    ensures Ruled(old(pg.View()), ra, c, y, h) && Effect(old(pg.View()), ra, c, y, h) && Finished(ra.ty, visited1 + {c.w}, h, pg.View())
  {
    hide pg.Valid, pg.View, Enabled, Applicable, Refutation, AllServe, Paused, LeavesFrom, V3Survives, Duplicated, Distinct, Applied, Effect, Ruled, Finished, Unmarked;
    ghost var g, root := pg.View(), pg.root;
    EnabledParts(g, root, rank, ra);
    LeavesStart(g);
    var context := ra;
    ghost var made := {};
    rank' := rank;
    var w := pg.GetNode(ra.w);
    if |w.resolvents| > 1 && IsSwap(ra.ty) {
      UndoIsSingle(g, ra);
      context := pg.DupliNode(ra);
      made := {context.w};
      rank' := rank[context.w := rank[ra.w]];
      DuplicatedPreserves(g, root, rank, ra, context.w);
      DuplicatedServes(g, root, rank, ra, context.w);
      DuplicatedPaused(g, root, rank, ra, context.w, visited1, queue);
    } else {
      NothingMade(g, ra, visited1, queue);
      if |w.resolvents| <= 1 { OneServed(g, ra); }
    }
    c := context;
    ghost var before, rank1 := pg.View(), rank';
    rank', y, h := ApplyAndFinish(pg, context, visited1, queue, coin, made, rank1);
    LeavesStay(g, before, pg.View());
    VisitedW(g, ra, c, visited1, made, queue, h, pg.View());
    ApplicableParts(before, root, rank1, c);
    RuledIs(g, ra, c, y, before, h);
    RuledEffect(g, root, rank, ra, c, y, before, rank1, h);
  }

  lemma RuledIs(g: Graph, ra: Context, c: Context, y: Id, before: Graph, h: Graph)
    requires Shape(g, ra) && Shape(before, c) && Applied(before, c, y, h)
    requires if |g[ra.w].res| > 1 && IsSwap(ra.ty) then c.w !in g && c == ra.(w := c.w) && before == Duplicated(g, ra, c.w) else before == g && c == ra
    ensures Ruled(g, ra, c, y, h)
  {
    hide Applied, Duplicated;
  }

  lemma VisitedW(g: Graph, ra: Context, c: Context, visited: set<Id>, made: set<Id>, q: seq<Id>, h: Graph, k: Graph)
    requires Shape(g, ra) && Paused(g, ra.v, visited, q) && Finished(ra.ty, visited + made, h, k)
    requires made == {c.w} || (made == {} && c.w == ra.w)
    ensures Finished(ra.ty, visited + {c.w}, h, k)
  {
    assert IsAnt(g[ra.v], ra.w);
    assert visited + {c.w} == visited + made;
  }

  /** Ids that the graph has given out. */
  ghost predicate Ids(q: seq<Id>, size: nat) {
    forall id {:trigger id in q} :: id in q ==> id < size
  }

  /** A traversal of a refutation that has just visited `v`. */
  ghost predicate Paused(g: Graph, v: Id, visited: set<Id>, q: seq<Id>) {
    v in g && DownClosed(g, visited) && v in visited && g[v].res !! visited && Queued(g, visited, q)
  }

  /** The same where w serves v alone already, if the rule needs that. `made` holds w if it was made for this. */
  method ApplyAndFinish(pg: ProofGraph, c: Context, visited1: set<Id>, queue: seq<Id>, coin: Id -> bool, ghost made: set<Id>, ghost rank: map<Id, nat>)
    returns (ghost rank': map<Id, nat>, ghost y: Id, ghost h: Graph)
    requires pg.Valid() && Refutation(pg.View(), pg.root, rank) && Applicable(pg.View(), c) && AllServe(pg.View(), pg.root, {})
    requires IsSwap(c.ty) ==> pg.View()[c.w].res == {c.v}
    requires c.ty == B3 ==> V3Survives(pg.View(), c)
    requires Paused(pg.View(), c.v, visited1 + made, queue) && Unmarked(pg.View(), visited1, made, queue) && made <= {c.w}
    modifies pg`graph, pg`leaves, pg`root, set m: ProofNode | m in pg.graph
    ensures pg.Valid() && Refutation(pg.View(), pg.root, rank') && AllServe(pg.View(), pg.root, {})
    ensures LeavesFrom(old(pg.View()), pg.View())
    ensures Applied(old(pg.View()), c, y, h) && Outcome(old(pg.View()), old(pg.root), c, h, rank') && Finished(c.ty, visited1 + made, h, pg.View())
  {
    hide Repaired, pg.Valid, pg.View, Applicable, Refutation, AllServe, DownClosed, Paused, Unmarked, Queued, Outcome, Applied, LeavesFrom, Walking, JustCut, V3Survives;
    ghost var g, root, visited := pg.View(), pg.root, visited1 + made;
    CutHasResolvents(g, root, rank, c);
    y, rank' := pg.RuleApply(c, rank);
    h := pg.View();
    if Shortens(c.ty) {
      JustCutNow(g, root, rank, visited, c, y, h, rank', queue);
      CutWalks(g, root, rank, visited, c, h, rank');
      CutQueued(g, root, rank, visited, c, h, rank', queue);
      CutUnmarked(g, root, rank, visited1, made, c, h, rank', queue);
      FinishTraversal(pg, visited1, {Heir(c)}, queue, coin, made, rank');
      LeavesStay(g, h, pg.View());
    } else {
      SwapOutcome(g, root, rank, c, y, h, rank');
    }
  }

  lemma CutUnmarked(g: Graph, root: Id, rank: map<Id, nat>, visited: set<Id>, made: set<Id>, c: Context, h: Graph, rank': map<Id, nat>, q: seq<Id>)
    requires JustCut(g, root, rank, visited + made, c, h, rank') && Unmarked(g, visited, made, q) && made <= {c.w}
    ensures Unmarked(h, visited, made, q)
  {
    hide JustCut, KeptAt, IsAnt, Shape, Distinct;
    JustParts(g, root, rank, visited + made, c, h, rank');
    hide ValidExcept, Linked;
    forall n, a {:trigger IsAnt(h[n], a)} | n in h && a in made && IsAnt(h[n], a) ensures n in visited + made {
      JustKept(g, root, rank, visited + made, c, h, rank', n);
      KeptFromBefore(g, root, c, h, n, a);
    }
  }

  lemma KeptFromBefore(g: Graph, root: Id, c: Context, h: Graph, n: Id, a: Id)
    requires Shape(g, c) && Distinct(c) && (Heir(c) == c.v || c.v !in h) && n in h && KeptAt(g, root, c, h, n) && a == c.w && IsAnt(h[n], a)
    ensures n in {c.v, c.w} || (n in g && IsAnt(g[n], a))
  {
  }

  lemma EnabledParts(g: Graph, root: Id, rank: map<Id, nat>, c: Context)
    requires Refutation(g, root, rank) && Enabled(g, c)
    ensures Shape(g, c) && Distinct(c) && Applicable(g, c) && c.w in rank && c.v in g[c.w].res
  {
    EnabledApplies(g, c);
    ApplicableDistinct(g, root, rank, c);
    assert IsAnt(g[c.v], c.w);
  }

  /** An A1 is undone only where w has one resolvent. */
  lemma UndoIsSingle(g: Graph, c: Context)
    requires Enabled(g, c) && |g[c.w].res| > 1
    ensures c.ty != A1Prime
  {
    assert |{c.v}| == 1;
  }

  lemma OneServed(g: Graph, c: Context)
    requires Shape(g, c) && c.v in g[c.w].res && |g[c.w].res| <= 1
    ensures g[c.w].res == {c.v}
  {
    assert |g[c.w].res - {c.v}| == 0;
  }

  lemma NothingMade(g: Graph, c: Context, visited: set<Id>, q: seq<Id>)
    requires Paused(g, c.v, visited, q)
    ensures Paused(g, c.v, visited + {}, q) && Unmarked(g, visited, {}, q)
  {
    assert visited + {} == visited;
  }

  lemma DuplicatedServes(g: Graph, root: Id, rank: map<Id, nat>, c: Context, y: Id)
    requires Refutation(g, root, rank) && Shape(g, c) && Distinct(c) && AllServe(g, root, {}) && y !in g && |g[c.w].res| > 1
    ensures AllServe(Duplicated(g, c, y), root, {}) && LeavesFrom(g, Duplicated(g, c, y))
  {
    hide Duplicated, Linked, Ranked;
    var h := Duplicated(g, c, y);
    DuplicatedAt(g, c, y, y);
    MoreThanOne(g[c.w].res, c.v);
    forall m | m in h ensures ServesAt(g, root, h, m) {
      DuplicatedAt(g, c, y, m);
    }
    AllServeWhere(g, root, h);
  }

  lemma MoreThanOne(s: set<Id>, x: Id)
    ensures |s| <= 1 || s - {x} != {}
  {
    if s - {x} == {} { SmallerSet(s, {x}); }
  }

  lemma DuplicatedPaused(g: Graph, root: Id, rank: map<Id, nat>, c: Context, y: Id, visited: set<Id>, q: seq<Id>)
    requires Refutation(g, root, rank) && Shape(g, c) && Distinct(c) && y !in g && Paused(g, c.v, visited, q) && y !in q
    ensures var h := Duplicated(g, c, y); Paused(h, c.v, visited + {y}, q) && Unmarked(h, visited, {y}, q)
  {
    hide Duplicated, Linked, Ranked, WellDerived;
    var h := Duplicated(g, c, y);
    DuplicatedAt(g, c, y, c.v);
    DuplicatedAt(g, c, y, y);
    assert IsAnt(g[c.v], c.w) && IsAnt(g[c.w], c.v1) && IsAnt(g[c.w], c.v2);
    NoNewResolvent(g, c, y);
    forall n, a {:trigger IsAnt(h[n], a)} | n in h && IsAnt(h[n], a)
      ensures (n in visited + {y} ==> a in visited + {y}) && (a == y ==> n in visited + {y})
    {
      DuplicatedAt(g, c, y, n);
      if n !in {y, c.v} { assert IsAnt(g[n], a); }
      if n == c.v && a != y { assert IsAnt(g[n], a); }
    }
    forall n | n in h && n !in visited + {y} && Ready(h, visited + {y}, n) ensures n in q {
      DuplicatedAt(g, c, y, n);
      if g[n].links.Ants? { assert IsAnt(g[n], g[n].links.ant1) && IsAnt(g[n], g[n].links.ant2); }
      assert Ready(g, visited, n);
    }
  }

  lemma NoNewResolvent(g: Graph, c: Context, y: Id)
    requires Linked(g) && Shape(g, c) && y !in g
    ensures y !in g[c.v].res && forall n {:trigger IsAnt(g[n], y)} :: n in g ==> !IsAnt(g[n], y)
  {
  }

  lemma CutHasResolvents(g: Graph, root: Id, rank: map<Id, nat>, c: Context)
    requires Refutation(g, root, rank) && Applicable(g, c) && AllServe(g, root, {})
    ensures c.ty == B3 ==> g[c.v].res != {}
  {
    if c.ty == B3 { B3Facts(g, root, rank, c); }
  }

  lemma JustCutNow(g: Graph, root: Id, rank: map<Id, nat>, visited: set<Id>, c: Context, y: Id, h: Graph, rank': map<Id, nat>, q: seq<Id>)
    requires Refutation(g, root, rank) && Applicable(g, c) && Shortens(c.ty) && (c.ty == B2 ==> g[c.w].res == {c.v}) && (c.ty == B3 ==> g[c.v].res != {})
    requires AllServe(g, root, {}) && Paused(g, c.v, visited, q)
    requires Outcome(g, root, c, h, rank') && Applied(g, c, y, h)
    ensures JustCut(g, root, rank, visited, c, h, rank') && Queued(g, visited, q)
  {
  }

  lemma SwapOutcome(g: Graph, root: Id, rank: map<Id, nat>, c: Context, y: Id, h: Graph, rank': map<Id, nat>)
    requires Refutation(g, root, rank) && Applicable(g, c) && !Shortens(c.ty) && AllServe(g, root, {})
    requires IsA1(c.ty) || IsA2(c.ty) ==> g[c.w].res == {c.v}
    requires Outcome(g, root, c, h, rank') && Applied(g, c, y, h)
    ensures Refutation(h, root, rank') && AllServe(h, root, {}) && LeavesFrom(g, h)
  {
    hide Refutation, Applicable, AllServe, LeavesFrom;
    SwapServes(g, root, rank, c, y, h);
  }

  // ---------------------------------------------------------------------------
  // A traversal up to its first rule

  datatype Choice = NoApplication | ApplyFirst | ApplySecond

  /** A heuristic picks enabled contexts only. */
  ghost predicate Picky(handle: (Context, Context) -> Choice) {
    forall a, b {:trigger handle(a, b)} :: (handle(a, b) == ApplyFirst ==> a.ty != NoRule) && (handle(a, b) == ApplySecond ==> b.ty != NoRule)
  }

  /** B3 never looks at a node it has deleted. */
  ghost predicate B3Safe(g: Graph) {
    forall c {:trigger Enabled(g, c)} :: Enabled(g, c) && c.ty == B3 ==> V3Survives(g, c)
  }

  lemma VisitNext(g: Graph, visited: set<Id>, q: seq<Id>, more: seq<Id>)
    requires Linked(g) && DownClosed(g, visited) && Queued(g, visited, q) && q != [] && q[0] in g && q[0] !in visited && Ready(g, visited, q[0])
    requires !IsAnt(g[q[0]], q[0]) && forall r {:trigger r in g[q[0]].res} :: r in g[q[0]].res ==> r in more
    ensures Paused(g, q[0], visited + {q[0]}, q[1..] + more)
  {
    QueueGrown(g, visited, q, g, more);
    forall r | r in g[q[0]].res ensures r !in visited + {q[0]} { assert IsAnt(g[r], q[0]); }
  }

  lemma PausedParts(g: Graph, v: Id, visited: set<Id>, q: seq<Id>)
    requires Paused(g, v, visited, q)
    ensures DownClosed(g, visited) && Queued(g, visited, q) && v in visited
  {
  }

  lemma RefutationParts(g: Graph, root: Id, rank: map<Id, nat>, n: Id)
    requires Refutation(g, root, rank) && n in g
    ensures ValidExcept(g, root, rank, {}) && Linked(g) && !IsAnt(g[n], n) && forall r {:trigger r in g[n].res} :: r in g[n].res ==> r in g
    ensures g[n].links.Ants? ==> g[n].links.ant1 in g && g[n].links.ant2 in g
  {
    assert RankedAt(g, rank, n);
  }

  lemma LeavesQueued(g: Graph, q: seq<Id>)
    requires forall n {:trigger n in q} :: n in g && g[n].links.NoAnts? ==> n in q
    ensures DownClosed(g, {}) && Queued(g, {}, q)
  {
  }

  lemma FewerLeft(g: Graph, visited: set<Id>, n: Id)
    requires n in g && n !in visited
    ensures |g.Keys - (visited + {n})| < |g.Keys - visited|
  {
    assert g.Keys - visited == g.Keys - (visited + {n}) + {n};
  }

  /** The two contexts at an inner node, in the order in which the heuristic is shown them. */
  ghost predicate BothContexts(g: Graph, n: Id, a: Context, b: Context) {
    n in g && g[n].links.Ants? && ContextOf(g, g[n].links.ant1, n, a) && ContextOf(g, g[n].links.ant2, n, b)
  }

  /** The heuristic wants a rule at `n`. */
  ghost predicate Wanted(g: Graph, handle: (Context, Context) -> Choice, n: Id) {
    exists a, b {:trigger handle(a, b)} :: BothContexts(g, n, a, b) && handle(a, b) != NoApplication
  }

  /** `ra` is what the heuristic picks at its node. */
  ghost predicate Picked(g: Graph, handle: (Context, Context) -> Choice, ra: Context) {
    exists a, b {:trigger handle(a, b)} :: BothContexts(g, ra.v, a, b)
      && ((handle(a, b) == ApplyFirst && ra == a) || (handle(a, b) == ApplySecond && ra == b))
  }

  lemma OnlyTheseContexts(g: Graph, root: Id, rank: map<Id, nat>, n: Id, handle: (Context, Context) -> Choice, ra1: Context, ra2: Context)
    requires ValidExcept(g, root, rank, {}) && BothContexts(g, n, ra1, ra2)
    ensures Wanted(g, handle, n) <==> handle(ra1, ra2) != NoApplication
  {
    hide ValidExcept, ContextOf;
    forall a, b {:trigger handle(a, b)} | BothContexts(g, n, a, b) ensures a == ra1 && b == ra2 {
      ContextUnique(g, root, rank, g[n].links.ant1, n, a, ra1);
      ContextUnique(g, root, rank, g[n].links.ant2, n, b, ra2);
    }
  }

  lemma PickIs(g: Graph, handle: (Context, Context) -> Choice, n: Id, a: Context, b: Context, ra: Context)
    requires Picky(handle) && BothContexts(g, n, a, b) && handle(a, b) != NoApplication && ra == if handle(a, b) == ApplyFirst then a else b
    ensures Enabled(g, ra) && ra.v == n && Picked(g, handle, ra)
  {
    hide Enabled;
  }

  lemma LeafNotWanted(g: Graph, handle: (Context, Context) -> Choice, n: Id)
    requires n in g && g[n].links.NoAnts?
    ensures !Wanted(g, handle, n)
  {
  }

  /** Asks the heuristic about the two contexts of a node. */
  method AskAt(pg: ProofGraph, n: ProofNode, handle: (Context, Context) -> Choice, ghost rank: map<Id, nat>) returns (found: bool, ra: Context)
    requires pg.Valid() && Refutation(pg.View(), pg.root, rank) && Picky(handle) && n in pg.graph
    ensures found <==> Wanted(pg.View(), handle, n.id)
    ensures found ==> Enabled(pg.View(), ra) && ra.v == n.id && Picked(pg.View(), handle, ra)
  {
    hide Refutation, ValidExcept, Linked, Enabled, ContextOf, Wanted, Picked, Picky, pg.Valid, pg.View;
    found, ra := false, Context(NoRule, 0, 0, 0, 0, 0);
    pg.NodeAt(n);
    if n.ant1 == null {
      LeafNotWanted(pg.View(), handle, n.id);
      return;
    }
    RefutationParts(pg.View(), pg.root, rank, n.id);
    pg.NodeAt(n.ant1);
    pg.NodeAt(n.ant2);
    var ra1 := pg.GetRuleContext(n.ant1.id, n.id, rank);
    var ra2 := pg.GetRuleContext(n.ant2.id, n.id, rank);
    OnlyTheseContexts(pg.View(), pg.root, rank, n.id, handle, ra1, ra2);
    var chosen := handle(ra1, ra2);
    found, ra := chosen != NoApplication, if chosen == ApplyFirst then ra1 else ra2;
    if found { PickIs(pg.View(), handle, n.id, ra1, ra2, ra); }
  }

  lemma MoreIds(pg: ProofGraph, q: seq<Id>, more: seq<Id>)
    requires pg.Valid() && q != [] && Ids(q, |pg.graph|) && forall i {:trigger i in more} :: i in more ==> i in pg.View()
    ensures Ids(q[1..] + more, |pg.graph|)
  {
    pg.ViewBound();
    forall i | i in q[1..] + more ensures i < |pg.graph| {
      if i in more { assert i in pg.View(); } else { assert i in q; }
    }
  }

  lemma FewerIds(q: seq<Id>, size: nat)
    requires q != [] && Ids(q, size)
    ensures Ids(q[1..], size)
  {
    forall i | i in q[1..] ensures i < size { assert i in q; }
  }

  ghost predicate NoneWanted(g: Graph, handle: (Context, Context) -> Choice, visited: set<Id>) {
    forall n {:trigger Wanted(g, handle, n)} :: n in g && n in visited ==> !Wanted(g, handle, n)
  }

  /** Between two visits of a traversal that has changed nothing. */
  ghost predicate Roaming(g: Graph, visited: set<Id>, q: seq<Id>, size: nat) {
    DownClosed(g, visited) && Queued(g, visited, q) && Ids(q, size)
  }

  lemma PassOver(pg: ProofGraph, visited: set<Id>, q: seq<Id>)
    requires pg.Valid() && q != [] && !ToVisit(pg, q[0], visited) && Roaming(pg.View(), visited, q, |pg.graph|)
    ensures Roaming(pg.View(), visited, q[1..], |pg.graph|)
  {
    hide pg.Valid, pg.View, Queued, Ready;
    QueueSkip(pg.View(), visited, q);
    FewerIds(q, |pg.graph|);
  }

  lemma Advance(pg: ProofGraph, rank: map<Id, nat>, visited: set<Id>, q: seq<Id>, more: seq<Id>)
    requires pg.Valid() && Refutation(pg.View(), pg.root, rank) && q != [] && ToVisit(pg, q[0], visited) && Roaming(pg.View(), visited, q, |pg.graph|)
    requires q[0] in pg.View() && forall r {:trigger r in more} :: r in more <==> r in pg.View()[q[0]].res
    ensures var g, visited', q' := pg.View(), visited + {q[0]}, q[1..] + more;
            && Paused(g, q[0], visited', q') && Roaming(g, visited', q', |pg.graph|) && Ids(q', |pg.graph|)
            && |g.Keys - visited'| < |g.Keys - visited|
  {
    hide Refutation, ValidExcept, Linked, DownClosed, Queued, Ready, Paused, pg.Valid, pg.View;
    var g := pg.View();
    RefutationParts(g, pg.root, rank, q[0]);
    VisitNext(g, visited, q, more);
    FewerLeft(g, visited, q[0]);
    MoreIds(pg, q, more);
    PausedParts(g, q[0], visited + {q[0]}, q[1..] + more);
  }

  ghost function Left(g: Graph, visited: set<Id>): nat {
    |g.Keys - visited|
  }

  /** The heuristic picks a rule at some node. */
  ghost predicate SomeWanted(g: Graph, handle: (Context, Context) -> Choice) {
    exists n {:trigger Wanted(g, handle, n)} :: n in g && Wanted(g, handle, n)
  }

  /** A rule the heuristic picks, at the node the traversal has just visited. */
  ghost predicate FoundRule(g: Graph, handle: (Context, Context) -> Choice, ra: Context, visited: set<Id>, q: seq<Id>, size: nat) {
    SomeWanted(g, handle) && Enabled(g, ra) && Picked(g, handle, ra) && Paused(g, ra.v, visited, q) && Ids(q, size)
  }

  /** Between two visits of a traversal that has found no rule. */
  ghost predicate Searching(g: Graph, handle: (Context, Context) -> Choice, visited: set<Id>, q: seq<Id>, size: nat) {
    Roaming(g, visited, q, size) && NoneWanted(g, handle, visited)
  }

  lemma AllRoamed(g: Graph, handle: (Context, Context) -> Choice, root: Id, rank: map<Id, nat>, visited: set<Id>, size: nat)
    requires Refutation(g, root, rank) && Searching(g, handle, visited, [], size)
    ensures !SomeWanted(g, handle)
  {
    hide Wanted;
    forall n | n in g ensures !Wanted(g, handle, n) { AllVisited(g, rank, visited, n); }
  }

  lemma MoreNotWanted(g: Graph, handle: (Context, Context) -> Choice, visited: set<Id>, id: Id)
    requires NoneWanted(g, handle, visited) && !Wanted(g, handle, id)
    ensures NoneWanted(g, handle, visited + {id})
  {
  }

  /** Takes the head off the queue, and visits it if its antecedents have been. */
  method Step(pg: ProofGraph, handle: (Context, Context) -> Choice, visited0: set<Id>, q0: seq<Id>, ghost rank: map<Id, nat>)
    returns (found: bool, ra: Context, visited: set<Id>, q: seq<Id>)
    requires pg.Valid() && Refutation(pg.View(), pg.root, rank) && Picky(handle) && q0 != []
    requires Searching(pg.View(), handle, visited0, q0, |pg.graph|)
    ensures if found then FoundRule(pg.View(), handle, ra, visited, q, |pg.graph|) else Searching(pg.View(), handle, visited, q, |pg.graph|)
    ensures Left(pg.View(), visited) < Left(pg.View(), visited0) || (Left(pg.View(), visited) == Left(pg.View(), visited0) && |q| < |q0|)
  {
    hide Wanted, NoneWanted, Picked, Picky, Refutation, Roaming, Paused, Enabled, Ids, ToVisit, pg.Valid, pg.View;
    found, ra, visited, q := false, Context(NoRule, 0, 0, 0, 0, 0), visited0, q0[1..];
    var id := q0[0];
    if !ToVisit(pg, id, visited0) {
      PassOver(pg, visited0, q0);
      return;
    }
    var n := pg.GetNode(id);
    var more := Listing(n.resolvents);
    Advance(pg, rank, visited0, q0, more);
    q, visited := q + more, visited + {id};
    found, ra := AskAt(pg, n, handle, rank);
    if !found { MoreNotWanted(pg.View(), handle, visited0, id); }
  }

  /** Walks from the leaves, and stops where the heuristic picks a rule. */
  method FindRule(pg: ProofGraph, handle: (Context, Context) -> Choice, ghost rank: map<Id, nat>)
    returns (found: bool, ra: Context, visited: set<Id>, q: seq<Id>)
    requires pg.Valid() && Refutation(pg.View(), pg.root, rank) && Picky(handle)
    ensures if found then FoundRule(pg.View(), handle, ra, visited, q, |pg.graph|) else !SomeWanted(pg.View(), handle)
  {
    hide Left, Searching, FoundRule, SomeWanted, Refutation, Picky, pg.Valid, pg.View;
    ghost var g := pg.View();
    found, visited, ra := false, {}, Context(NoRule, 0, 0, 0, 0, 0);
    q := Listing(pg.leaves);
    StartAtLeaves(pg, handle, q);
    while !found && q != []
      invariant if found then FoundRule(g, handle, ra, visited, q, |pg.graph|) else Searching(g, handle, visited, q, |pg.graph|)
      decreases Left(g, visited), |q|
    {
      found, ra, visited, q := Step(pg, handle, visited, q, rank);
    }
    if !found { AllRoamed(g, handle, pg.root, rank, visited, |pg.graph|); }
  }

  /** What the traversal makes of `g`: a rule that the heuristic picks, and its repair, which leaves alone all that v
      derives from. */
  ghost predicate Transformed(g: Graph, handle: (Context, Context) -> Choice, k: Graph) {
    exists ra, c, y, h, visited {:trigger Ruled(g, ra, c, y, h), DownClosed(g, visited)} ::
      && Picked(g, handle, ra) && Shape(g, ra) && Ruled(g, ra, c, y, h) && Effect(g, ra, c, y, h)
      && DownClosed(g, visited) && ra.v in visited && Finished(ra.ty, visited + {c.w}, h, k)
  }

  /** A traversal in which at most one rule is applied: the first that the heuristic picks. None is applied exactly if
      the heuristic wants none at any node. */
  method TransformAndRestructureOnce(pg: ProofGraph, handle: (Context, Context) -> Choice, coin: Id -> bool, ghost rank: map<Id, nat>)
    returns (someTransfDone: bool, ghost rank': map<Id, nat>)
    requires pg.Valid() && Refutation(pg.View(), pg.root, rank) && AllServe(pg.View(), pg.root, {})
    requires Picky(handle) && B3Safe(pg.View())
    modifies pg`graph, pg`leaves, pg`root, set m: ProofNode | m in pg.graph
    ensures pg.Valid() && Refutation(pg.View(), pg.root, rank') && AllServe(pg.View(), pg.root, {})
    ensures LeavesFrom(old(pg.View()), pg.View())
    ensures someTransfDone <==> SomeWanted(old(pg.View()), handle)
    ensures if someTransfDone then Transformed(old(pg.View()), handle, pg.View()) else pg.View() == old(pg.View())
  {
    hide Wanted, Picked, Picky, Ruled, Effect, Finished, Refutation, AllServe, LeavesFrom, Paused, Enabled, V3Survives, pg.Valid, pg.View;
    LeavesStart(pg.View());
    rank' := rank;
    var ra, visited, q;
    someTransfDone, ra, visited, q := FindRule(pg, handle, rank);
    if someTransfDone {
      ghost var g := pg.View();
      EnabledParts(g, pg.root, rank, ra);
      PausedParts(g, ra.v, visited, q);
      ghost var c, y, h;
      rank', c, y, h := TransformAndRestructure(pg, ra, visited, q, coin, rank);
      assert Transformed(g, handle, pg.View());
    }
  }

  lemma StartAtLeaves(pg: ProofGraph, handle: (Context, Context) -> Choice, q: seq<Id>)
    requires pg.Valid() && forall i {:trigger i in q} :: i in q <==> i in pg.leaves
    ensures Searching(pg.View(), handle, {}, q, |pg.graph|)
  {
    var g := pg.View();
    forall n | n in g && g[n].links.NoAnts? ensures n in q {
      assert pg.Slot(n) && n in pg.leaves;
    }
    LeavesQueued(g, q);
  }
}
