/** A proof graph unfolded into trees: every node's derivation, with shared nodes repeated. */
module Unfolding {
  import opened Clauses
  import opened Proofs
  import opened LocalSteps
  import opened Rules
  import opened Interpolation

  /** The antecedent with the positive pivot literal. */
  ghost function PosAnt(g: Graph, rank: map<Id, nat>, n: Id): Id
    requires Ranked(g, rank) && n in g && g[n].links.Ants?
  {
    assert RankedAt(g, rank, n);
    if Lit(g[n].links.pivot, false) in C(g, g[n].links.ant1) then g[n].links.ant1 else g[n].links.ant2
  }

  ghost function NegAnt(g: Graph, rank: map<Id, nat>, n: Id): Id
    requires Ranked(g, rank) && n in g && g[n].links.Ants?
  {
    assert RankedAt(g, rank, n);
    if Lit(g[n].links.pivot, false) in C(g, g[n].links.ant1) then g[n].links.ant2 else g[n].links.ant1
  }

  ghost function Unfold(g: Graph, rank: map<Id, nat>, n: Id): Tree
    requires Ranked(g, rank) && n in g
    decreases rank[n]
  {
    assert RankedAt(g, rank, n);
    if g[n].links.NoAnts? then Leaf(n, g[n].clause, g[n].ty)
    else Res(g[n].links.pivot, Unfold(g, rank, PosAnt(g, rank, n)), Unfold(g, rank, NegAnt(g, rank, n)))
  }

  /** Every node of a valid graph unfolds to a valid proof tree of its clause. */
  lemma {:induction false} UnfoldValid(g: Graph, root: Id, rank: map<Id, nat>, n: Id)
    requires ValidExcept(g, root, rank, {}) && n in g
    ensures ValidTree(Unfold(g, rank, n)) && Concl(Unfold(g, rank, n)) == C(g, n)
    decreases rank[n]
  {
    hide Ranked, Linked;
    assert WellFormed(g[n]) && WellDerived(g, n) && RankedAt(g, rank, n) by { RankedParts(g, root, rank, n); }
    NodeNonTaut(g, n);
    if g[n].links.Ants? {
      var x, y := PosAnt(g, rank, n), NegAnt(g, rank, n);
      UnfoldValid(g, root, rank, x);
      UnfoldValid(g, root, rank, y);
      var neg := PivotSigns(C(g, n), C(g, x), C(g, y), g[n].links.pivot);
      assert C(g, x) + C(g, y) == C(g, g[n].links.ant1) + C(g, g[n].links.ant2);
    }
  }

  lemma RankedParts(g: Graph, root: Id, rank: map<Id, nat>, n: Id)
    requires ValidExcept(g, root, rank, {}) && n in g
    ensures WellFormed(g[n]) && WellDerived(g, n) && RankedAt(g, rank, n)
  {
  }

  /** The resolution of `x`, which holds pivot literal `Lit(p, neg)`, with `y`. */
  function Step(p: Var, x: Tree, y: Tree, neg: bool): Tree {
    if neg then Res(p, y, x) else Res(p, x, y)
  }

  lemma UnfoldStep(g: Graph, rank: map<Id, nat>, n: Id, a: Id, b: Id, neg: bool)
    requires Ranked(g, rank) && n in g && a in g && b in g && Antecedents(g[n], a, b)
    requires Lit(g[n].links.pivot, neg) in C(g, a) && Lit(g[n].links.pivot, !neg) in C(g, b)
    requires Lit(g[n].links.pivot, !neg) !in C(g, a) && Lit(g[n].links.pivot, neg) !in C(g, b)
    ensures Unfold(g, rank, n) == Step(g[n].links.pivot, Unfold(g, rank, a), Unfold(g, rank, b), neg)
  {
    assert RankedAt(g, rank, n);
  }

  /** Node `n` and whatever it derives from are the same in both graphs. */
  ghost predicate SameBelow(g: Graph, h: Graph, rank: map<Id, nat>, changed: set<Id>, bound: nat)
    requires g.Keys <= rank.Keys
  {
    forall n {:trigger SameAt(g, h, changed, n)} :: n in g && rank[n] < bound && n !in changed ==> SameAt(g, h, changed, n)
  }

  ghost predicate SameAt(g: Graph, h: Graph, changed: set<Id>, n: Id)
    requires n in g
  {
    && n in h && h[n].links == g[n].links && h[n].clause == g[n].clause && h[n].ty == g[n].ty
    && forall a {:trigger IsAnt(g[n], a)} :: IsAnt(g[n], a) ==> a !in changed
  }

  /** A node whose derivation avoids the changed nodes unfolds to the same tree. */
  lemma {:induction false} UnfoldSame(g: Graph, h: Graph, rank: map<Id, nat>, rank': map<Id, nat>, changed: set<Id>, bound: nat, n: Id)
    requires Ranked(g, rank) && Ranked(h, rank') && SameBelow(g, h, rank, changed, bound)
    requires n in g && n !in changed && rank[n] < bound
    ensures n in h && Unfold(h, rank', n) == Unfold(g, rank, n)
    decreases rank[n]
  {
    hide Ranked, SameBelow;
    assert RankedAt(g, rank, n) && n in h && RankedAt(h, rank', n) by { SameNode(g, h, rank, rank', changed, bound, n); }
    SameNode(g, h, rank, rank', changed, bound, n);
    if g[n].links.Ants? {
      var a1, a2 := g[n].links.ant1, g[n].links.ant2;
      assert IsAnt(g[n], a1) && IsAnt(g[n], a2);
      SameNode(g, h, rank, rank', changed, bound, a1);
      UnfoldSame(g, h, rank, rank', changed, bound, a1);
      UnfoldSame(g, h, rank, rank', changed, bound, a2);
    }
  }

  lemma SameNode(g: Graph, h: Graph, rank: map<Id, nat>, rank': map<Id, nat>, changed: set<Id>, bound: nat, n: Id)
    requires Ranked(g, rank) && Ranked(h, rank') && SameBelow(g, h, rank, changed, bound)
    requires n in g && n !in changed && rank[n] < bound
    ensures n in h && h[n].links == g[n].links && h[n].clause == g[n].clause && h[n].ty == g[n].ty
    ensures RankedAt(g, rank, n) && RankedAt(h, rank', n)
    ensures forall a {:trigger IsAnt(g[n], a)} :: IsAnt(g[n], a) ==> a !in changed
  {
    assert SameAt(g, h, changed, n);
    assert RankedAt(h, rank', n);
  }

  // ---------------------------------------------------------------------------
  // A2 on trees

  /** v before and after A2: `x1`, `x2`, `x3` are the derivations of v1, v2 and v3. */
  function BeforeSwap(x1: Tree, x2: Tree, x3: Tree, t0: Var, t1: Var, s0: bool, s1: bool): Tree {
    Step(t1, Step(t0, x1, x2, s0), x3, s1)
  }

  function AfterSwap(x1: Tree, x2: Tree, x3: Tree, t0: Var, t1: Var, s0: bool, s1: bool): Tree {
    Step(t0, Step(t1, x1, x3, s1), x2, s0)
  }

  lemma A2Avoids(g: Graph, root: Id, rank: map<Id, nat>, c: Context, h: Graph)
    requires ValidExcept(g, root, rank, {}) && Enabled(g, c) && g[c.w].res == {c.v}
    requires h == ApplyA2(g, c)
    ensures SameBelow(g, h, rank, {c.w, c.v}, rank[c.v])
  {
    ContextDistinct(g, root, rank, c);
    forall n | n in g && rank[n] < rank[c.v] && n !in {c.w, c.v} ensures SameAt(g, h, {c.w, c.v}, n) {
      RotateAt(g, c, c.v3, g[c.v].clause, n);
      assert RankedAt(g, rank, n);
      OnlyChild(g, c, n);
    }
  }

  /** A2 turns the tree of v around and leaves those of v1, v2 and v3 alone. */
  lemma A2Unfolds(g: Graph, root: Id, rank: map<Id, nat>, c: Context, h: Graph, rank': map<Id, nat>)
    returns (x1: Tree, x2: Tree, x3: Tree, s0: bool, s1: bool)
    requires ValidExcept(g, root, rank, {}) && Enabled(g, c) && IsA2(c.ty) && g[c.w].res == {c.v}
    requires h == ApplyA2(g, c) && ValidExcept(h, root, rank', {})
    ensures x1 == Unfold(g, rank, c.v1) && x2 == Unfold(g, rank, c.v2) && x3 == Unfold(g, rank, c.v3)
    ensures Unfold(g, rank, c.v) == BeforeSwap(x1, x2, x3, T0(g, c), T1(g, c), s0, s1)
    ensures c.v in h && Unfold(h, rank', c.v) == AfterSwap(x1, x2, x3, T0(g, c), T1(g, c), s0, s1)
    ensures Local(C(g, c.v1), C(g, c.v2), C(g, c.v3), C(g, c.w), C(g, c.v), T0(g, c), T1(g, c), s0, s1)
  {
    s0, s1 := ContextFacts(g, root, rank, c);
    var t0, t1 := T0(g, c), T1(g, c);
    ContextDistinct(g, root, rank, c);
    x1, x2, x3 := Unfold(g, rank, c.v1), Unfold(g, rank, c.v2), Unfold(g, rank, c.v3);
    A2Avoids(g, root, rank, c, h);
    UnfoldSame(g, h, rank, rank', {c.w, c.v}, rank[c.v], c.v1);
    UnfoldSame(g, h, rank, rank', {c.w, c.v}, rank[c.v], c.v2);
    UnfoldSame(g, h, rank, rank', {c.w, c.v}, rank[c.v], c.v3);
    A2StepsBefore(g, root, rank, c, s0, s1);
    A2StepsAfter(g, root, rank, c, h, rank', s0, s1);
  }

  lemma A2StepsBefore(g: Graph, root: Id, rank: map<Id, nat>, c: Context, s0: bool, s1: bool)
    requires ValidExcept(g, root, rank, {}) && Shape(g, c)
    requires Local(C(g, c.v1), C(g, c.v2), C(g, c.v3), C(g, c.w), C(g, c.v), T0(g, c), T1(g, c), s0, s1)
    ensures Unfold(g, rank, c.v) == BeforeSwap(Unfold(g, rank, c.v1), Unfold(g, rank, c.v2), Unfold(g, rank, c.v3), T0(g, c), T1(g, c), s0, s1)
  {
    hide Unfold, Linked, Ranked;
    assert Ranked(g, rank);
    MentionsSign(C(g, c.v1), T0(g, c), s0);
    MentionsSign(C(g, c.v2), T0(g, c), !s0);
    MentionsSign(C(g, c.w), T1(g, c), s1);
    MentionsSign(C(g, c.v3), T1(g, c), !s1);
    UnfoldStep(g, rank, c.w, c.v1, c.v2, s0);
    UnfoldStep(g, rank, c.v, c.w, c.v3, s1);
  }

  lemma A2StepsAfter(g: Graph, root: Id, rank: map<Id, nat>, c: Context, h: Graph, rank': map<Id, nat>, s0: bool, s1: bool)
    requires ValidExcept(g, root, rank, {}) && Enabled(g, c) && IsA2(c.ty) && Distinct(c)
    requires h == ApplyA2(g, c) && ValidExcept(h, root, rank', {})
    requires Local(C(g, c.v1), C(g, c.v2), C(g, c.v3), C(g, c.w), C(g, c.v), T0(g, c), T1(g, c), s0, s1)
    requires c.v1 in h && c.v2 in h && c.v3 in h
    ensures c.v in h && Unfold(h, rank', c.v) ==
            AfterSwap(Unfold(h, rank', c.v1), Unfold(h, rank', c.v2), Unfold(h, rank', c.v3), T0(g, c), T1(g, c), s0, s1)
  {
    hide Unfold, Linked, Ranked, ApplyA2;
    A2At(g, c, h, c.v1);
    A2At(g, c, h, c.v2);
    A2At(g, c, h, c.v3);
    A2At(g, c, h, c.w);
    A2At(g, c, h, c.v);
    var w' := Resolvent(C(g, c.v1), C(g, c.v3), T1(g, c));
    assert WellFormed(g[c.v1]) && WellFormed(g[c.v3]) && WellFormed(h[c.w]);
    MergedClause(g, c.v1, c.v3, T1(g, c));
    NodeNonTaut(h, c.w);
    MentionsSign(C(g, c.v1), T1(g, c), s1);
    MentionsSign(C(g, c.v3), T1(g, c), !s1);
    MentionsSign(C(g, c.v2), T0(g, c), !s0);
    assert Lit(T0(g, c), s0) in w';
    MentionsSign(w', T0(g, c), s0);
    UnfoldStep(h, rank', c.w, c.v1, c.v3, s1);
    UnfoldStep(h, rank', c.v, c.w, c.v2, s0);
  }

  lemma A2At(g: Graph, c: Context, h: Graph, n: Id)
    requires Shape(g, c) && Distinct(c) && h == ApplyA2(g, c) && n in g
    ensures n in h
    ensures n == c.w ==> h[n].clause == Merge(g[c.v1].clause, g[c.v3].clause, T1(g, c)) && Antecedents(h[n], c.v1, c.v3) && h[n].links.pivot == T1(g, c)
    ensures n == c.v ==> h[n].clause == g[n].clause && Antecedents(h[n], c.w, c.v2) && h[n].links.pivot == T0(g, c)
    ensures n != c.w && n != c.v ==> h[n].clause == g[n].clause && h[n].links == g[n].links && h[n].ty == g[n].ty
  {
    RotateAt(g, c, c.v3, g[c.v].clause, n);
  }
}
