/** What the variants of the swap rules are for: A1B and A2B expose a cut, and A2U moves a unit clause down. */
module FollowUps {
  import opened Clauses
  import opened Proofs
  import opened LocalSteps
  import opened Rules
  import opened Contexts

  predicate IsB(t: RuleType) {
    t == B1 || t == B2 || t == B2Prime || t == B3
  }

  /** Where t0 is in the third clause, one of the B rules fits. */
  lemma SomeBFits(a1: seq<Lit>, a2: seq<Lit>, c3: seq<Lit>, t0: Var, t1: Var, v3OnT0: bool, undo1: bool, undo2: bool, vSize: nat) returns (ty: RuleType, first: bool)
    requires Resolvable(a1, a2, c3, t0, t1) && Mentions(Lits(c3), t0)
    ensures IsB(ty) && RuleCondition(ty, if first then a1 else a2, if first then a2 else a1, c3, t0, t1, v3OnT0, if first then undo1 else undo2, vSize)
  {
    Signs(a1, a2, t0);
    SignsMatch(a1, c3, t0);
    SignsMatch(a2, c3, t0);
    var inBoth := Mentions(Lits(a1), t1) && Mentions(Lits(a2), t1);
    first := if inBoth then SameSign(Lits(a1), Lits(c3), t0) else Mentions(Lits(a1), t1);
    var same := SameSign(Lits(if first then a1 else a2), Lits(c3), t0);
    ty := if inBoth then B1 else if !same then B3 else if vSize == 1 then B2 else B2Prime;
  }

  /** A node `n` resolves `a` with v3 on t1, v3 resolves on t0, and `a` has t0: a cut rule is enabled at `n`. */
  lemma CutAt(h: Graph, n: Id, v3: Id, a: Id) returns (d: Context)
    requires n in h && v3 in h && a in h && Antecedents(h[n], v3, a) && h[v3].links.Ants?
    requires h[v3].links.ant1 in h && h[v3].links.ant2 in h
    requires Mentions(C(h, a), h[v3].links.pivot)
    requires Resolvable(h[h[v3].links.ant1].clause, h[h[v3].links.ant2].clause, h[a].clause, h[v3].links.pivot, h[n].links.pivot)
    ensures Enabled(h, d) && IsB(d.ty) && d.v == n && d.w == v3 && d.v3 == a
  {
    var b1, b2 := h[v3].links.ant1, h[v3].links.ant2;
    var v3OnT0 := h[a].links.Ants? && h[a].links.pivot == h[v3].links.pivot;
    var single := h[v3].res == {n};
    var ty, first := SomeBFits(h[b1].clause, h[b2].clause, h[a].clause, h[v3].links.pivot, h[n].links.pivot, v3OnT0,
                               IsAnt(h[a], b2) && single, IsAnt(h[a], b1) && single, |h[n].clause|);
    d := if first then Context(ty, b1, b2, v3, a, n) else Context(ty, b2, b1, v3, a, n);
  }

  /** The antecedents of v3 keep their clauses in a rotation, and can be resolved as before. */
  lemma UpperStep(g: Graph, root: Id, rank: map<Id, nat>, c: Context, a: Id)
    requires ValidExcept(g, root, rank, {}) && Shape(g, c) && Distinct(c) && g[c.w].res == {c.v} && OnT0(g, c) && T0(g, c) != T1(g, c)
    requires Mentions(C(g, c.v3), T1(g, c)) && a in g
    ensures var b1, b2 := g[c.v3].links.ant1, g[c.v3].links.ant2;
            && b1 in g && b2 in g && b1 !in {c.w, c.v} && b2 !in {c.w, c.v}
            && Resolvable(g[b1].clause, g[b2].clause, g[a].clause, T0(g, c), T1(g, c))
  {
    var b1, b2 := g[c.v3].links.ant1, g[c.v3].links.ant2;
    assert WellDerived(g, c.v3) && RankedAt(g, rank, c.v3) && RankedAt(g, rank, c.v);
    assert WellFormed(g[b1]) && WellFormed(g[b2]) && WellFormed(g[a]);
    OnlyChild(g, c, c.v3);
  }

  lemma SwapFacts(g: Graph, root: Id, rank: map<Id, nat>, c: Context) returns (s0: bool, s1: bool)
    requires ValidExcept(g, root, rank, {}) && Applicable(g, c)
    ensures Shape(g, c) && Distinct(c) && T0(g, c) != T1(g, c) && Lit(T0(g, c), s0) in C(g, c.v1) && Lit(T0(g, c), !s0) in C(g, c.v2)
    ensures Mentions(C(g, c.v3), T1(g, c))
    ensures Local(C(g, c.v1), C(g, c.v2), C(g, c.v3), C(g, c.w), C(g, c.v), T0(g, c), T1(g, c), s0, s1)
  {
    ApplicableDistinct(g, root, rank, c);
    s0, s1 := ContextFacts(g, root, rank, c);
  }

  /** After A2B a cut rule is enabled at the new w, with v3 in the place of w. */
  lemma A2BExposesCut(g: Graph, root: Id, rank: map<Id, nat>, c: Context) returns (d: Context)
    requires Refutation(g, root, rank) && Applicable(g, c) && c.ty == A2B && g[c.w].res == {c.v}
    ensures Enabled(ApplyA2(g, c), d) && IsB(d.ty) && d.v == c.w && d.w == c.v3 && d.v3 == c.v1
  {
    hide Rotate, Merge, Local;
    var s0, s1 := SwapFacts(g, root, rank, c);
    UpperStep(g, root, rank, c, c.v1);
    var h := ApplyA2(g, c);
    RotateAt(g, c, c.v3, g[c.v].clause, c.w);
    RotateAt(g, c, c.v3, g[c.v].clause, c.v1);
    RotateAt(g, c, c.v3, g[c.v].clause, c.v3);
    RotateAt(g, c, c.v3, g[c.v].clause, g[c.v3].links.ant1);
    RotateAt(g, c, c.v3, g[c.v].clause, g[c.v3].links.ant2);
    d := CutAt(h, c.w, c.v3, c.v1);
  }

  /** After A1B one is enabled both at the new w and at the node that was added. */
  lemma A1BExposesCuts(g: Graph, root: Id, rank: map<Id, nat>, c: Context, y: Id) returns (d: Context, e: Context)
    requires Refutation(g, root, rank) && Enabled(g, c) && c.ty == A1B && g[c.w].res == {c.v} && y !in g
    ensures Enabled(ApplyA1(g, c, y), d) && IsB(d.ty) && d.v == c.w && d.w == c.v3 && d.v3 == c.v1
    ensures Enabled(ApplyA1(g, c, y), e) && IsB(e.ty) && e.v == y && e.w == c.v3 && e.v3 == c.v2
  {
    hide ApplyA1, Merge, Local;
    EnabledApplies(g, c);
    var s0, s1 := SwapFacts(g, root, rank, c);
    UpperStep(g, root, rank, c, c.v1);
    UpperStep(g, root, rank, c, c.v2);
    var h := ApplyA1(g, c, y);
    A1Pointwise(g, c, y, c.w);
    A1Pointwise(g, c, y, y);
    A1Pointwise(g, c, y, c.v1);
    A1Pointwise(g, c, y, c.v2);
    A1Pointwise(g, c, y, c.v3);
    A1Pointwise(g, c, y, g[c.v3].links.ant1);
    A1Pointwise(g, c, y, g[c.v3].links.ant2);
    d := CutAt(h, c.w, c.v3, c.v1);
    e := CutAt(h, y, c.v3, c.v2);
  }

  /** A2U moves a unit clause one step down: v resolves on it now, and the new w has v's clause and one literal. */
  lemma A2UMovesUnit(g: Graph, root: Id, rank: map<Id, nat>, c: Context) returns (l: Lit)
    requires Refutation(g, root, rank) && Applicable(g, c) && c.ty == A2U && g[c.w].res == {c.v}
    ensures var h := ApplyA2(g, c);
            && c.v2 in h && c.w in h && c.v in h && C(h, c.v2) == {Negate(l)} && l !in C(g, c.v) && C(h, c.w) == C(g, c.v) + {l}
            && Antecedents(h[c.v], c.w, c.v2) && h[c.v].links.pivot == l.v
  {
    hide Rotate, Local;
    var s0, s1 := SwapFacts(g, root, rank, c);
    l := Lit(T0(g, c), s0);
    UnitClause(g[c.v2].clause, Negate(l));
    A2Preserves(g, root, rank, c);
    var h := ApplyA2(g, c);
    RotateAt(g, c, c.v3, g[c.v].clause, c.w);
    RotateAt(g, c, c.v3, g[c.v].clause, c.v);
    RotateAt(g, c, c.v3, g[c.v].clause, c.v2);
    assert WellDerived(h, c.v) && WellFormed(h[c.w]);
    NodeNonTaut(h, c.w);
    var s := PivotSigns(C(h, c.v), C(h, c.w), C(h, c.v2), l.v);
  }
}
