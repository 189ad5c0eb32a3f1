/** How the solver recognises a rule context: a handful of binary searches and comparisons decide
    which antecedent of w plays v1 and which rule applies. */
module Contexts {
  import opened Clauses
  import opened Proofs
  import opened LocalSteps

  /** What the resolution steps of a context guarantee about w's antecedents `a1` and `a2` and v3. */
  ghost predicate Resolvable(a1: seq<Lit>, a2: seq<Lit>, c3: seq<Lit>, t0: Var, t1: Var) {
    && SortedVars(a1) && SortedVars(a2) && SortedVars(c3)
    && ((Lit(t0, false) in Lits(a1) && Lit(t0, true) in Lits(a2)) || (Lit(t0, true) in Lits(a1) && Lit(t0, false) in Lits(a2)))
    && (Mentions(Lits(a1), t1) || Mentions(Lits(a2), t1))
  }

  /** Decides the rule. `first` says that v1 is w's first antecedent; the `inV3` flags say that an
      antecedent of w is one of v3 too, and `single` that v is w's only resolvent. */
  method Classify(a1: seq<Lit>, a2: seq<Lit>, c3: seq<Lit>, t0: Var, t1: Var,
                  v3OnT0: bool, a1InV3: bool, a2InV3: bool, single: bool, vSize: nat)
    returns (ty: RuleType, first: bool)
    requires Resolvable(a1, a2, c3, t0, t1)
    ensures RuleCondition(ty, if first then a1 else a2, if first then a2 else a1, c3, t0, t1, v3OnT0,
                          (if first then a2InV3 else a1InV3) && single, vSize)
    ensures Mentions(Lits(a1), t1) && Mentions(Lits(a2), t1) && !Mentions(Lits(c3), t0) ==> first
  {
    var r0 := HasOccurrenceBin(c3, t0);
    var p1 := HasOccurrenceBin(a1, t0);
    var q1 := HasOccurrenceBin(a1, t1);
    var q2 := HasOccurrenceBin(a2, t1);
    Signs(a1, a2, t0);
    var t0InC3 := r0 != Absent;
    var t1InBoth := q1 != Absent && q2 != Absent;
    first := if !t1InBoth then q1 != Absent
             else if t0InC3 then p1 == r0
             else true;
    var sameSign := t0InC3 && (p1 == r0) == first;
    if !t1InBoth && !t0InC3 {
      if v3OnT0 && single && (if first then a2InV3 else a1InV3) {
        ty := A1Prime;
      } else if v3OnT0 {
        ty := A2B;
      } else if (if first then |a2| else |a1|) == 1 {
        ty := A2U;
      } else {
        ty := A2;
      }
    } else if t1InBoth && !t0InC3 {
      ty := if v3OnT0 then A1B else A1;
    } else if t1InBoth {
      ty := B1;
    } else if sameSign {
      ty := if vSize == 1 then B2 else B2Prime;
    } else {
      ty := B3;
    }
    if t0InC3 {
      SignsMatch(if first then a1 else a2, c3, t0);
    }
  }

  /** The context the solver works with at v3 and v: none if the other antecedent of v is a leaf, otherwise the one
      whose rule is enabled; where A1 leaves open which antecedent of w is v1, it is the first. */
  ghost predicate ContextOf(g: Graph, v3: Id, v: Id, c: Context) {
    && v in g && IsAnt(g[v], v3)
    && var w := if g[v].links.ant1 == v3 then g[v].links.ant2 else g[v].links.ant1;
       && w in g
       && if g[w].links.NoAnts? then c == Context(NoRule, 0, 0, 0, 0, 0)
          else Enabled(g, c) && c.v == v && c.v3 == v3 && (IsA1(c.ty) ==> c.v1 == g[c.w].links.ant1)
  }

  /** There is only one. */
  lemma ContextUnique(g: Graph, root: Id, rank: map<Id, nat>, v3: Id, v: Id, c: Context, d: Context)
    requires ValidExcept(g, root, rank, {}) && ContextOf(g, v3, v, c) && ContextOf(g, v3, v, d)
    ensures c == d
  {
    hide ValidExcept, RuleCondition;
    if c.ty == NoRule { NoRuleIsNone(g, c); }
    if d.ty == NoRule { NoRuleIsNone(g, d); }
    if c.ty != NoRule && d.ty != NoRule {
      RuleUnique(g, root, rank, c, d);
      assert Antecedents(g[c.w], c.v1, c.v2) && Antecedents(g[d.w], d.v1, d.v2);
    }
  }

  lemma NoRuleIsNone(g: Graph, c: Context)
    requires c.ty == NoRule
    ensures !Enabled(g, c)
  {
  }

  /** The antecedents of w hold t0 with opposite signs, each with one. */
  lemma Signs(a1: seq<Lit>, a2: seq<Lit>, t0: Var)
    requires SortedVars(a1) && SortedVars(a2)
    requires (Lit(t0, false) in Lits(a1) && Lit(t0, true) in Lits(a2)) || (Lit(t0, true) in Lits(a1) && Lit(t0, false) in Lits(a2))
    ensures Lit(t0, true) in Lits(a1) <==> Lit(t0, false) !in Lits(a1)
    ensures Lit(t0, true) in Lits(a2) <==> Lit(t0, true) !in Lits(a1)
    ensures Lit(t0, false) in Lits(a2) <==> Lit(t0, true) in Lits(a1)
  {
    SortedVarsFacts(a1);
    SortedVarsFacts(a2);
    MentionsSign(Lits(a1), t0, Lit(t0, true) in Lits(a1));
    MentionsSign(Lits(a2), t0, Lit(t0, false) in Lits(a1));
  }

  lemma SignsMatch(c1: seq<Lit>, c3: seq<Lit>, t0: Var)
    requires SortedVars(c1) && SortedVars(c3) && Mentions(Lits(c1), t0) && Mentions(Lits(c3), t0)
    ensures SameSign(Lits(c1), Lits(c3), t0) <==> (Lit(t0, true) in Lits(c1) <==> Lit(t0, true) in Lits(c3))
  {
    SortedVarsFacts(c1);
    SortedVarsFacts(c3);
    MentionsSign(Lits(c1), t0, Lit(t0, true) in Lits(c1));
    MentionsSign(Lits(c3), t0, Lit(t0, true) in Lits(c3));
  }

  /** At most one rule applies at v3 and v, and only A1 leaves open which antecedent of w is v1. */
  lemma RuleUnique(g: Graph, root: Id, rank: map<Id, nat>, c: Context, d: Context)
    requires ValidExcept(g, root, rank, {}) && Enabled(g, c) && Enabled(g, d)
    requires c.v == d.v && c.v3 == d.v3
    ensures c.ty == d.ty && c.w == d.w && (IsA1(c.ty) || c == d)
  {
    var c1, c2 := g[c.v1].clause, g[c.v2].clause;
    assert WellDerived(g, c.v) && WellDerived(g, c.w);
    assert WellFormed(g[c.v1]) && WellFormed(g[c.v2]) && WellFormed(g[c.v3]);
    Signs(c1, c2, T0(g, c));
    if Mentions(Lits(g[c.v3].clause), T0(g, c)) {
      SignsMatch(c1, g[c.v3].clause, T0(g, c));
      SignsMatch(c2, g[c.v3].clause, T0(g, c));
    }
  }
}
