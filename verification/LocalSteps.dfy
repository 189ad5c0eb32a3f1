/** The clause algebra behind the rewriting rules: five clauses v = (v1 v2 | t0) v3 | t1. */
module LocalSteps {
  import opened Clauses
  import opened Proofs

  /** w resolves v1 and v2 on t0 and v resolves w and v3 on t1; `s0` and `s1` are the signs of
      t0 and t1 in v1. No clause contains a complementary pair. */
  ghost predicate Local(c1: set<Lit>, c2: set<Lit>, c3: set<Lit>, w: set<Lit>, v: set<Lit>,
                        t0: Var, t1: Var, s0: bool, s1: bool) {
    && NonTaut(c1) && NonTaut(c2) && NonTaut(c3) && NonTaut(w) && NonTaut(v)
    && t0 != t1
    && Lit(t0, s0) in c1 && Lit(t0, !s0) in c2 && w == Resolvent(c1, c2, t0)
    && Lit(t1, s1) in c1 && Lit(t1, !s1) in c3 && v == Resolvent(w, c3, t1)
  }

  lemma MentionsSign(c: set<Lit>, p: Var, s: bool)
    requires NonTaut(c) && Lit(p, s) in c
    ensures Mentions(c, p) && Lit(p, !s) !in c
  {
    assert Negate(Lit(p, s)) == Lit(p, !s);
  }

  /** A1: t1 occurs in both antecedents of w and t0 not in v3. */
  lemma DistributeClauses(c1: set<Lit>, c2: set<Lit>, c3: set<Lit>, w: set<Lit>, v: set<Lit>,
                          t0: Var, t1: Var, s0: bool, s1: bool)
    requires Local(c1, c2, c3, w, v, t0, t1, s0, s1)
    requires Mentions(c2, t1) && !Mentions(c3, t0)
    ensures var w', y := Resolvent(c1, c3, t1), Resolvent(c2, c3, t1);
            && Resolves(w', c1, c3, t1) && NonTaut(w')
            && Resolves(y, c2, c3, t1) && NonTaut(y)
            && Resolves(v, w', y, t0)
  {
    MentionsSign(c1, t0, s0);
    MentionsSign(c2, t0, !s0);
    SharedSign(c1, c2, w, t0, t1, s1);
    SideNonTaut(c1, c3, v, t0, t1, s0);
    SideNonTaut(c2, c3, v, t0, t1, !s0);
    var w', y := Resolvent(c1, c3, t1), Resolvent(c2, c3, t1);
    assert Lit(t0, s0) in w' && Lit(t0, !s0) in y;
    assert v == Resolvent(w', y, t0);
  }

  /** If both parts of a non-tautological resolvent mention t1, they do so with one sign. */
  lemma SharedSign(c1: set<Lit>, c2: set<Lit>, w: set<Lit>, t0: Var, t1: Var, s1: bool)
    requires NonTaut(w) && w == Resolvent(c1, c2, t0) && t0 != t1
    requires Lit(t1, s1) in c1 && Mentions(c2, t1)
    ensures Lit(t1, s1) in c2
  {
    assert Lit(t1, s1) in w;
    MentionsSign(w, t1, s1);
    assert Lit(t1, !s1) in c2 ==> Lit(t1, !s1) in w;
  }

  /** A resolvent that adds to the non-tautological v only one literal of t0 is no tautology. */
  lemma SideNonTaut(c: set<Lit>, c3: set<Lit>, v: set<Lit>, t0: Var, t1: Var, s: bool)
    requires NonTaut(v) && Lit(t0, !s) !in c && Lit(t0, !s) !in c3
    requires forall l :: l in Resolvent(c, c3, t1) && l.v != t0 ==> l in v
    ensures NonTaut(Resolvent(c, c3, t1))
  {
    forall l | l in Resolvent(c, c3, t1) ensures Negate(l) !in Resolvent(c, c3, t1) {
      if l.v == t0 {
        assert l == Lit(t0, s);
      } else {
        assert l in v;
      }
    }
  }

  /** A2 and B2: t1 occurs in v1 only, and v3 does not hold t0 with the sign of v2. */
  lemma SwapClauses(c1: set<Lit>, c2: set<Lit>, c3: set<Lit>, w: set<Lit>, v: set<Lit>,
                    t0: Var, t1: Var, s0: bool, s1: bool)
    requires Local(c1, c2, c3, w, v, t0, t1, s0, s1)
    requires !Mentions(c2, t1) && Lit(t0, !s0) !in c3
    ensures var w' := Resolvent(c1, c3, t1);
            && Resolves(w', c1, c3, t1) && NonTaut(w')
            && Resolves(Resolvent(w', c2, t0), w', c2, t0)
            && Resolvent(w', c2, t0) <= v
            && NonTaut(Resolvent(w', c2, t0))
            && (!Mentions(c3, t0) ==> Resolvent(w', c2, t0) == v)
            && (Mentions(c3, t0) ==> Resolvent(w', c2, t0) == v - {Lit(t0, s0)} && Lit(t0, s0) in v)
  {
    MentionsSign(c1, t0, s0);
    MentionsSign(c2, t0, !s0);
    SideNonTaut(c1, c3, v, t0, t1, s0);
    var w' := Resolvent(c1, c3, t1);
    assert Lit(t0, s0) in w';
    assert forall l :: l in v <==> l.v != t1 && ((l.v != t0 && (l in c1 || l in c2)) || l in c3);
    assert forall l :: l in c3 && l.v == t0 ==> l == Lit(t0, s0);
  }

  /** A1': v3 itself resolves v2 with `cn` on t0. */
  lemma FactorClauses(c1: set<Lit>, c2: set<Lit>, c3: set<Lit>, w: set<Lit>, v: set<Lit>, cn: set<Lit>,
                      t0: Var, t1: Var, s0: bool, s1: bool)
    requires Local(c1, c2, c3, w, v, t0, t1, s0, s1)
    requires !Mentions(c2, t1) && NonTaut(cn)
    requires Resolves(c3, c2, cn, t0)
    ensures var w' := Resolvent(c1, cn, t1);
            && Resolves(w', c1, cn, t1) && NonTaut(w')
            && Resolves(v, w', c2, t0)
  {
    MentionsSign(c1, t0, s0);
    MentionsSign(c2, t0, !s0);
    assert Lit(t0, s0) in cn && Lit(t1, !s1) in cn;
    MentionsSign(cn, t0, s0);
    SideNonTaut(c1, cn, v, t0, t1, s0);
    var w' := Resolvent(c1, cn, t1);
    assert Lit(t0, s0) in w';
    assert v == Resolvent(w', c2, t0);
  }

  /** B1 and B2': v3 holds t0 with the sign of v1. */
  lemma CutClauses(c1: set<Lit>, c2: set<Lit>, c3: set<Lit>, w: set<Lit>, v: set<Lit>,
                   t0: Var, t1: Var, s0: bool, s1: bool)
    requires Local(c1, c2, c3, w, v, t0, t1, s0, s1)
    requires Lit(t0, s0) in c3
    ensures var v' := Resolvent(c1, c3, t1);
            && Resolves(v', c1, c3, t1) && NonTaut(v') && v' <= v && v != {}
  {
    MentionsSign(c1, t0, s0);
    assert Lit(t0, s0) in v;
    forall l | l in Resolvent(c1, c3, t1) ensures l in v {
      if l in c1 && l.v != t0 {
        assert l in w;
      }
    }
  }

  /** B3: v3 holds t0 with the sign of v2, and t1 is not in v2. */
  lemma ReplaceClauses(c1: set<Lit>, c2: set<Lit>, c3: set<Lit>, w: set<Lit>, v: set<Lit>,
                       t0: Var, t1: Var, s0: bool, s1: bool)
    requires Local(c1, c2, c3, w, v, t0, t1, s0, s1)
    requires !Mentions(c2, t1) && Lit(t0, !s0) in c3
    ensures c2 <= v && v != {}
  {
    assert Lit(t0, !s0) in v;
    MentionsSign(c2, t0, !s0);
    forall l | l in c2 ensures l in v {
      if l.v != t0 {
        assert l in w && (l.v == t1 ==> l == Lit(t1, false) || l == Lit(t1, true));
      }
    }
  }
}
