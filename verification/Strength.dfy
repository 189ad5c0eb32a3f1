/** Comparing the interpolants of one propositional proof under two problems: two labellings of the
    shared variables, or two nested choices of the partitions that form A. */
module Strength {
  import opened Clauses
  import opened Proofs
  import opened Formulas
  import opened Interpolation

  predicate NodeA(s: Problem, t: Tree, v: Var) { ColouredA(s, BitsOf(s, t), v) }
  predicate NodeB(s: Problem, t: Tree, v: Var) { ColouredB(s, BitsOf(s, t), v) }

  ghost predicate Propositional(t: Tree) {
    match t
    case Leaf(_, _, ty) => ty == Orig || ty == Assumption
    case Res(_, pos, neg) => Propositional(pos) && Propositional(neg)
  }

  /** The colours order b <= ab <= a: from `s1` to `s2` a variable may gain a and lose b. */
  ghost predicate ColoursBelow(s1: Problem, s2: Problem, id: Id, c: seq<Lit>) {
    forall v {:trigger VarClass(s1, v)} {:trigger VarClass(s2, v)} ::
      && (ColouredA(s1, LeafBits(s1, id, c), v) ==> ColouredA(s2, LeafBits(s2, id, c), v))
      && (ColouredB(s2, LeafBits(s2, id, c), v) ==> ColouredB(s1, LeafBits(s1, id, c), v))
  }

  /** Every leaf's colours grow from `s1` to `s2`, and A clauses stay A clauses. */
  ghost predicate Below(s1: Problem, s2: Problem, t: Tree) {
    match t
    case Leaf(id, c, _) => ColoursBelow(s1, s2, id, c) && (LeafInA(s1, id) ==> LeafInA(s2, id))
    case Res(_, pos, neg) => Below(s1, s2, pos) && Below(s1, s2, neg)
  }

  /** The variable classes are ordered the same way. */
  ghost predicate ClassesBelow(s1: Problem, s2: Problem) {
    && s1.assumed == s2.assumed
    && (forall v {:trigger VarClass(s1, v)} :: VarClass(s1, v) == A ==> VarClass(s2, v) == A)
    && (forall v {:trigger VarClass(s2, v)} :: VarClass(s2, v) == B ==> VarClass(s1, v) == B)
  }

  /** The clauses that are on the B side in `s1` and on the A side in `s2` hold. */
  ghost predicate MovedHold(s1: Problem, s2: Problem, t: Tree, val: Valuation) {
    match t
    case Leaf(id, c, ty) => ty == Orig && !LeafInA(s1, id) && LeafInA(s2, id) ==> ClauseTrue(Lits(c), val)
    case Res(_, pos, neg) => MovedHold(s1, s2, pos, val) && MovedHold(s1, s2, neg, val)
  }

  ghost predicate AssumptionsHold(s: Problem, val: Valuation) {
    forall l {:trigger l in s.assumed} :: l in s.assumed ==> LitTrue(l, val)
  }

  /** The literals coloured b or ab in `s1` and a or ab in `s2` are false. */
  ghost predicate GapFalse(s1: Problem, s2: Problem, t: Tree, val: Valuation) {
    forall l {:trigger l in Concl(t)} :: l in Concl(t) && NodeB(s1, t, l.v) && NodeA(s2, t, l.v) ==> !LitTrue(l, val)
  }

  /** The order of the leaves' colours is kept by joining and clearing. */
  lemma {:induction false} ColoursGrow(s1: Problem, s2: Problem, t: Tree, v: Var)
    requires ClassesBelow(s1, s2) && Below(s1, s2, t)
    ensures NodeA(s1, t, v) ==> NodeA(s2, t, v)
    ensures NodeB(s2, t, v) ==> NodeB(s1, t, v)
  {
    hide LeafBits, ClassOf;
    match t
    case Leaf(id, c, _) =>
      assert VarClass(s1, v) == A || VarClass(s1, v) != A;
    case Res(p, pos, neg) =>
      ColoursGrow(s1, s2, pos, v);
      ColoursGrow(s1, s2, neg, v);
  }

  lemma LeafGap(s1: Problem, s2: Problem, t: Tree, val: Valuation)
    requires ClassesBelow(s1, s2) && Below(s1, s2, t) && t.Leaf? && t.ty == Orig && NonTaut(Lits(t.clause))
    requires AssumptionsHold(s1, val) && MovedHold(s1, s2, t, val) && GapFalse(s1, s2, t, val)
    requires Eval(Itp(s1, t), val)
    ensures Eval(Itp(s2, t), val)
  {
    hide LeafBits, LeafInA, ClauseItp, ColoursBelow;
    var in1, in2 := LeafInA(s1, t.id), LeafInA(s2, t.id);
    var kept1, kept2 := Restricted(s1, BitsOf(s1, t), t.clause, in1), Restricted(s2, BitsOf(s2, t), t.clause, in2);
    ClauseItpMeans(s1, BitsOf(s1, t), t.clause, in1, val);
    ClauseItpMeans(s2, BitsOf(s2, t), t.clause, in2, val);
    if in2 {
      var l: Lit;
      if in1 {
        l :| l in kept1 && LitTrue(l, val);
        RestrictedElems(s1, BitsOf(s1, t), t.clause, true, l);
      } else {
        l :| l in Lits(t.clause) && LitTrue(l, val);
      }
      TrueIsKept(s1, s2, t, val, l);
    } else if SomeTrue(kept2, val) {
      var l :| l in kept2 && LitTrue(l, val);
      FalseIsKept(s1, s2, t, val, l);
    }
  }

  /** A true literal that `s1` keeps, or that a moved clause has, is kept by `s2`. */
  lemma TrueIsKept(s1: Problem, s2: Problem, t: Tree, val: Valuation, l: Lit)
    requires s1.assumed == s2.assumed && t.Leaf?
    requires AssumptionsHold(s1, val) && GapFalse(s1, s2, t, val)
    requires LitTrue(l, val) && l in t.clause
    requires LeafInA(s1, t.id) ==> l in Restricted(s1, BitsOf(s1, t), t.clause, true)
    requires !LeafInA(s1, t.id) ==> l !in Restricted(s1, BitsOf(s1, t), t.clause, false)
    ensures l in Restricted(s2, BitsOf(s2, t), t.clause, true)
  {
    hide LeafBits, LeafInA;
    RestrictedElems(s1, BitsOf(s1, t), t.clause, LeafInA(s1, t.id), l);
    RestrictedElems(s2, BitsOf(s2, t), t.clause, true, l);
    assert l in Concl(t);
    EveryoneColoured(s1, t, l);
    EveryoneColoured(s2, t, l);
  }

  /** A true literal that a B clause keeps in `s2` is kept in `s1`. */
  lemma FalseIsKept(s1: Problem, s2: Problem, t: Tree, val: Valuation, l: Lit)
    requires s1.assumed == s2.assumed && t.Leaf?
    requires AssumptionsHold(s1, val) && GapFalse(s1, s2, t, val) && LitTrue(l, val)
    requires l in Restricted(s2, BitsOf(s2, t), t.clause, false)
    ensures l in Restricted(s1, BitsOf(s1, t), t.clause, false)
  {
    hide LeafBits, LeafInA;
    RestrictedElems(s1, BitsOf(s1, t), t.clause, false, l);
    RestrictedElems(s2, BitsOf(s2, t), t.clause, false, l);
    assert l in Concl(t);
    EveryoneColoured(s1, t, l);
  }

  /** The gap of an antecedent is closed when the resolvent's is and the pivot is not in the way. */
  lemma GapUp(s1: Problem, s2: Problem, t: Tree, child: Tree, val: Valuation)
    requires t.Res? && (child == t.pos || child == t.neg) && ValidTree(t) && t.pos != t.neg
    requires GapFalse(s1, s2, t, val)
    requires !LitTrue(Lit(t.pivot, child != t.pos), val) || !NodeB(s1, child, t.pivot) || !NodeA(s2, child, t.pivot)
    ensures GapFalse(s1, s2, child, val)
  {
    hide ClassOf;
    forall l | l in Concl(child) && NodeB(s1, child, l.v) && NodeA(s2, child, l.v)
      ensures !LitTrue(l, val)
    {
      if l.v == t.pivot {
        assert Negate(Lit(t.pivot, child != t.pos)) !in Concl(child);
      } else {
        assert l in Concl(t);
      }
    }
  }

  lemma ResGap(s1: Problem, s2: Problem, t: Tree, val: Valuation)
    requires ClassesBelow(s1, s2) && Below(s1, s2, t) && t.Res? && ValidTree(t) && t.pos != t.neg
    requires AssumptionsHold(s1, val) && GapFalse(s1, s2, t, val)
    requires GapFalse(s1, s2, t.pos, val) && Eval(Itp(s1, t.pos), val) ==> Eval(Itp(s2, t.pos), val)
    requires GapFalse(s1, s2, t.neg, val) && Eval(Itp(s1, t.neg), val) ==> Eval(Itp(s2, t.neg), val)
    requires Eval(Itp(s1, t), val)
    ensures Eval(Itp(s2, t), val)
  {
    hide Combine, ClassOf, LeafBits, GapFalse, Below, ClassesBelow;
    var p := t.pivot;
    var j1, j2 := Join(BitsOf(s1, t.pos), BitsOf(s1, t.neg)), Join(BitsOf(s2, t.pos), BitsOf(s2, t.neg));
    CombineMeans(s1, j1, p, Itp(s1, t.pos), Itp(s1, t.neg), val);
    CombineMeans(s2, j2, p, Itp(s2, t.pos), Itp(s2, t.neg), val);
    PivotsGrow(s1, s2, t);
    EveryoneColoured(s1, t.pos, Lit(p, false));
    EveryoneColoured(s2, t.pos, Lit(p, false));
    var blind := !ColouredB(s1, j1, p) || !ColouredA(s2, j2, p);
    if p !in val || blind { GapUp(s1, s2, t, t.pos, val); }
    if p in val || blind { GapUp(s1, s2, t, t.neg, val); }
  }

  lemma PivotsGrow(s1: Problem, s2: Problem, t: Tree)
    requires ClassesBelow(s1, s2) && Below(s1, s2, t) && t.Res?
    ensures s1.assumed == s2.assumed
    ensures var j1, j2 := Join(BitsOf(s1, t.pos), BitsOf(s1, t.neg)), Join(BitsOf(s2, t.pos), BitsOf(s2, t.neg));
            && (ColouredA(s1, j1, t.pivot) ==> ColouredA(s2, j2, t.pivot))
            && (ColouredB(s2, j2, t.pivot) ==> ColouredB(s1, j1, t.pivot))
  {
    hide LeafBits, ClassOf;
    ColoursGrow(s1, s2, t.pos, t.pivot);
    ColoursGrow(s1, s2, t.neg, t.pivot);
  }

  /** The common invariant of strength and path interpolation: the first partial interpolant implies
      the second wherever the moved clauses hold and the gap is closed. */
  lemma {:induction false} WeakensBelow(s1: Problem, s2: Problem, t: Tree, val: Valuation)
    requires ClassesBelow(s1, s2) && Below(s1, s2, t) && ValidTree(t) && Propositional(t)
    requires AssumptionsHold(s1, val) && MovedHold(s1, s2, t, val) && GapFalse(s1, s2, t, val)
    requires Eval(Itp(s1, t), val)
    ensures Eval(Itp(s2, t), val)
  {
    hide Itp, GapFalse, AssumptionsHold, ClassesBelow;
    match t
    case Leaf(_, _, ty) =>
      if ty == Orig { LeafGap(s1, s2, t, val); } else { AssumptionItp(s2, t); }
    case Res(_, pos, neg) =>
      SidesDiffer(t);
      if GapFalse(s1, s2, pos, val) && Eval(Itp(s1, pos), val) { WeakensBelow(s1, s2, pos, val); }
      if GapFalse(s1, s2, neg, val) && Eval(Itp(s1, neg), val) { WeakensBelow(s1, s2, neg, val); }
      ResGap(s1, s2, t, val);
  }

  lemma AssumptionItp(s: Problem, t: Tree)
    requires IsAssumption(t)
    ensures Itp(s, t) == True
  {
  }

  // ---------------------------------------------------------------------------
  // Strength: two labellings of one problem

  function McMillan(id: Id, v: Var): Colour { B }
  function Pudlak(id: Id, v: Var): Colour { AB }
  function McMillanPrime(id: Id, v: Var): Colour { A }

  /** b <= ab <= a, label by label. */
  ghost predicate LabelsBelow(l1: (Id, Var) -> Colour, l2: (Id, Var) -> Colour) {
    forall id, v {:trigger l1(id, v)} {:trigger l2(id, v)} ::
      (l1(id, v) == A ==> l2(id, v) == A) && (l2(id, v) == B ==> l1(id, v) == B)
  }

  lemma LeafLabelsBelow(s: Problem, l1: (Id, Var) -> Colour, l2: (Id, Var) -> Colour, id: Id, c: seq<Lit>)
    requires LabelsBelow(l1, l2)
    ensures ColoursBelow(s.(labels := l1), s.(labels := l2), id, c)
    ensures LeafInA(s.(labels := l1), id) == LeafInA(s.(labels := l2), id)
  {
    hide ClassOf;
    var s1, s2 := s.(labels := l1), s.(labels := l2);
    forall v ensures (ColouredA(s1, LeafBits(s1, id, c), v) ==> ColouredA(s2, LeafBits(s2, id, c), v))
                  && (ColouredB(s2, LeafBits(s2, id, c), v) ==> ColouredB(s1, LeafBits(s1, id, c), v))
    {
      assert VarClass(s1, v) == VarClass(s2, v);
      assert (l1(id, v) == A ==> l2(id, v) == A) && (l2(id, v) == B ==> l1(id, v) == B);
    }
  }

  lemma {:induction false} LabelsGiveBelow(s: Problem, l1: (Id, Var) -> Colour, l2: (Id, Var) -> Colour, t: Tree)
    requires LabelsBelow(l1, l2)
    ensures ClassesBelow(s.(labels := l1), s.(labels := l2)) && Below(s.(labels := l1), s.(labels := l2), t)
  {
    var s1, s2 := s.(labels := l1), s.(labels := l2);
    assert forall v {:trigger VarClass(s1, v)} {:trigger VarClass(s2, v)} :: VarClass(s1, v) == VarClass(s2, v);
    match t
    case Leaf(id, c, _) =>
      LeafLabelsBelow(s, l1, l2, id, c);
    case Res(_, pos, neg) =>
      LabelsGiveBelow(s, l1, l2, pos);
      LabelsGiveBelow(s, l1, l2, neg);
  }

  lemma {:induction false} NothingMoved(s: Problem, l1: (Id, Var) -> Colour, l2: (Id, Var) -> Colour, t: Tree, val: Valuation)
    ensures MovedHold(s.(labels := l1), s.(labels := l2), t, val)
  {
    match t
    case Leaf(_, _, _) =>
    case Res(_, pos, neg) =>
      NothingMoved(s, l1, l2, pos, val);
      NothingMoved(s, l1, l2, neg, val);
  }

  /** On one propositional refutation, the stronger labelling's interpolant implies the weaker one's. */
  lemma LabelsOrderInterpolants(s: Problem, l1: (Id, Var) -> Colour, l2: (Id, Var) -> Colour, t: Tree, val: Valuation)
    requires ValidTree(t) && Propositional(t) && Concl(t) == {} && AssumptionsHold(s, val)
    requires LabelsBelow(l1, l2)
    ensures Eval(Itp(s.(labels := l1), t), val) ==> Eval(Itp(s.(labels := l2), t), val)
  {
    hide Itp;
    LabelsGiveBelow(s, l1, l2, t);
    NothingMoved(s, l1, l2, t, val);
    if Eval(Itp(s.(labels := l1), t), val) {
      WeakensBelow(s.(labels := l1), s.(labels := l2), t, val);
    }
  }

  /** McMillan's interpolant implies every other labelling's, which implies McMillan-prime's; Pudlak's
      symmetric system is one in between. */
  lemma StrengthOrder(s: Problem, labels: (Id, Var) -> Colour, t: Tree, val: Valuation)
    requires ValidTree(t) && Propositional(t) && Concl(t) == {} && AssumptionsHold(s, val)
    ensures Eval(Itp(s.(labels := McMillan), t), val) ==> Eval(Itp(s.(labels := labels), t), val)
    ensures Eval(Itp(s.(labels := labels), t), val) ==> Eval(Itp(s.(labels := McMillanPrime), t), val)
    ensures Eval(Itp(s.(labels := McMillan), t), val) ==> Eval(Itp(s.(labels := Pudlak), t), val)
    ensures Eval(Itp(s.(labels := Pudlak), t), val) ==> Eval(Itp(s.(labels := McMillanPrime), t), val)
  {
    hide Itp;
    LabelsOrderInterpolants(s, McMillan, labels, t, val);
    LabelsOrderInterpolants(s, labels, McMillanPrime, t, val);
    LabelsOrderInterpolants(s, McMillan, Pudlak, t, val);
    LabelsOrderInterpolants(s, Pudlak, McMillanPrime, t, val);
  }

  // ---------------------------------------------------------------------------
  // Path interpolation: two nested choices of A

  /** The original clauses of the partitions `ps` hold. */
  ghost predicate PartitionsHold(s: Problem, t: Tree, ps: set<nat>, val: Valuation) {
    match t
    case Leaf(id, c, ty) => ty == Orig && s.mask(id) * ps != {} ==> ClauseTrue(Lits(c), val)
    case Res(_, pos, neg) => PartitionsHold(s, pos, ps, val) && PartitionsHold(s, neg, ps, val)
  }

  lemma ClassGrows(m: set<nat>, a1: set<nat>, a2: set<nat>)
    requires a1 <= a2
    ensures ClassOf(m, a1) == A ==> ClassOf(m, a2) == A
    ensures ClassOf(m, a2) == B ==> ClassOf(m, a1) == B
    ensures ClassOf(m, a1) == B && ClassOf(m, a2) != B ==> m * (a2 - a1) != {}
  {
    if k :| k in m * a1 { assert k in m * a2; }
    if k :| k in m - a2 { assert k in m - a1; }
    if k :| k in m * a2 { assert k in m * a1 || k in m * (a2 - a1); }
  }

  lemma LeafCutsBelow(s: Problem, a1: set<nat>, a2: set<nat>, id: Id, c: seq<Lit>)
    requires a1 <= a2
    ensures ColoursBelow(s.(aMask := a1), s.(aMask := a2), id, c)
    ensures LeafInA(s.(aMask := a1), id) ==> LeafInA(s.(aMask := a2), id)
  {
    hide ClassOf;
    var s1, s2 := s.(aMask := a1), s.(aMask := a2);
    ClassGrows(s.mask(id), a1, a2);
    forall v ensures (ColouredA(s1, LeafBits(s1, id, c), v) ==> ColouredA(s2, LeafBits(s2, id, c), v))
                  && (ColouredB(s2, LeafBits(s2, id, c), v) ==> ColouredB(s1, LeafBits(s1, id, c), v))
    {
      ClassGrows(s.part(v), a1, a2);
      assert IsAssumedVar(s1, v) == IsAssumedVar(s2, v);
    }
  }

  /** The same labels for the variables that are shared in either cut. */
  lemma {:induction false} CutsGiveBelow(s: Problem, a1: set<nat>, a2: set<nat>, t: Tree)
    requires a1 <= a2
    ensures ClassesBelow(s.(aMask := a1), s.(aMask := a2)) && Below(s.(aMask := a1), s.(aMask := a2), t)
  {
    hide ClassOf;
    var s1, s2 := s.(aMask := a1), s.(aMask := a2);
    forall v ensures (VarClass(s1, v) == A ==> VarClass(s2, v) == A) && (VarClass(s2, v) == B ==> VarClass(s1, v) == B) {
      ClassGrows(s.part(v), a1, a2);
    }
    match t
    case Leaf(id, c, _) =>
      LeafCutsBelow(s, a1, a2, id, c);
    case Res(_, pos, neg) =>
      CutsGiveBelow(s, a1, a2, pos);
      CutsGiveBelow(s, a1, a2, neg);
  }

  lemma {:induction false} MovedPartitions(s: Problem, a1: set<nat>, a2: set<nat>, t: Tree, val: Valuation)
    requires a1 <= a2 && PartitionsHold(s, t, a2 - a1, val)
    ensures MovedHold(s.(aMask := a1), s.(aMask := a2), t, val)
  {
    hide ClassOf;
    match t
    case Leaf(id, _, _) =>
      ClassGrows(s.mask(id), a1, a2);
    case Res(_, pos, neg) =>
      MovedPartitions(s, a1, a2, pos, val);
      MovedPartitions(s, a1, a2, neg, val);
  }

  /** Path interpolation: the interpolant for the smaller A and the partitions moved from B to A
      together imply the interpolant for the larger A. It holds for McMillan's labelling, and for any
      other that gives a shared variable the same label in both cuts. */
  lemma PathInterpolation(s: Problem, a1: set<nat>, a2: set<nat>, t: Tree, val: Valuation)
    requires ValidTree(t) && Propositional(t) && Concl(t) == {} && AssumptionsHold(s, val) && a1 <= a2
    requires PartitionsHold(s, t, a2 - a1, val)
    ensures Eval(Itp(s.(aMask := a1), t), val) ==> Eval(Itp(s.(aMask := a2), t), val)
  {
    hide Itp;
    CutsGiveBelow(s, a1, a2, t);
    MovedPartitions(s, a1, a2, t, val);
    if Eval(Itp(s.(aMask := a1), t), val) {
      WeakensBelow(s.(aMask := a1), s.(aMask := a2), t, val);
    }
  }
}
