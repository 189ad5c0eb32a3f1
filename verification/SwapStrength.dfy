/** How A2 changes interpolants: pivots keep their colours, the table of colour pairs tells which of
    the old and the new partial interpolant implies the other, and the root's interpolant follows. */
module SwapStrength {
  import opened Clauses
  import opened Proofs
  import opened LocalSteps
  import opened Rules
  import opened Formulas
  import opened Interpolation
  import opened Unfolding

  /** Only variables of a node's clause have colour bits at the node. */
  lemma {:induction false} BitsInClause(s: Problem, t: Tree, v: Var)
    requires v in BitsOf(s, t).a || v in BitsOf(s, t).b
    ensures Mentions(Concl(t), v) && VarClass(s, v) == AB
  {
    hide VarClass;
    match t
    case Leaf(id, c, _) =>
      var l :| l in c && l.v == v;
      assert l == Lit(v, l.neg);
    case Res(p, pos, neg) =>
      if v in BitsOf(s, pos).a || v in BitsOf(s, pos).b { BitsInClause(s, pos, v); } else { BitsInClause(s, neg, v); }
  }

  function StepBits(s: Problem, x: Tree, y: Tree): Bits {
    Join(BitsOf(s, x), BitsOf(s, y))
  }

  lemma StepBitsOf(s: Problem, p: Var, x: Tree, y: Tree, neg: bool)
    ensures BitsOf(s, Step(p, x, y, neg)) == (if VarClass(s, p) == AB then Clear(StepBits(s, x, y), p) else StepBits(s, x, y))
    ensures StepBits(s, x, y) == StepBits(s, y, x)
  {
    hide VarClass;
    assert BitsOf(s, x).a + BitsOf(s, y).a == BitsOf(s, y).a + BitsOf(s, x).a;
    assert BitsOf(s, x).b + BitsOf(s, y).b == BitsOf(s, y).b + BitsOf(s, x).b;
  }

  /** t0 and t1 each occur in x1 and one of the others only. */
  ghost predicate Swappable(x1: Tree, x2: Tree, x3: Tree, t0: Var, t1: Var, s0: bool, s1: bool) {
    && t0 != t1
    && Lit(t0, s0) in Concl(x1) && Lit(t1, s1) in Concl(x1)
    && !Mentions(Concl(x3), t0) && !Mentions(Concl(x2), t1)
  }

  /** Both pivots keep their colours, and so does every variable of v. */
  lemma PivotsKeepColours(s: Problem, x1: Tree, x2: Tree, x3: Tree, t0: Var, t1: Var, s0: bool, s1: bool)
    requires Swappable(x1, x2, x3, t0, t1, s0, s1)
    ensures var w, w' := Step(t0, x1, x2, s0), Step(t1, x1, x3, s1);
            && (ColouredA(s, StepBits(s, x1, x2), t0) <==> ColouredA(s, StepBits(s, w', x2), t0))
            && (ColouredB(s, StepBits(s, x1, x2), t0) <==> ColouredB(s, StepBits(s, w', x2), t0))
            && (ColouredA(s, StepBits(s, w, x3), t1) <==> ColouredA(s, StepBits(s, x1, x3), t1))
            && (ColouredB(s, StepBits(s, w, x3), t1) <==> ColouredB(s, StepBits(s, x1, x3), t1))
    ensures BitsOf(s, BeforeSwap(x1, x2, x3, t0, t1, s0, s1)) == BitsOf(s, AfterSwap(x1, x2, x3, t0, t1, s0, s1))
  {
    hide VarClass, BitsOf;
    var w, w' := Step(t0, x1, x2, s0), Step(t1, x1, x3, s1);
    StepBitsOf(s, t0, x1, x2, s0);
    StepBitsOf(s, t1, x1, x3, s1);
    StepBitsOf(s, t1, w, x3, s1);
    StepBitsOf(s, t0, w', x2, s0);
    if t0 in BitsOf(s, x3).a || t0 in BitsOf(s, x3).b { BitsInClause(s, x3, t0); }
    if t1 in BitsOf(s, x2).a || t1 in BitsOf(s, x2).b { BitsInClause(s, x2, t1); }
    SameBits(BitsOf(s, x1).a, BitsOf(s, x2).a, BitsOf(s, x3).a, t0, t1);
    SameBits(BitsOf(s, x1).b, BitsOf(s, x2).b, BitsOf(s, x3).b, t0, t1);
  }

  lemma SameBits(b1: set<Var>, b2: set<Var>, b3: set<Var>, t0: Var, t1: Var)
    requires t0 !in b3 && t1 !in b2 && t0 != t1
    ensures b1 + b2 + b3 == b1 + b3 + b2
    ensures (b1 + b2 - {t0}) + b3 == (b1 + b3) + b2 - {t0}
    ensures (b1 + b2) + b3 - {t1} == (b1 + b3 - {t1}) + b2
    ensures (b1 + b2 - {t0}) + b3 - {t1} == (b1 + b3 - {t1}) + b2 - {t0}
  {
  }

  // ---------------------------------------------------------------------------
  // The table

  /** How the interpolant of a resolvent combines those of its antecedents: by the pivot's colour, or
      by taking that of the positive or the negative one at an assumed pivot. */
  datatype Mode = Coloured(c: Colour) | TakePos | TakeNeg

  function ModeOf(s: Problem, bits: Bits, p: Var): Mode {
    if IsAssumedVar(s, p) then (if Lit(p, false) in s.assumed then TakeNeg else TakePos)
    else if ColouredA(s, bits, p) && !ColouredB(s, bits, p) then Coloured(A)
    else if ColouredB(s, bits, p) && !ColouredA(s, bits, p) then Coloured(B)
    else Coloured(AB)
  }

  /** The combination of `x`, from the antecedent holding `Lit(p, neg)`, and `y`. */
  ghost predicate Mix(m: Mode, pTrue: bool, x: bool, y: bool, neg: bool) {
    match m
    case TakePos => if neg then y else x
    case TakeNeg => if neg then x else y
    case Coloured(c) =>
      if c == A then x || y else if c == B then x && y
      else (x || pTrue != neg) && (y || pTrue == neg)
  }

  lemma StepMix(s: Problem, p: Var, x: Tree, y: Tree, neg: bool, val: Valuation)
    ensures Eval(Itp(s, Step(p, x, y, neg)), val) <==>
            Mix(ModeOf(s, StepBits(s, x, y), p), p in val, Eval(Itp(s, x), val), Eval(Itp(s, y), val), neg)
  {
    hide Combine, BitsOf, VarClass;
    StepBitsOf(s, p, x, y, neg);
    if neg {
      CombineMeans(s, StepBits(s, y, x), p, Itp(s, y), Itp(s, x), val);
    } else {
      CombineMeans(s, StepBits(s, x, y), p, Itp(s, x), Itp(s, y), val);
    }
  }

  datatype Change = Same | Weaker | Stronger | Unrelated

  /** The table of A2: what happens to v's interpolant, by the colours of the pivots of w and v. */
  function Table(w: Colour, v: Colour): Change {
    match (w, v)
    case (A, A) => Same
    case (B, B) => Same
    case (A, B) => Weaker
    case (B, A) => Stronger
    case (A, AB) => Weaker
    case (B, AB) => Stronger
    case (AB, A) => Stronger
    case (AB, B) => Weaker
    case (AB, AB) => Unrelated
  }

  ghost predicate Changed(change: Change, before: bool, after: bool) {
    && (change == Same ==> before == after)
    && (change == Weaker ==> (before ==> after))
    && (change == Stronger ==> (after ==> before))
  }

  /** Every row of the table holds, under every valuation. The last four lines cover pivots that are
      assumption literals, which the table leaves out. */
  lemma TableHolds(s: Problem, x1: Tree, x2: Tree, x3: Tree, t0: Var, t1: Var, s0: bool, s1: bool, val: Valuation)
    requires Swappable(x1, x2, x3, t0, t1, s0, s1)
    ensures var w := Step(t0, x1, x2, s0);
            var mw, mv := ModeOf(s, StepBits(s, x1, x2), t0), ModeOf(s, StepBits(s, w, x3), t1);
            var before, after := Eval(Itp(s, BeforeSwap(x1, x2, x3, t0, t1, s0, s1)), val), Eval(Itp(s, AfterSwap(x1, x2, x3, t0, t1, s0, s1)), val);
            && (mw.Coloured? && mv.Coloured? ==> Changed(Table(mw.c, mv.c), before, after))
            && (mw == Coloured(A) && !mv.Coloured? ==> (before ==> after))
            && (mw == Coloured(B) && !mv.Coloured? ==> (after ==> before))
            && (!mw.Coloured? && mv == Coloured(A) ==> (after ==> before))
            && (!mw.Coloured? && mv == Coloured(B) ==> (before ==> after))
  {
    hide Itp, BitsOf, VarClass;
    var w, w' := Step(t0, x1, x2, s0), Step(t1, x1, x3, s1);
    PivotsKeepColours(s, x1, x2, x3, t0, t1, s0, s1);
    StepMix(s, t0, x1, x2, s0, val);
    StepMix(s, t1, w, x3, s1, val);
    StepMix(s, t1, x1, x3, s1, val);
    StepMix(s, t0, w', x2, s0, val);
  }

  /** Both variables are shared; variable 0 is labelled `w` and the others `v`; clause `inA` is the A clause. */
  function TwoLabels(inA: Id, w: Colour, v: Colour): Problem {
    Problem(x => {0, 1}, id => if id == inA then {0} else {1}, {0}, {}, (id, x) => if x == 0 then w else v, id => True, false)
  }

  /** The three clauses of a swap on the pivots 0 and 1. */
  ghost predicate SmallSwap(x1: Tree, x2: Tree, x3: Tree) {
    x1 == Leaf(1, [Lit(0, false), Lit(1, false)], Orig) && x2 == Leaf(2, [Lit(0, true)], Orig) && x3 == Leaf(3, [Lit(1, true)], Orig)
  }

  /** The table leaves out no implication that holds: where it says weaker there is a problem in which only the new
      interpolant is true, where it says stronger one in which only the old one is, and where it says unrelated there
      are both. */
  lemma RowsAreTight(k: Id, w: Colour, v: Colour, x1: Tree, x2: Tree, x3: Tree, val: Valuation)
    requires SmallSwap(x1, x2, x3) && val == iset{0, 1} && k in {2, 3}
    ensures Swappable(x1, x2, x3, 0, 1, false, false)
    ensures var s := TwoLabels(k, w, v);
            var before, after := Eval(Itp(s, BeforeSwap(x1, x2, x3, 0, 1, false, false)), val), Eval(Itp(s, AfterSwap(x1, x2, x3, 0, 1, false, false)), val);
            && ModeOf(s, StepBits(s, x1, x2), 0) == Coloured(w) && ModeOf(s, StepBits(s, Step(0, x1, x2, false), x3), 1) == Coloured(v)
            && (k == 2 && Table(w, v) in {Stronger, Unrelated} ==> before && !after)
            && (k == 3 && Table(w, v) in {Weaker, Unrelated} ==> !before && after)
  {
    hide Itp, BitsOf, ClauseItp, LeafItp;
    var s := TwoLabels(k, w, v);
    assert x1.clause[0] in x1.clause && x1.clause[1] in x1.clause && x2.clause[0] in x2.clause && x3.clause[0] in x3.clause;
    var step := Step(0, x1, x2, false);
    PivotsKeepColours(s, x1, x2, x3, 0, 1, false, false);
    StepMix(s, 0, x1, x2, false, val);
    StepMix(s, 1, step, x3, false, val);
    StepMix(s, 1, x1, x3, false, val);
    StepMix(s, 0, Step(1, x1, x3, false), x2, false, val);
    TwoColours(k, w, v, x1, x2, x3);
    UnitItp(k, w, v, x2, val);
    UnitItp(k, w, v, x3, val);
  }

  /** A false unit clause has a false interpolant in A and a true one in B, whatever its label. */
  lemma UnitItp(k: Id, w: Colour, v: Colour, x: Tree, val: Valuation)
    requires x.Leaf? && x.ty == Orig && |x.clause| == 1 && x.clause[0].neg && x.clause[0].v in {0, 1} && val == iset{0, 1}
    ensures Eval(Itp(TwoLabels(k, w, v), x), val) <==> x.id != k
  {
    var s := TwoLabels(k, w, v);
    var l := x.clause[0];
    ClauseItpMeans(s, BitsOf(s, x), x.clause, LeafInA(s, x.id), val);
    assert s.mask(x.id) * s.aMask == if x.id == k then {0} else {};
    assert s.mask(x.id) - s.aMask == if x.id == k then {} else {1};
    var kept := Restricted(s, BitsOf(s, x), x.clause, LeafInA(s, x.id));
    if SomeTrue(kept, val) {
      var m :| m in kept && LitTrue(m, val);
      RestrictedElems(s, BitsOf(s, x), x.clause, LeafInA(s, x.id), m);
    }
  }

  lemma SharedClass(k: Id, w: Colour, v: Colour, x: Var)
    ensures VarClass(TwoLabels(k, w, v), x) == AB
  {
    var s := TwoLabels(k, w, v);
    assert 0 in s.part(x) * s.aMask && 1 in s.part(x) - s.aMask;
  }

  lemma TwoColours(k: Id, w: Colour, v: Colour, x1: Tree, x2: Tree, x3: Tree)
    requires SmallSwap(x1, x2, x3)
    ensures var s := TwoLabels(k, w, v);
            && ModeOf(s, StepBits(s, x1, x2), 0) == Coloured(w)
            && ModeOf(s, StepBits(s, Step(0, x1, x2, false), x3), 1) == Coloured(v)
  {
    var s := TwoLabels(k, w, v);
    SharedClass(k, w, v, 0);
    SharedClass(k, w, v, 1);
    assert x1.clause[0].v == 0 && x1.clause[1].v == 1;
    assert 0 in Vars(x1.clause) && 1 in Vars(x1.clause);
  }

  /** Two pivots coloured ab: depending on which of the unit clauses x2 and x3 is the A clause, only
      the old or only the new interpolant is true. */
  lemma SharedPivotsUnrelated(k: Id, x1: Tree, x2: Tree, x3: Tree, val: Valuation)
    requires SmallSwap(x1, x2, x3) && val == iset{0, 1} && k in {2, 3}
    ensures var s := TwoLabels(k, AB, AB);
            && (Eval(Itp(s, BeforeSwap(x1, x2, x3, 0, 1, false, false)), val) <==> k == 2)
            && (Eval(Itp(s, AfterSwap(x1, x2, x3, 0, 1, false, false)), val) <==> k == 3)
  {
    hide Itp;
    RowsAreTight(k, AB, AB, x1, x2, x3, val);
  }

  // ---------------------------------------------------------------------------
  // The swaps the interpolation heuristics allow

  /** allowSwapRuleForStrongerWeakerInterpolant: no duplication, and one of three pairs of classes. */
  predicate AllowSwap(g: Graph, s: Problem, c: Context, stronger: bool)
    requires Shape(g, c)
  {
    var cw, cv := VarClass(s, T0(g, c)), VarClass(s, T1(g, c));
    && |g[c.w].res| <= 1
    && IsA2(c.ty)
    && if stronger then (cw == B && cv == A) || (cw == AB && cv == A) || (cw == B && cv == AB)
       else (cw == A && cv == B) || (cw == A && cv == AB) || (cw == AB && cv == B)
  }

  /** Nothing that would help is refused: the answer is yes exactly where no duplication is needed, the rule is an A2
      and the table announces the direction asked for. */
  lemma AllowedExactly(g: Graph, s: Problem, c: Context, stronger: bool)
    requires Shape(g, c)
    ensures AllowSwap(g, s, c, stronger) <==>
              |g[c.w].res| <= 1 && IsA2(c.ty) && Table(VarClass(s, T0(g, c)), VarClass(s, T1(g, c))) == if stronger then Stronger else Weaker
  {
    hide ClassOf;
  }

  /** `before` is implied by `after`, or the other way round. */
  ghost predicate Moves(stronger: bool, before: bool, after: bool) {
    if stronger then after ==> before else before ==> after
  }

  /** The classes alone decide: whatever the labelling, the swap moves v's interpolant as announced. */
  lemma ClassesDecide(s: Problem, x1: Tree, x2: Tree, x3: Tree, t0: Var, t1: Var, s0: bool, s1: bool, stronger: bool, val: Valuation)
    requires Swappable(x1, x2, x3, t0, t1, s0, s1)
    requires var cw, cv := VarClass(s, t0), VarClass(s, t1);
             if stronger then (cw == B && cv == A) || (cw == AB && cv == A) || (cw == B && cv == AB)
             else (cw == A && cv == B) || (cw == A && cv == AB) || (cw == AB && cv == B)
    ensures Moves(stronger, Eval(Itp(s, BeforeSwap(x1, x2, x3, t0, t1, s0, s1)), val), Eval(Itp(s, AfterSwap(x1, x2, x3, t0, t1, s0, s1)), val))
  {
    hide Itp, BitsOf, ClassOf;
    TableHolds(s, x1, x2, x3, t0, t1, s0, s1, val);
  }

  // ---------------------------------------------------------------------------
  // The whole graph

  ghost predicate MovedAt(s: Problem, x: Tree, y: Tree, stronger: bool, val: Valuation) {
    BitsOf(s, x) == BitsOf(s, y) && Moves(stronger, Eval(Itp(s, x), val), Eval(Itp(s, y), val))
  }

  /** Combining is monotone in both antecedents' interpolants. */
  lemma MovedUp(s: Problem, p: Var, x1: Tree, x2: Tree, y1: Tree, y2: Tree, stronger: bool, val: Valuation)
    requires MovedAt(s, x1, y1, stronger, val) && MovedAt(s, x2, y2, stronger, val)
    ensures MovedAt(s, Res(p, x1, x2), Res(p, y1, y2), stronger, val)
  {
    hide Combine, VarClass;
    CombineMeans(s, StepBits(s, x1, x2), p, Itp(s, x1), Itp(s, x2), val);
    CombineMeans(s, StepBits(s, y1, y2), p, Itp(s, y1), Itp(s, y2), val);
  }

  lemma A2Swappable(g: Graph, root: Id, rank: map<Id, nat>, c: Context, x1: Tree, x2: Tree, x3: Tree, s0: bool, s1: bool)
    requires ValidExcept(g, root, rank, {}) && Enabled(g, c) && IsA2(c.ty)
    requires x1 == Unfold(g, rank, c.v1) && x2 == Unfold(g, rank, c.v2) && x3 == Unfold(g, rank, c.v3)
    requires Local(C(g, c.v1), C(g, c.v2), C(g, c.v3), C(g, c.w), C(g, c.v), T0(g, c), T1(g, c), s0, s1)
    ensures Swappable(x1, x2, x3, T0(g, c), T1(g, c), s0, s1)
  {
    hide Unfold;
    UnfoldValid(g, root, rank, c.v1);
    UnfoldValid(g, root, rank, c.v2);
    UnfoldValid(g, root, rank, c.v3);
  }

  /** A2 keeps the colours of every node but w, and moves their interpolants one way only. */
  lemma {:induction false} SwapMovesNode(g: Graph, root: Id, rank: map<Id, nat>, c: Context, h: Graph, rank': map<Id, nat>,
                                         s: Problem, stronger: bool, val: Valuation, n: Id)
    requires ValidExcept(g, root, rank, {}) && Enabled(g, c) && AllowSwap(g, s, c, stronger) && g[c.w].res == {c.v}
    requires h == ApplyA2(g, c) && ValidExcept(h, root, rank', {})
    requires n in g && n != c.w
    ensures n in h && MovedAt(s, Unfold(g, rank, n), Unfold(h, rank', n), stronger, val)
    decreases rank[n]
  {
    hide Unfold, Itp, BitsOf, ClassOf, ApplyA2, Linked;
    if n == c.v {
      var x1, x2, x3, s0, s1 := A2Unfolds(g, root, rank, c, h, rank');
      A2Swappable(g, root, rank, c, x1, x2, x3, s0, s1);
      PivotsKeepColours(s, x1, x2, x3, T0(g, c), T1(g, c), s0, s1);
      ClassesDecide(s, x1, x2, x3, T0(g, c), T1(g, c), s0, s1, stronger, val);
    } else {
      ContextDistinct(g, root, rank, c);
      A2At(g, c, h, n);
      UnfoldNode(g, rank, n);
      UnfoldNode(h, rank', n);
      if g[n].links.Ants? {
        var a1, a2 := g[n].links.ant1, g[n].links.ant2;
        A2KeepsAnts(g, root, rank, c, h, n);
        SwapMovesNode(g, root, rank, c, h, rank', s, stronger, val, a1);
        SwapMovesNode(g, root, rank, c, h, rank', s, stronger, val, a2);
        var x, y := PosAnt(g, rank, n), NegAnt(g, rank, n);
        MovedUp(s, g[n].links.pivot, Unfold(g, rank, x), Unfold(g, rank, y), Unfold(h, rank', x), Unfold(h, rank', y), stronger, val);
      }
    }
  }

  lemma A2KeepsAnts(g: Graph, root: Id, rank: map<Id, nat>, c: Context, h: Graph, n: Id)
    requires ValidExcept(g, root, rank, {}) && Shape(g, c) && Distinct(c) && g[c.w].res == {c.v} && h == ApplyA2(g, c)
    requires n in g && n != c.v && g[n].links.Ants?
    ensures var a1, a2 := g[n].links.ant1, g[n].links.ant2;
            && a1 != c.w && a2 != c.w && a1 in g && a2 in g && rank[a1] < rank[n] && rank[a2] < rank[n]
            && a1 in h && a2 in h && h[a1].clause == g[a1].clause && h[a2].clause == g[a2].clause
  {
    hide ApplyA2;
    assert RankedAt(g, rank, n);
    OnlyChild(g, c, n);
    A2At(g, c, h, g[n].links.ant1);
    A2At(g, c, h, g[n].links.ant2);
  }

  lemma UnfoldNode(g: Graph, rank: map<Id, nat>, n: Id)
    requires Ranked(g, rank) && n in g
    ensures g[n].links.NoAnts? ==> Unfold(g, rank, n) == Leaf(n, g[n].clause, g[n].ty)
    ensures g[n].links.Ants? ==>
              && PosAnt(g, rank, n) in g && NegAnt(g, rank, n) in g
              && Unfold(g, rank, n) == Res(g[n].links.pivot, Unfold(g, rank, PosAnt(g, rank, n)), Unfold(g, rank, NegAnt(g, rank, n)))
  {
    assert RankedAt(g, rank, n);
  }

  /** An A2 swap that the heuristics allow strengthens (weakens) the interpolant of the whole proof. */
  lemma AllowedSwapMovesRoot(g: Graph, root: Id, rank: map<Id, nat>, c: Context, s: Problem, stronger: bool, val: Valuation)
    requires Refutation(g, root, rank) && Enabled(g, c) && AllowSwap(g, s, c, stronger)
    ensures var h, rank' := ApplyA2(g, c), SwapRank(g, c, rank);
            && Refutation(h, root, rank')
            && Moves(stronger, Eval(Itp(s, Unfold(g, rank, root)), val), Eval(Itp(s, Unfold(h, rank', root)), val))
  {
    hide Itp, Unfold, ApplyA2, RuleCondition, SwapRank;
    var h, rank' := ApplyA2(g, c), SwapRank(g, c, rank);
    OneResolvent(g, c);
    RootNotW(g, root, rank, c);
    EnabledApplies(g, c);
    A2Preserves(g, root, rank, c);
    SwapMovesNode(g, root, rank, c, h, rank', s, stronger, val, root);
  }

  lemma OneResolvent(g: Graph, c: Context)
    requires Shape(g, c) && Linked(g) && |g[c.w].res| <= 1
    ensures g[c.w].res == {c.v}
  {
    assert IsAnt(g[c.v], c.w);
    assert |g[c.w].res - {c.v}| == |g[c.w].res| - 1;
  }

  /** The root's clause is empty, so the root is not the antecedent w. */
  lemma RootNotW(g: Graph, root: Id, rank: map<Id, nat>, c: Context)
    requires Refutation(g, root, rank) && Enabled(g, c)
    ensures root != c.w && Ranked(g, rank) && Linked(g) && ValidExcept(g, root, rank, {})
  {
    var s0, s1 := ContextFacts(g, root, rank, c);
    assert Lit(T1(g, c), s1) in C(g, c.w);
  }
}
