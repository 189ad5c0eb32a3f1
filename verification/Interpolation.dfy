/** Labelled interpolation on resolution proofs, unfolded to trees: the partial interpolant of every
    clause, the two conditions the solver can check for it, and the Craig interpolant at the root. */
module Interpolation {
  import opened Clauses
  import opened Proofs
  import opened Formulas

  /** Which side of the partition something belongs to; for a label, which sides may use it. */
  datatype Colour = A | B | AB

  datatype Tree =
    | Leaf(id: Id, clause: seq<Lit>, ty: ClauseType)
    | Res(pivot: Var, pos: Tree, neg: Tree)

  /** One interpolation problem: the partitions every variable and every clause occur in, the ones
      that form A, the assumed literals, a label for every shared variable of every leaf, the theory
      solver's answers, and whether the smaller formula may be chosen at a shared pivot. */
  datatype Problem = Problem(
    part: Var -> set<nat>,
    mask: Id -> set<nat>,
    aMask: set<nat>,
    assumed: set<Lit>,
    labels: (Id, Var) -> Colour,
    theory: Id -> Fla,
    alt: bool)

  // ---------------------------------------------------------------------------
  // Classes, colours

  /** The side a set of partitions is on. */
  function ClassOf(mask: set<nat>, aMask: set<nat>): Colour {
    var inA, inB := mask * aMask != {}, mask - aMask != {};
    if inA && !inB then A else if !inA && inB then B else AB
  }

  predicate IsAssumedVar(s: Problem, v: Var) {
    Lit(v, false) in s.assumed || Lit(v, true) in s.assumed
  }

  function VarClass(s: Problem, v: Var): Colour {
    if IsAssumedVar(s, v) then AB else ClassOf(s.part(v), s.aMask)
  }

  /** A clause that belongs to both sides is treated as a clause of A. */
  predicate LeafInA(s: Problem, id: Id) {
    ClassOf(s.mask(id), s.aMask) != B
  }

  /** The two bit masks of a node: the shared variables coloured a (or ab) and b (or ab). */
  datatype Bits = Bits(a: set<Var>, b: set<Var>)

  function Vars(c: seq<Lit>): set<Var> {
    set l | l in c :: l.v
  }

  function LeafBits(s: Problem, id: Id, clause: seq<Lit>): Bits {
    Bits(set v | v in Vars(clause) && VarClass(s, v) == AB && s.labels(id, v) != B,
         set v | v in Vars(clause) && VarClass(s, v) == AB && s.labels(id, v) != A)
  }

  function Join(x: Bits, y: Bits): Bits {
    Bits(x.a + y.a, x.b + y.b)
  }

  function Clear(x: Bits, v: Var): Bits {
    Bits(x.a - {v}, x.b - {v})
  }

  function BitsOf(s: Problem, t: Tree): Bits {
    match t
    case Leaf(id, clause, _) => LeafBits(s, id, clause)
    case Res(p, pos, neg) =>
      var joined := Join(BitsOf(s, pos), BitsOf(s, neg));
      if VarClass(s, p) == AB then Clear(joined, p) else joined
  }

  predicate ColouredA(s: Problem, bits: Bits, v: Var) {
    VarClass(s, v) == A || (VarClass(s, v) == AB && v in bits.a)
  }

  predicate ColouredB(s: Problem, bits: Bits, v: Var) {
    VarClass(s, v) == B || (VarClass(s, v) == AB && v in bits.b)
  }

  // ---------------------------------------------------------------------------
  // Partial interpolants

  function LitFla(l: Lit): Fla {
    if l.neg then MkNot(Atom(l.v)) else Atom(l.v)
  }

  /** The literals of a leaf that are coloured with the other side only, and are not assumed false. */
  function Restricted(s: Problem, bits: Bits, c: seq<Lit>, wantB: bool): seq<Lit> {
    if c == [] then []
    else
      var rest := Restricted(s, bits, c[1..], wantB);
      var a, b := ColouredA(s, bits, c[0].v), ColouredB(s, bits, c[0].v);
      if Negate(c[0]) !in s.assumed && a == !wantB && b == wantB then [c[0]] + rest else rest
  }

  function LitFlas(c: seq<Lit>): (fs: seq<Fla>)
    ensures |fs| == |c|
  {
    if c == [] then [] else [LitFla(c[0])] + LitFlas(c[1..])
  }

  function NegatedFlas(c: seq<Lit>): (fs: seq<Fla>)
    ensures |fs| == |c|
  {
    if c == [] then [] else [LitFla(Negate(c[0]))] + NegatedFlas(c[1..])
  }

  /** An A clause contributes its b literals, a B clause the negation of its a literals. */
  function ClauseItp(s: Problem, bits: Bits, clause: seq<Lit>, inA: bool): Fla {
    if inA then MkOr(LitFlas(Restricted(s, bits, clause, true)))
    else MkAnd(NegatedFlas(Restricted(s, bits, clause, false)))
  }

  function LeafItp(s: Problem, bits: Bits, id: Id, clause: seq<Lit>, ty: ClauseType): Fla {
    match ty
    case Theory => s.theory(id)
    case Assumption => True
    case _ => ClauseItp(s, bits, clause, LeafInA(s, id))
  }

  /** When the formula (i1 & ~p) | (i2 & p) is the smaller choice. */
  predicate PreferAlternative(i1: Fla, i2: Fla) {
    var none1, none2 := i1 != True && i1 != False, i2 != True && i2 != False;
    (i1 == False && none2) || (none1 && i2 == False) || (i1 == False && i2 == False)
  }

  /** The interpolant of a resolvent: `bits` are the joined colours of its antecedents. */
  function Combine(s: Problem, bits: Bits, p: Var, i1: Fla, i2: Fla): Fla {
    if IsAssumedVar(s, p) then
      if Lit(p, false) in s.assumed then i2 else i1
    else if ColouredA(s, bits, p) && !ColouredB(s, bits, p) then MkOr([i1, i2])
    else if ColouredB(s, bits, p) && !ColouredA(s, bits, p) then MkAnd([i1, i2])
    else if s.alt && PreferAlternative(i1, i2) then
      MkOr([MkAnd([i1, MkNot(Atom(p))]), MkAnd([i2, Atom(p)])])
    else
      MkAnd([MkOr([i1, Atom(p)]), MkOr([i2, MkNot(Atom(p))])])
  }

  function Itp(s: Problem, t: Tree): Fla {
    match t
    case Leaf(id, clause, ty) => LeafItp(s, LeafBits(s, id, clause), id, clause, ty)
    case Res(p, pos, neg) => Combine(s, Join(BitsOf(s, pos), BitsOf(s, neg)), p, Itp(s, pos), Itp(s, neg))
  }

  // ---------------------------------------------------------------------------
  // Proof trees

  ghost function Concl(t: Tree): set<Lit> {
    match t
    case Leaf(_, clause, _) => Lits(clause)
    case Res(p, pos, neg) => Resolvent(Concl(pos), Concl(neg), p)
  }

  /** Every inner node resolves on a pivot that is positive in the first and negative in the second
      antecedent, and no clause is a tautology. */
  ghost predicate ValidTree(t: Tree) {
    && NonTaut(Concl(t))
    && match t
       case Leaf(_, _, _) => true
       case Res(p, pos, neg) => ValidTree(pos) && ValidTree(neg) && Lit(p, false) in Concl(pos) && Lit(p, true) in Concl(neg)
  }

  /** The bookkeeping is right: leaves are original, theory or assumption clauses, a variable is in every partition one of its clauses is in, an
      assumption leaf is an assumed literal, and theory interpolants use shared variables only. */
  ghost predicate Sound(s: Problem, t: Tree) {
    match t
    case Res(_, pos, neg) => Sound(s, pos) && Sound(s, neg)
    case Leaf(id, clause, ty) =>
      && (ty == Orig || ty == Theory || ty == Assumption)
      && (forall l {:trigger l in clause} :: l in clause ==> IsAssumedVar(s, l.v) || s.part(l.v) != {})
      && (ty == Orig ==> s.mask(id) != {})
      && (ty == Orig ==> forall l {:trigger l in clause} :: l in clause ==> IsAssumedVar(s, l.v) || s.mask(id) <= s.part(l.v))
      && (ty == Assumption ==> |clause| == 1 && clause[0] in s.assumed)
      && (ty == Theory ==> forall v {:trigger VarClass(s, v)} :: v in Atoms(s.theory(id)) ==> VarClass(s, v) == AB)
  }

  ghost predicate LitTrue(l: Lit, val: Valuation) {
    (l.v in val) != l.neg
  }

  ghost predicate ClauseTrue(c: set<Lit>, val: Valuation) {
    exists l {:trigger l in c} :: l in c && LitTrue(l, val)
  }

  /** `val` satisfies the A clauses (`a`), or the B clauses, among the original leaves. */
  ghost predicate SideHolds(s: Problem, t: Tree, val: Valuation, a: bool) {
    match t
    case Leaf(id, clause, ty) => ty == Orig && LeafInA(s, id) == a ==> ClauseTrue(Lits(clause), val)
    case Res(_, pos, neg) => SideHolds(s, pos, val, a) && SideHolds(s, neg, val, a)
  }

  /** The assumed literals hold and the theory interpolants do what is asked of them under `val`. */
  ghost predicate Admissible(s: Problem, t: Tree, val: Valuation) {
    && (forall l {:trigger l in s.assumed} :: l in s.assumed ==> LitTrue(l, val))
    && match t
       case Res(_, pos, neg) => Admissible(s, pos, val) && Admissible(s, neg, val)
       case Leaf(id, clause, ty) =>
         ty == Theory ==>
           && (RestFalse(s, LeafBits(s, id, clause), Lits(clause), val, true) ==> Eval(s.theory(id), val))
           && (RestFalse(s, LeafBits(s, id, clause), Lits(clause), val, false) ==> !Eval(s.theory(id), val))
  }

  /** All literals of the clause that are coloured a or ab (b or ab) are false. */
  ghost predicate RestFalse(s: Problem, bits: Bits, c: set<Lit>, val: Valuation, a: bool) {
    forall l {:trigger l in c} :: l in c && (if a then ColouredA(s, bits, l.v) else ColouredB(s, bits, l.v)) ==> !LitTrue(l, val)
  }

  /** The conditions verifyPartialInterpolantA and verifyPartialInterpolantB check. */
  ghost predicate Partial(s: Problem, t: Tree, val: Valuation) {
    && (SideHolds(s, t, val, true) && RestFalse(s, BitsOf(s, t), Concl(t), val, true) ==> Eval(Itp(s, t), val))
    && (SideHolds(s, t, val, false) && RestFalse(s, BitsOf(s, t), Concl(t), val, false) ==> !Eval(Itp(s, t), val))
  }

  // ---------------------------------------------------------------------------
  // Meaning of the pieces

  lemma {:induction false} RestrictedElems(s: Problem, bits: Bits, c: seq<Lit>, wantB: bool, l: Lit)
    ensures l in Restricted(s, bits, c, wantB) <==>
            l in c && Negate(l) !in s.assumed && ColouredA(s, bits, l.v) == !wantB && ColouredB(s, bits, l.v) == wantB
  {
    if c != [] {
      RestrictedElems(s, bits, c[1..], wantB, l);
      assert c == [c[0]] + c[1..];
    }
  }

  lemma LitFlaMeans(l: Lit, val: Valuation)
    ensures Eval(LitFla(l), val) <==> LitTrue(l, val)
    ensures Atoms(LitFla(l)) == {l.v}
  {
  }

  ghost predicate SomeTrue(c: seq<Lit>, val: Valuation) {
    exists l {:trigger l in c} :: l in c && LitTrue(l, val)
  }

  lemma SomeTrueCons(c: seq<Lit>, val: Valuation)
    ensures c == [] ==> !SomeTrue(c, val)
    ensures c != [] ==> (SomeTrue(c, val) <==> LitTrue(c[0], val) || SomeTrue(c[1..], val))
  {
    if c != [] {
      assert c == [c[0]] + c[1..];
      assert c[0] in c;
      if SomeTrue(c[1..], val) {
        var l :| l in c[1..] && LitTrue(l, val);
        assert l in c;
      }
      if SomeTrue(c, val) && !LitTrue(c[0], val) {
        var l :| l in c && LitTrue(l, val);
        assert l in c[1..];
      }
    }
  }

  lemma {:induction false} LitFlasMean(c: seq<Lit>, val: Valuation)
    ensures Some(LitFlas(c), val) <==> SomeTrue(c, val)
    ensures All(NegatedFlas(c), val) <==> !SomeTrue(c, val)
    ensures AtomsOf(LitFlas(c)) <= Vars(c) && AtomsOf(NegatedFlas(c)) <= Vars(c)
  {
    SomeTrueCons(c, val);
    if c != [] {
      LitFlasMean(c[1..], val);
      LitFlaMeans(c[0], val);
      LitFlaMeans(Negate(c[0]), val);
      assert c == [c[0]] + c[1..];
      SomeCons(LitFla(c[0]), LitFlas(c[1..]), val);
      SomeCons(LitFla(Negate(c[0])), NegatedFlas(c[1..]), val);
    }
  }

  lemma SomeCons(f: Fla, fs: seq<Fla>, val: Valuation)
    ensures Some([f] + fs, val) <==> Eval(f, val) || Some(fs, val)
    ensures All([f] + fs, val) <==> Eval(f, val) && All(fs, val)
    ensures AtomsOf([f] + fs) == Atoms(f) + AtomsOf(fs)
  {
    hide Eval, Atoms;
    AtomsCons(f, fs);
    assert forall g {:trigger g in fs} :: g in fs ==> g in [f] + fs;
    assert f in [f] + fs;
    assert forall g {:trigger g in [f] + fs} :: g in [f] + fs ==> g == f || g in fs;
  }

  lemma AtomsCons(f: Fla, fs: seq<Fla>)
    ensures AtomsOf([f] + fs) == Atoms(f) + AtomsOf(fs)
  {
    hide Atoms;
    var all := [f] + fs;
    forall v | v in AtomsOf(fs) ensures v in AtomsOf(all) {
      var i :| 0 <= i < |fs| && v in Atoms(fs[i]);
      assert all[i + 1] == fs[i];
    }
    assert all[0] == f;
  }

  lemma TwoMean(f: Fla, g: Fla, val: Valuation)
    ensures Eval(MkOr([f, g]), val) <==> Eval(f, val) || Eval(g, val)
    ensures Eval(MkAnd([f, g]), val) <==> Eval(f, val) && Eval(g, val)
    ensures Atoms(MkOr([f, g])) <= Atoms(f) + Atoms(g) && Atoms(MkAnd([f, g])) <= Atoms(f) + Atoms(g)
  {
    OrMeans([f, g], val);
    AndMeans([f, g], val);
    assert [f, g] == [f] + [g] && [g] == [g] + [];
    SomeCons(f, [g], val);
    SomeCons(g, [], val);
    MkAtoms([f, g]);
  }

  /** What Combine computes, whichever of the two forms it picks at a shared pivot. */
  ghost predicate Combined(s: Problem, bits: Bits, p: Var, e1: bool, e2: bool, val: Valuation) {
    if IsAssumedVar(s, p) then (if Lit(p, false) in s.assumed then e2 else e1)
    else if ColouredA(s, bits, p) && !ColouredB(s, bits, p) then e1 || e2
    else if ColouredB(s, bits, p) && !ColouredA(s, bits, p) then e1 && e2
    else (e1 || p in val) && (e2 || p !in val)
  }

  lemma CombineMeans(s: Problem, bits: Bits, p: Var, i1: Fla, i2: Fla, val: Valuation)
    ensures Eval(Combine(s, bits, p, i1, i2), val) <==> Combined(s, bits, p, Eval(i1, val), Eval(i2, val), val)
    ensures Atoms(Combine(s, bits, p, i1, i2)) <=
              Atoms(i1) + Atoms(i2) + (if ColouredA(s, bits, p) != ColouredB(s, bits, p) || IsAssumedVar(s, p) then {} else {p})
  {
    hide MkAnd, MkOr;
    TwoMean(i1, i2, val);
    var n := MkNot(Atom(p));
    NotMeans(Atom(p), val);
    TwoMean(i1, n, val);
    TwoMean(i2, Atom(p), val);
    TwoMean(i1, Atom(p), val);
    TwoMean(i2, n, val);
    TwoMean(MkAnd([i1, n]), MkAnd([i2, Atom(p)]), val);
    TwoMean(MkOr([i1, Atom(p)]), MkOr([i2, n]), val);
  }

  /** Every shared variable of a clause has a colour at its node. */
  lemma {:induction false} EveryoneColoured(s: Problem, t: Tree, l: Lit)
    requires l in Concl(t)
    ensures ColouredA(s, BitsOf(s, t), l.v) || ColouredB(s, BitsOf(s, t), l.v)
  {
    match t
    case Leaf(id, clause, _) =>
      assert l.v in Vars(clause);
    case Res(p, pos, neg) =>
      if l in Concl(pos) { EveryoneColoured(s, pos, l); } else { EveryoneColoured(s, neg, l); }
  }

  // ---------------------------------------------------------------------------
  // The two conditions hold at every node

  /** The interpolant of an original leaf is true, for an A clause, exactly when one of the literals
      it keeps is true, and for a B clause when none is. */
  lemma ClauseItpMeans(s: Problem, bits: Bits, c: seq<Lit>, inA: bool, val: Valuation)
    ensures Eval(ClauseItp(s, bits, c, inA), val) <==> SomeTrue(Restricted(s, bits, c, inA), val) == inA
    ensures Atoms(ClauseItp(s, bits, c, inA)) <= Vars(Restricted(s, bits, c, inA))
  {
    var some := Restricted(s, bits, c, inA);
    OrMeans(LitFlas(some), val);
    AndMeans(NegatedFlas(some), val);
    MkAtoms(LitFlas(some));
    MkAtoms(NegatedFlas(some));
    LitFlasMean(some, val);
  }

  /** Some true literal of a true clause is kept, if those coloured for the clause's own side are false. */
  lemma KeptIsTrue(s: Problem, t: Tree, val: Valuation)
    requires t.Leaf? && NonTaut(Lits(t.clause))
    requires forall l {:trigger l in s.assumed} :: l in s.assumed ==> LitTrue(l, val)
    requires ClauseTrue(Lits(t.clause), val)
    requires RestFalse(s, BitsOf(s, t), Lits(t.clause), val, LeafInA(s, t.id))
    ensures SomeTrue(Restricted(s, BitsOf(s, t), t.clause, LeafInA(s, t.id)), val)
  {
    var l :| l in Lits(t.clause) && LitTrue(l, val);
    EveryoneColoured(s, t, l);
    RestrictedElems(s, BitsOf(s, t), t.clause, LeafInA(s, t.id), l);
  }

  /** No kept literal is true if those coloured for the other side are false. */
  lemma KeptIsFalse(s: Problem, bits: Bits, c: seq<Lit>, inA: bool, val: Valuation)
    requires RestFalse(s, bits, Lits(c), val, !inA)
    ensures !SomeTrue(Restricted(s, bits, c, inA), val)
  {
    forall l | l in Restricted(s, bits, c, inA) ensures !LitTrue(l, val) {
      RestrictedElems(s, bits, c, inA, l);
      assert l in Lits(c);
    }
  }

  lemma LeafPartial(s: Problem, t: Tree, val: Valuation)
    requires t.Leaf? && ValidTree(t) && Sound(s, t) && Admissible(s, t, val) && t.ty != Assumption
    ensures Partial(s, t, val)
  {
    hide ClauseItp, RestFalse, LeafInA, LeafBits;
    if t.ty != Theory {
      var bits := BitsOf(s, t);
      var inA := LeafInA(s, t.id);
      ClauseItpMeans(s, bits, t.clause, inA, val);
      if RestFalse(s, bits, Lits(t.clause), val, !inA) {
        KeptIsFalse(s, bits, t.clause, inA, val);
      }
      if ClauseTrue(Lits(t.clause), val) && RestFalse(s, bits, Lits(t.clause), val, inA) {
        KeptIsTrue(s, t, val);
      }
    }
  }

  /** An antecedent's coloured literals are false if the resolvent's are and the pivot literal is. */
  lemma RestFalseUp(s: Problem, t: Tree, child: Tree, val: Valuation, a: bool)
    requires t.Res? && (child == t.pos || child == t.neg) && ValidTree(t)
    requires RestFalse(s, BitsOf(s, t), Concl(t), val, a)
    requires var l := Lit(t.pivot, child != t.pos);
             !LitTrue(l, val) || !(if a then ColouredA(s, BitsOf(s, child), t.pivot) else ColouredB(s, BitsOf(s, child), t.pivot))
    requires child == t.pos ==> t.pos != t.neg
    ensures RestFalse(s, BitsOf(s, child), Concl(child), val, a)
  {
    forall l | l in Concl(child) && (if a then ColouredA(s, BitsOf(s, child), l.v) else ColouredB(s, BitsOf(s, child), l.v))
      ensures !LitTrue(l, val)
    {
      if l.v == t.pivot {
        assert Negate(Lit(t.pivot, child != t.pos)) !in Concl(child);
      } else {
        assert l in Concl(t);
      }
    }
  }

  lemma SidesDiffer(t: Tree)
    requires t.Res? && ValidTree(t)
    ensures t.pos != t.neg
  {
    assert Negate(Lit(t.pivot, false)) == Lit(t.pivot, true);
  }

  lemma ResPartial(s: Problem, t: Tree, val: Valuation)
    requires t.Res? && ValidTree(t) && Sound(s, t) && Admissible(s, t, val)
    requires !IsAssumption(t.pos) ==> Partial(s, t.pos, val)
    requires !IsAssumption(t.neg) ==> Partial(s, t.neg, val)
    ensures Partial(s, t, val)
  {
    hide Combine;
    SidesDiffer(t);
    var p := t.pivot;
    var joined := Join(BitsOf(s, t.pos), BitsOf(s, t.neg));
    CombineMeans(s, joined, p, Itp(s, t.pos), Itp(s, t.neg), val);
    EveryoneColoured(s, t.pos, Lit(p, false));
    AssumptionPivot(s, t.pos, p, false);
    AssumptionPivot(s, t.neg, p, true);
    forall a: bool | SideHolds(s, t, val, a) && RestFalse(s, BitsOf(s, t), Concl(t), val, a)
      ensures Eval(Itp(s, t), val) == a
    {
      ResSide(s, t, val, a);
    }
  }

  predicate IsAssumption(t: Tree) {
    t.Leaf? && t.ty == Assumption
  }

  /** Assumption leaves are only resolved on assumed variables. */
  lemma AssumptionPivot(s: Problem, t: Tree, p: Var, neg: bool)
    requires IsAssumption(t) ==> Sound(s, t)
    requires Lit(p, neg) in Concl(t)
    ensures IsAssumption(t) ==> Lit(p, neg) in s.assumed
  {
  }

  lemma ResSide(s: Problem, t: Tree, val: Valuation, a: bool)
    requires t.Res? && ValidTree(t) && Sound(s, t) && Admissible(s, t, val) && t.pos != t.neg
    requires !IsAssumption(t.pos) ==> Partial(s, t.pos, val)
    requires !IsAssumption(t.neg) ==> Partial(s, t.neg, val)
    requires SideHolds(s, t, val, a) && RestFalse(s, BitsOf(s, t), Concl(t), val, a)
    ensures Eval(Itp(s, t), val) == a
  {
    hide Combine;
    var p := t.pivot;
    var joined := Join(BitsOf(s, t.pos), BitsOf(s, t.neg));
    CombineMeans(s, joined, p, Itp(s, t.pos), Itp(s, t.neg), val);
    EveryoneColoured(s, t.pos, Lit(p, false));
    AssumptionPivot(s, t.pos, p, false);
    AssumptionPivot(s, t.neg, p, true);
    var blindPos := if a then !ColouredA(s, BitsOf(s, t.pos), p) else !ColouredB(s, BitsOf(s, t.pos), p);
    var blindNeg := if a then !ColouredA(s, BitsOf(s, t.neg), p) else !ColouredB(s, BitsOf(s, t.neg), p);
    if !IsAssumption(t.pos) && (p !in val || blindPos) {
      RestFalseUp(s, t, t.pos, val, a);
    }
    if !IsAssumption(t.neg) && (p in val || blindNeg) {
      RestFalseUp(s, t, t.neg, val, a);
    }
    assert Lit(p, false) in s.assumed ==> p in val;
    assert Lit(p, true) in s.assumed ==> p !in val;
  }

  /** Every node's partial interpolant satisfies both conditions, under every valuation. */
  lemma {:induction false} PartialEverywhere(s: Problem, t: Tree, val: Valuation)
    requires ValidTree(t) && Sound(s, t) && Admissible(s, t, val) && !IsAssumption(t)
    ensures Partial(s, t, val)
  {
    hide Partial, Itp, BitsOf;
    match t
    case Leaf(_, _, _) => LeafPartial(s, t, val);
    case Res(_, pos, neg) =>
      if !IsAssumption(pos) { PartialEverywhere(s, pos, val); }
      if !IsAssumption(neg) { PartialEverywhere(s, neg, val); }
      ResPartial(s, t, val);
  }

  // ---------------------------------------------------------------------------
  // Shared variables only

  ghost predicate SharedAtoms(s: Problem, vs: set<Var>) {
    forall v {:trigger VarClass(s, v)} :: v in vs ==> VarClass(s, v) == AB
  }

  /** A literal kept at an original leaf has a shared variable: the leaf's own side knows it. */
  lemma KeptIsShared(s: Problem, id: Id, c: seq<Lit>, l: Lit)
    requires Sound(s, Leaf(id, c, Orig))
    requires l in Restricted(s, LeafBits(s, id, c), c, LeafInA(s, id))
    ensures VarClass(s, l.v) == AB
  {
    RestrictedElems(s, LeafBits(s, id, c), c, LeafInA(s, id), l);
    var m, p := s.mask(id), s.part(l.v);
    if !IsAssumedVar(s, l.v) {
      assert m <= p && m != {};
      if m * s.aMask != {} {
        var k :| k in m * s.aMask;
        assert k in p * s.aMask;
      }
      if m - s.aMask != {} {
        var k :| k in m - s.aMask;
        assert k in p - s.aMask;
      }
      var k :| k in m;
      assert k in m * s.aMask || k in m - s.aMask;
    }
  }

  /** The partial interpolant of every node mentions shared variables only. */
  lemma {:induction false} OnlySharedVariables(s: Problem, t: Tree)
    requires ValidTree(t) && Sound(s, t)
    ensures SharedAtoms(s, Atoms(Itp(s, t)))
  {
    hide Combine, ClauseItp, LeafInA, ClassOf;
    match t
    case Leaf(id, c, ty) =>
      if ty == Orig {
        ClauseItpMeans(s, LeafBits(s, id, c), c, LeafInA(s, id), iset{});
        forall v | v in Atoms(Itp(s, t)) ensures VarClass(s, v) == AB {
          var l :| l in Restricted(s, LeafBits(s, id, c), c, LeafInA(s, id)) && l.v == v;
          KeptIsShared(s, id, c, l);
        }
      }
    case Res(p, pos, neg) =>
      OnlySharedVariables(s, pos);
      OnlySharedVariables(s, neg);
      var bits := Join(BitsOf(s, pos), BitsOf(s, neg));
      CombineMeans(s, bits, p, Itp(s, pos), Itp(s, neg), iset{});
      EveryoneColoured(s, pos, Lit(p, false));
  }

  lemma AssumptionNotEmpty(s: Problem, t: Tree)
    requires Sound(s, t) && IsAssumption(t)
    ensures Concl(t) != {}
  {
    assert t.clause[0] in Concl(t);
  }

  /** The root's interpolant is a Craig interpolant of the A clauses and the B clauses: it follows from
      A, it contradicts B, and it speaks of shared variables only. */
  lemma RootIsCraigInterpolant(s: Problem, t: Tree, val: Valuation)
    requires ValidTree(t) && Sound(s, t) && Admissible(s, t, val) && Concl(t) == {}
    ensures SideHolds(s, t, val, true) ==> Eval(Itp(s, t), val)
    ensures SideHolds(s, t, val, false) ==> !Eval(Itp(s, t), val)
    ensures SharedAtoms(s, Atoms(Itp(s, t)))
  {
    if IsAssumption(t) {
      AssumptionNotEmpty(s, t);
    }
    PartialEverywhere(s, t, val);
    OnlySharedVariables(s, t);
  }
}
