/** The elimination of divisions and modulos by constants: what the rewritten formula and the definitions mean
    together, and that every model of the original has exactly one extension that satisfies the definitions. */
module DivModRewriters {
  import opened Terms
  import opened TermStacks
  import opened Rewriters
  import opened DivMods

  /** Sorts, how the term store builds a term, and the numbers of its terms. */
  datatype Config = Config(sig: Signature, mk: Term -> Term, id: Term -> nat)

  ghost function Names(t: Term): set<string> {
    set s | s in Subterms(t) && s.Var? :: s.name
  }

  predicate Divides(t: Term) {
    t.App? && (t.op == Uf(DIV) || t.op == Uf(MOD))
  }

  /** Neither division nor modulo, however deep. */
  ghost predicate DivisionFree(t: Term) {
    forall s {:trigger s in Subterms(t)} :: s in Subterms(t) ==> !Divides(s)
  }

  /** Building a term keeps sort and value, and adds no variables; divisions below the new term come from the old
      term's children. */
  ghost predicate BuiltRight(c: Config, t: Term) {
    && WellFormed(c.sig, c.mk(t)) && IsInt(c.sig, c.mk(t)) == IsInt(c.sig, t) && Names(c.mk(t)) <= Names(t)
    && (forall i, s {:trigger s in Subterms(Children(c.mk(t))[i])} :: 0 <= i < |Children(c.mk(t))| && s in Subterms(Children(c.mk(t))[i]) && Divides(s) ==>
          exists j :: 0 <= j < |Children(t)| && s in Subterms(Children(t)[j]))
    && forall m {:trigger Eval(m, c.mk(t))} :: Standard(c.sig, m) ==> Eval(m, c.mk(t)) == Eval(m, t)
  }

  ghost predicate Proper(c: Config) {
    && (forall t, u {:trigger c.id(t), c.id(u)} :: c.id(t) == c.id(u) ==> t == u)
    && (forall x {:trigger c.sig.intVar(x)} :: IsAux(x) ==> c.sig.intVar(x))
    && forall t {:trigger BuiltRight(c, t)} :: WellFormed(c.sig, t) ==> BuiltRight(c, t)
  }

  // ---------------------------------------------------------------------------
  // Variables and definitions

  function DivName(c: Config, a: Term, d: Term): string {
    DIV_PREFIX + AuxId(c.id(a), c.id(d))
  }

  function ModName(c: Config, a: Term, d: Term): string {
    MOD_PREFIX + AuxId(c.id(a), c.id(d))
  }

  lemma NamesApart(c: Config, a: Term, d: Term, b: Term, e: Term)
    requires Proper(c)
    ensures IsAux(DivName(c, a, d)) && IsAux(ModName(c, a, d)) && DivName(c, a, d) != ModName(c, b, e)
    ensures DivName(c, a, d) == DivName(c, b, e) || ModName(c, a, d) == ModName(c, b, e) ==> a == b && d == e
  {
    var x, y := AuxId(c.id(a), c.id(d)), AuxId(c.id(b), c.id(e));
    assert DivName(c, a, d)[1] == 'd' && ModName(c, b, e)[1] == 'm';
    assert DivName(c, a, d)[4..] == x == ModName(c, a, d)[4..] && DivName(c, b, e)[4..] == y == ModName(c, b, e)[4..];
    if x == y { AuxIdsDiffer(c.id(a), c.id(d), c.id(b), c.id(e)); }
  }

  function Magnitude(n: int): nat {
    if n >= 0 then n else -n
  }

  /** The dividend is the divisor times the first variable plus the second, which lies between zero and the
      divisor's magnitude. */
  function Definition(c: Config, a: Term, d: Term): Term
    requires IsNum(d) && NumOf(d) != 0
  {
    var div, mod := Var(DivName(c, a, d)), Var(ModName(c, a, d));
    And([Eq(a, App(Uf(PLUS), [App(Uf(TIMES), [d, div]), mod])),
         And([App(Uf(LEQ), [Num(0), mod]), App(Uf(LEQ), [mod, Num(Magnitude(NumOf(d)) - 1)])])])
  }

  ghost predicate AuxRight(c: Config, m: Model, a: Term, d: Term) {
    && IsNum(d) && NumOf(d) != 0 && Eval(m, a).Elem?
    && m.vars(DivName(c, a, d)) == Elem(Eval(m, a).e / NumOf(d)) && m.vars(ModName(c, a, d)) == Elem(Eval(m, a).e % NumOf(d))
  }

  lemma AndOfTwo(m: Model, a: Term, b: Term)
    ensures Holds(m, And([a, b])) <==> Holds(m, a) && Holds(m, b)
  {
    AndHolds(m, [a, b]);
    assert a in [a, b] && b in [a, b];
  }

  lemma SumHolds(sig: Signature, m: Model, a: Term, d: Term, div: Term, mod: Term)
    requires Standard(sig, m) && IsNum(d) && Eval(m, a).Elem? && Eval(m, div).Elem? && Eval(m, mod).Elem?
    ensures Holds(m, Eq(a, App(Uf(PLUS), [App(Uf(TIMES), [d, div]), mod]))) <==> Eval(m, a).e == NumOf(d) * Eval(m, div).e + Eval(m, mod).e
  {
    var prod, sum := App(Uf(TIMES), [d, div]), App(Uf(PLUS), [App(Uf(TIMES), [d, div]), mod]);
    BinaryValue(m, TIMES, d, div);
    BinaryValue(m, PLUS, prod, mod);
    NumValue(sig, m, d);
    EvalApp(m, EqOp, [a, sum]);
    assert Values(m, [a, sum]) == [Eval(m, a), Eval(m, sum)];
  }

  lemma BoundHolds(sig: Signature, m: Model, a: Term, b: Term)
    requires Standard(sig, m) && Eval(m, a).Elem? && Eval(m, b).Elem?
    ensures Holds(m, App(Uf(LEQ), [a, b])) <==> Eval(m, a).e <= Eval(m, b).e
  {
    BinaryValue(m, LEQ, a, b);
  }

  /** The definition fixes both variables. */
  lemma DefinitionFixes(c: Config, m: Model, a: Term, d: Term)
    requires Proper(c) && Standard(c.sig, m) && IsInt(c.sig, a) && IsNum(d) && NumOf(d) != 0
    ensures Holds(m, Definition(c, a, d)) <==> AuxRight(c, m, a, d)
  {
    hide Holds, IsAux, IsInt;
    var div, mod, n := Var(DivName(c, a, d)), Var(ModName(c, a, d)), NumOf(d);
    AuxInt(c, m, a, d);
    IntValue(c.sig, m, a);
    SumHolds(c.sig, m, a, d, div, mod);
    NumIs(c.sig, m, 0);
    NumIs(c.sig, m, Magnitude(n) - 1);
    BoundHolds(c.sig, m, Num(0), mod);
    BoundHolds(c.sig, m, mod, Num(Magnitude(n) - 1));
    var low, high := App(Uf(LEQ), [Num(0), mod]), App(Uf(LEQ), [mod, Num(Magnitude(n) - 1)]);
    AndOfTwo(m, low, high);
    AndOfTwo(m, Eq(a, App(Uf(PLUS), [App(Uf(TIMES), [d, div]), mod])), And([low, high]));
    FixedByEuclid(Eval(m, a).e, n, Eval(m, div).e, Eval(m, mod).e);
  }

  lemma FixedByEuclid(v: int, n: int, x: int, y: int)
    requires n != 0
    ensures v == n * x + y && 0 <= y <= Magnitude(n) - 1 <==> x == v / n && y == v % n
  {
    if v == n * x + y && 0 <= y <= Magnitude(n) - 1 {
      EuclidUnique(v, n, x, y);
    } else {
      QuotientAndRemainder(v, n);
    }
  }

  lemma AuxInt(c: Config, m: Model, a: Term, d: Term)
    requires Proper(c) && Standard(c.sig, m)
    ensures Eval(m, Var(DivName(c, a, d))) == m.vars(DivName(c, a, d)) && m.vars(DivName(c, a, d)).Elem?
    ensures Eval(m, Var(ModName(c, a, d))) == m.vars(ModName(c, a, d)) && m.vars(ModName(c, a, d)).Elem?
  {
    NamesApart(c, a, d, a, d);
    assert c.sig.intVar(DivName(c, a, d)) && c.sig.intVar(ModName(c, a, d));
  }

  lemma NumIs(sig: Signature, m: Model, n: int)
    requires Standard(sig, m)
    ensures Eval(m, Num(n)) == Elem(n)
  {
    CodeRoundTrip(n);
    NumValue(sig, m, Num(n));
  }

  lemma QuotientAndRemainder(v: int, n: int)
    requires n != 0
    ensures v == n * (v / n) + v % n && 0 <= v % n <= Magnitude(n) - 1
  {
  }

  // ---------------------------------------------------------------------------
  // Rewriting as a function

  /** A division or modulo becomes its variable. */
  function Target(c: Config, t: Term): Term {
    if IsDivMod(t) then Var(if t.op == Uf(DIV) then DivName(c, t.args[0], t.args[1]) else ModName(c, t.args[0], t.args[1])) else t
  }

  ghost function Rd(c: Config, t: Term): Rewriting
    decreases Size(t), 3
  {
    Rewriting(RdKidChanged(c, t) || Target(c, RdMid(c, t)) != RdMid(c, t), Target(c, RdMid(c, t)))
  }

  /** The term rebuilt from its rewritten children, if one of them changed. */
  ghost function RdMid(c: Config, t: Term): Term
    decreases Size(t), 2
  {
    if RdKidChanged(c, t) then c.mk(WithChildren(t, RdKids(c, t))) else t
  }

  ghost predicate RdKidChanged(c: Config, t: Term)
    decreases Size(t), 1
  {
    exists i :: 0 <= i < |Children(t)| && (ChildIsSmaller(t, Children(t)[i]); Rd(c, Children(t)[i]).changed)
  }

  ghost function RdKids(c: Config, t: Term): (ts: seq<Term>)
    ensures |ts| == |Children(t)|
    decreases Size(t), 1
  {
    seq(|Children(t)|, i requires 0 <= i < |Children(t)| => ChildIsSmaller(t, Children(t)[i]); Rd(c, Children(t)[i]).term)
  }

  /** Dividend and divisor of all divisions and modulos that are replaced. */
  ghost function Pairs(c: Config, t: Term): set<(Term, Term)>
    decreases Size(t), 1
  {
    KidPairs(c, t) + OwnPair(c, t)
  }

  ghost function KidPairs(c: Config, t: Term): set<(Term, Term)>
    decreases Size(t), 0, |Children(t)| + 1
  {
    FirstPairs(c, t, |Children(t)|)
  }

  ghost function FirstPairs(c: Config, t: Term, n: nat): set<(Term, Term)>
    requires n <= |Children(t)|
    decreases Size(t), 0, n
  {
    if n == 0 then {} else ChildIsSmaller(t, Children(t)[n - 1]); FirstPairs(c, t, n - 1) + Pairs(c, Children(t)[n - 1])
  }

  lemma {:induction false} FirstPairsAre(c: Config, t: Term, n: nat, p: (Term, Term))
    requires n <= |Children(t)|
    ensures p in FirstPairs(c, t, n) <==> exists i {:trigger Children(t)[i]} :: 0 <= i < n && p in Pairs(c, Children(t)[i])
  {
    hide Pairs, Children;
    if n > 0 {
      FirstPairsAre(c, t, n - 1, p);
      FirstPairsOf(c, t, n);
    }
  }

  lemma FirstPairsOf(c: Config, t: Term, n: nat)
    requires 0 < n <= |Children(t)|
    ensures FirstPairs(c, t, n) == FirstPairs(c, t, n - 1) + Pairs(c, Children(t)[n - 1])
  {
  }

  ghost function OwnPair(c: Config, t: Term): set<(Term, Term)> {
    if IsDivMod(RdMid(c, t)) then {(RdMid(c, t).args[0], RdMid(c, t).args[1])} else {}
  }

  lemma RdUnchanged(c: Config, t: Term)
    ensures !Rd(c, t).changed ==> Rd(c, t).term == t && !RdKidChanged(c, t)
  {
  }

  ghost function AuxNames(c: Config, ps: set<(Term, Term)>): set<string> {
    (set p | p in ps :: DivName(c, p.0, p.1)) + (set p | p in ps :: ModName(c, p.0, p.1))
  }

  // ---------------------------------------------------------------------------
  // What rewriting keeps

  lemma NamesOfChildren(t: Term, x: string)
    ensures x in Names(t) <==> t == Var(x) || exists i {:trigger Children(t)[i]} :: 0 <= i < |Children(t)| && x in Names(Children(t)[i])
  {
    SubtermsOfChildren(t, Var(x));
    if t == Var(x) { assert Var(x) in Subterms(t); }
    if x in Names(t) {
      var s :| s in Subterms(t) && s.Var? && s.name == x;
      assert s == Var(x);
      if s != t {
        var i :| 0 <= i < |Children(t)| && s in Subterms(Children(t)[i]);
        assert x in Names(Children(t)[i]);
      }
    }
    if i :| 0 <= i < |Children(t)| && x in Names(Children(t)[i]) {
      var s :| s in Subterms(Children(t)[i]) && s.Var? && s.name == x;
      SubtermsOfChildren(t, s);
    }
  }

  lemma WellFormedChildren(sig: Signature, t: Term)
    ensures WellFormed(sig, t) <==> WellFormedAt(sig, t) && forall i {:trigger Children(t)[i]} :: 0 <= i < |Children(t)| ==> WellFormed(sig, Children(t)[i])
  {
    SubtermsOfChildren(t, t);
    if WellFormed(sig, t) {
      forall i, s | 0 <= i < |Children(t)| && s in Subterms(Children(t)[i]) ensures WellFormedAt(sig, s) { SubtermsOfChildren(t, s); }
    } else if forall i {:trigger Children(t)[i]} :: 0 <= i < |Children(t)| ==> WellFormed(sig, Children(t)[i]) {
      var s :| s in Subterms(t) && !WellFormedAt(sig, s);
      SubtermsOfChildren(t, s);
    }
  }

  lemma NumStays(c: Config, n: Term)
    requires IsNum(n)
    ensures Rd(c, n) == Rewriting(false, n)
  {
    assert !RdKidChanged(c, n);
  }

  lemma WithWellFormed(sig: Signature, t: Term, ks: seq<Term>)
    requires WellFormed(sig, t) && |ks| == |Children(t)|
    requires forall i {:trigger ks[i]} :: 0 <= i < |ks| ==> WellFormed(sig, ks[i]) && IsInt(sig, ks[i]) == IsInt(sig, Children(t)[i]) && (IsNum(Children(t)[i]) ==> ks[i] == Children(t)[i])
    ensures WellFormed(sig, WithChildren(t, ks)) && IsInt(sig, WithChildren(t, ks)) == IsInt(sig, t)
  {
    hide WellFormed, IsNum;
    var u := WithChildren(t, ks);
    WellFormedChildren(sig, t);
    WellFormedChildren(sig, u);
    if t.Ite? {
      assert ks[0] == u.cond && ks[1] == u.tt && ks[2] == u.ff;
    } else if t.App? && (t.op == Uf(DIV) || t.op == Uf(MOD)) {
      assert ks[0] == u.args[0] && ks[1] == u.args[1];
    }
    if t.Var? { assert u == t; } else { assert Children(u) == ks; }
  }

  /** Rewriting keeps terms well formed, and sorts. */
  lemma {:induction false} RdWellFormed(c: Config, t: Term)
    requires Proper(c) && WellFormed(c.sig, t)
    ensures WellFormed(c.sig, RdMid(c, t)) && IsInt(c.sig, RdMid(c, t)) == IsInt(c.sig, t)
    ensures WellFormed(c.sig, Rd(c, t).term) && IsInt(c.sig, Rd(c, t).term) == IsInt(c.sig, t)
    ensures RdKidChanged(c, t) ==> WellFormed(c.sig, WithChildren(t, RdKids(c, t))) && BuiltRight(c, WithChildren(t, RdKids(c, t)))
    decreases Size(t)
  {
    hide WellFormed, BuiltRight, RdKidChanged, IsInt, IsNum;
    var cs, ks := Children(t), RdKids(c, t);
    WellFormedChildren(c.sig, t);
    forall i {:trigger ks[i]} | 0 <= i < |ks| ensures WellFormed(c.sig, ks[i]) && IsInt(c.sig, ks[i]) == IsInt(c.sig, cs[i]) && (IsNum(cs[i]) ==> ks[i] == cs[i]) {
      ChildIsSmaller(t, cs[i]);
      RdWellFormed(c, cs[i]);
      if IsNum(cs[i]) { NumStays(c, cs[i]); }
    }
    WithWellFormed(c.sig, t, ks);
    BuiltIs(c, WithChildren(t, ks));
    TargetWellFormed(c, RdMid(c, t));
  }

  lemma BuiltIs(c: Config, t: Term)
    requires Proper(c) && WellFormed(c.sig, t)
    ensures BuiltRight(c, t) && WellFormed(c.sig, c.mk(t)) && IsInt(c.sig, c.mk(t)) == IsInt(c.sig, t)
  {
  }

  lemma TargetWellFormed(c: Config, t: Term)
    requires Proper(c) && WellFormed(c.sig, t)
    ensures WellFormed(c.sig, Target(c, t)) && IsInt(c.sig, Target(c, t)) == IsInt(c.sig, t)
  {
    if IsDivMod(t) {
      NamesApart(c, t.args[0], t.args[1], t.args[0], t.args[1]);
    }
  }

  /** The variables of the rewritten term: those of the original, and those of its definitions. */
  lemma {:induction false} RdNames(c: Config, t: Term)
    requires Proper(c) && WellFormed(c.sig, t)
    ensures Names(RdMid(c, t)) <= Names(t) + AuxNames(c, KidPairs(c, t))
    ensures Names(Rd(c, t).term) <= Names(t) + AuxNames(c, Pairs(c, t))
    decreases Size(t)
  {
    hide WellFormed, BuiltRight, RdKidChanged, Names, Pairs, AuxNames, KidPairs;
    var cs, ks := Children(t), RdKids(c, t);
    WellFormedChildren(c.sig, t);
    RdWellFormed(c, t);
    forall x | x in Names(RdMid(c, t)) ensures x in Names(t) + AuxNames(c, KidPairs(c, t)) {
      if RdKidChanged(c, t) {
        var u := WithChildren(t, ks);
        BuiltNames(c, u, x);
        NamesOfChildren(u, x);
        if !t.Var? {
          assert Children(u) == ks;
          var i :| 0 <= i < |ks| && x in Names(ks[i]);
          ChildIsSmaller(t, cs[i]);
          RdNames(c, cs[i]);
          NamesOfChildren(t, x);
          if x !in Names(t) { MoreKidPairs(c, t, i, x); }
        }
      }
    }
    TargetNames(c, t);
  }

  lemma BuiltNames(c: Config, u: Term, x: string)
    requires BuiltRight(c, u) && x in Names(c.mk(u))
    ensures x in Names(u)
  {
  }

  lemma MoreKidPairs(c: Config, t: Term, i: nat, x: string)
    requires i < |Children(t)| && x in AuxNames(c, Pairs(c, Children(t)[i]))
    ensures x in AuxNames(c, KidPairs(c, t))
  {
    hide Pairs;
    var ps := Pairs(c, Children(t)[i]);
    forall p | p in ps ensures p in KidPairs(c, t) { FirstPairsAre(c, t, |Children(t)|, p); }
  }

  lemma TargetNames(c: Config, t: Term)
    requires Names(RdMid(c, t)) <= Names(t) + AuxNames(c, KidPairs(c, t))
    ensures Names(Rd(c, t).term) <= Names(t) + AuxNames(c, Pairs(c, t))
  {
    hide KidPairs, RdKidChanged;
    var u := RdMid(c, t);
    if IsDivMod(u) {
      assert (u.args[0], u.args[1]) in Pairs(c, t);
      assert Target(c, u).Var?;
    }
  }

  // ---------------------------------------------------------------------------
  // What rewriting removes

  lemma DivisionFreeChildren(t: Term)
    ensures DivisionFree(t) <==> !Divides(t) && forall i {:trigger Children(t)[i]} :: 0 <= i < |Children(t)| ==> DivisionFree(Children(t)[i])
  {
    hide Divides;
    SubtermsOfChildren(t, t);
    if DivisionFree(t) {
      forall i, s | 0 <= i < |Children(t)| && s in Subterms(Children(t)[i]) ensures !Divides(s) { SubtermsOfChildren(t, s); }
    } else if forall i {:trigger Children(t)[i]} :: 0 <= i < |Children(t)| ==> DivisionFree(Children(t)[i]) {
      var s :| s in Subterms(t) && Divides(s);
      SubtermsOfChildren(t, s);
    }
  }

  lemma ReplacedDivisionFree(c: Config, t: Term)
    requires WellFormed(c.sig, t) && forall i {:trigger Children(t)[i]} :: 0 <= i < |Children(t)| ==> DivisionFree(Children(t)[i])
    ensures DivisionFree(Target(c, t)) && (IsDivMod(t) ==> DivisionFree(t.args[0]))
  {
    hide DivisionFree;
    DivisionFreeChildren(t);
    DivisionFreeChildren(Target(c, t));
    assert t in Subterms(t) && WellFormedAt(c.sig, t);
    if IsDivMod(t) { assert t.args[0] == Children(t)[0]; }
  }

  lemma BuiltDivisionFree(c: Config, u: Term)
    requires BuiltRight(c, u) && forall i {:trigger Children(u)[i]} :: 0 <= i < |Children(u)| ==> DivisionFree(Children(u)[i])
    ensures forall i {:trigger Children(c.mk(u))[i]} :: 0 <= i < |Children(c.mk(u))| ==> DivisionFree(Children(c.mk(u))[i])
  {
    hide Divides;
    var v := c.mk(u);
    forall i, s | 0 <= i < |Children(v)| && s in Subterms(Children(v)[i]) ensures !Divides(s) {
      if j :| 0 <= j < |Children(u)| && s in Subterms(Children(u)[j]) {
        assert DivisionFree(Children(u)[j]);
      }
    }
  }

  /** No division or modulo is left, in the rewritten term and in the dividends. */
  lemma {:induction false} NoneLeft(c: Config, t: Term)
    requires Proper(c) && WellFormed(c.sig, t)
    ensures DivisionFree(Rd(c, t).term)
    ensures IsDivMod(RdMid(c, t)) ==> DivisionFree(RdMid(c, t).args[0])
    decreases Size(t)
  {
    hide WellFormed, BuiltRight, Proper, DivisionFree, RdKidChanged, IsDivMod;
    var cs, ks := Children(t), RdKids(c, t);
    WellFormedChildren(c.sig, t);
    RdWellFormed(c, t);
    forall i {:trigger ks[i]} {:trigger cs[i]} | 0 <= i < |ks| ensures DivisionFree(ks[i]) && (!RdKidChanged(c, t) ==> ks[i] == cs[i]) {
      ChildIsSmaller(t, cs[i]);
      NoneLeft(c, cs[i]);
      ChildUnchanged(c, t, i);
    }
    if RdKidChanged(c, t) {
      ChildrenOfNew(t, ks);
      BuiltDivisionFree(c, WithChildren(t, ks));
    }
    ReplacedDivisionFree(c, RdMid(c, t));
  }

  lemma ChildUnchanged(c: Config, t: Term, i: nat)
    requires i < |Children(t)|
    ensures !RdKidChanged(c, t) ==> Rd(c, Children(t)[i]).term == Children(t)[i]
  {
    RdUnchanged(c, Children(t)[i]);
  }

  lemma ChildrenOfNew(t: Term, ks: seq<Term>)
    requires |ks| == |Children(t)|
    ensures Children(WithChildren(t, ks)) == ks
  {
  }

  // ---------------------------------------------------------------------------
  // What the rewritten term means

  ghost predicate AllRight(c: Config, m: Model, ps: set<(Term, Term)>) {
    forall p {:trigger p in ps} :: p in ps ==> AuxRight(c, m, p.0, p.1)
  }

  /** Where the variables have the right values, the rewritten term has the value of the original. */
  lemma {:induction false} RdMeans(c: Config, m: Model, t: Term)
    requires Proper(c) && WellFormed(c.sig, t) && Standard(c.sig, m) && AllRight(c, m, Pairs(c, t))
    ensures Eval(m, RdMid(c, t)) == Eval(m, t) && Eval(m, Rd(c, t).term) == Eval(m, t)
    decreases Size(t)
  {
    hide WellFormed, RdKidChanged, Standard, AuxRight, Eval, KidPairs;
    var cs, ks := Children(t), RdKids(c, t);
    WellFormedChildren(c.sig, t);
    RdWellFormed(c, t);
    forall i {:trigger ks[i]} | 0 <= i < |ks| ensures Eval(m, ks[i]) == Eval(m, cs[i]) {
      ChildIsSmaller(t, cs[i]);
      forall p | p in Pairs(c, cs[i]) ensures p in KidPairs(c, t) { FirstPairsAre(c, t, |cs|, p); KidPairsAre(c, t); }
      RdMeans(c, m, cs[i]);
    }
    StandardDefines(c.sig, m);
    EvalChildren(m, t, ks);
    TargetMeans(c, m, RdMid(c, t));
  }

  lemma KidPairsAre(c: Config, t: Term)
    ensures KidPairs(c, t) == FirstPairs(c, t, |Children(t)|)
  {
  }

  lemma StandardDefines(sig: Signature, m: Model)
    requires Standard(sig, m)
    ensures m.ites.Defined?
  {
  }

  lemma TargetMeans(c: Config, m: Model, t: Term)
    requires WellFormed(c.sig, t) && Standard(c.sig, m) && (IsDivMod(t) ==> AuxRight(c, m, t.args[0], t.args[1]))
    ensures Eval(m, Target(c, t)) == Eval(m, t)
  {
    if IsDivMod(t) {
      assert t in Subterms(t) && WellFormedAt(c.sig, t);
      DivModValue(c.sig, m, t);
    }
  }

  // ---------------------------------------------------------------------------
  // Conservativity

  /** The rewritten formula together with the definitions. */
  function Result(c: Config, root: Term, definitions: seq<Term>): Term {
    And([root] + definitions)
  }

  ghost predicate DefinitionsFor(c: Config, ps: set<(Term, Term)>, definitions: seq<Term>) {
    && (forall p {:trigger p in ps} :: p in ps ==> IsInt(c.sig, p.0) && IsNum(p.1) && NumOf(p.1) != 0 && Definition(c, p.0, p.1) in definitions)
    && forall d {:trigger d in definitions} :: d in definitions ==> exists p {:trigger p in ps} :: p in ps && IsNum(p.1) && NumOf(p.1) != 0 && d == Definition(c, p.0, p.1)
  }

  /** In a standard model the result holds exactly if the auxiliary variables, of this and earlier formulas, are
      quotients and remainders and the original formula holds. */
  lemma EliminationIsConservative(c: Config, t: Term, ps: set<(Term, Term)>, definitions: seq<Term>, m: Model)
    requires Proper(c) && WellFormed(c.sig, t) && Standard(c.sig, m) && Pairs(c, t) <= ps && DefinitionsFor(c, ps, definitions)
    ensures Holds(m, Result(c, Rd(c, t).term, definitions)) <==> AllRight(c, m, ps) && Holds(m, t)
  {
    hide WellFormed, Standard, AuxRight, Eval, Pairs, Rd, Definition;
    var root := Rd(c, t).term;
    AndHolds(m, [root] + definitions);
    assert root in [root] + definitions && forall d {:trigger d in definitions} :: d in definitions ==> d in [root] + definitions;
    forall p | p in ps ensures IsInt(c.sig, p.0) && IsNum(p.1) && NumOf(p.1) != 0 && Definition(c, p.0, p.1) in definitions
      && (Holds(m, Definition(c, p.0, p.1)) <==> AuxRight(c, m, p.0, p.1))
    {
      DefinitionFixes(c, m, p.0, p.1);
    }
    if AllRight(c, m, ps) { RdMeans(c, m, t); }
  }

  /** Two models that differ on other names only give a term the same value. */
  lemma {:induction false} SameNames(m: Model, m': Model, t: Term)
    requires m.fun == m'.fun && m.ites.Defined? && m'.ites.Defined?
    requires forall x {:trigger x in Names(t)} :: x in Names(t) ==> m.vars(x) == m'.vars(x)
    ensures Eval(m, t) == Eval(m', t)
    decreases Size(t)
  {
    hide Names;
    var cs := Children(t);
    forall i {:trigger cs[i]} | 0 <= i < |cs| ensures Eval(m, cs[i]) == Eval(m', cs[i]) {
      ChildIsSmaller(t, cs[i]);
      forall x | x in Names(cs[i]) ensures m.vars(x) == m'.vars(x) { NamesOfChildren(t, x); assert x in Names(t); }
      SameNames(m, m', cs[i]);
    }
    match t
    case Var(x) => NamesOfChildren(t, x); assert x in Names(t);
    case App(op, args) =>
      assert Values(m, args) == Values(m', args);
      EvalApp(m, op, args);
      EvalApp(m', op, args);
    case Ite(a, b, d) => assert cs[0] == a && cs[1] == b && cs[2] == d;
  }

  /** Uniqueness: the original variables' values fix those of the auxiliary ones. */
  lemma {:induction false} ExtensionUnique(c: Config, t: Term, m: Model, m': Model)
    requires Proper(c) && WellFormed(c.sig, t) && Standard(c.sig, m) && Standard(c.sig, m') && m.fun == m'.fun
    requires forall x {:trigger x in Names(t)} :: x in Names(t) ==> m.vars(x) == m'.vars(x)
    requires AllRight(c, m, Pairs(c, t)) && AllRight(c, m', Pairs(c, t))
    ensures forall x {:trigger x in AuxNames(c, Pairs(c, t))} :: x in AuxNames(c, Pairs(c, t)) ==> m.vars(x) == m'.vars(x)
    decreases Size(t)
  {
    hide WellFormed, RdKidChanged, Standard, AuxRight, Names, KidPairs, AuxNames;
    var cs := Children(t);
    WellFormedChildren(c.sig, t);
    StandardDefines(c.sig, m);
    StandardDefines(c.sig, m');
    forall x {:trigger x in AuxNames(c, KidPairs(c, t))} | x in AuxNames(c, KidPairs(c, t)) ensures m.vars(x) == m'.vars(x) {
      var i := KidOfName(c, t, x);
      ChildIsSmaller(t, cs[i]);
      forall p | p in Pairs(c, cs[i]) ensures p in KidPairs(c, t) { FirstPairsAre(c, t, |cs|, p); KidPairsAre(c, t); }
      forall y | y in Names(cs[i]) ensures m.vars(y) == m'.vars(y) { NamesOfChildren(t, y); assert y in Names(t); }
      ExtensionUnique(c, cs[i], m, m');
    }
    RdNames(c, t);
    OwnUnique(c, t, m, m');
  }

  lemma KidOfName(c: Config, t: Term, x: string) returns (i: nat)
    requires x in AuxNames(c, KidPairs(c, t))
    ensures i < |Children(t)| && x in AuxNames(c, Pairs(c, Children(t)[i]))
  {
    hide Pairs;
    var p :| p in KidPairs(c, t) && (x == DivName(c, p.0, p.1) || x == ModName(c, p.0, p.1));
    FirstPairsAre(c, t, |Children(t)|, p);
    i :| 0 <= i < |Children(t)| && p in Pairs(c, Children(t)[i]);
  }

  lemma OwnNames(c: Config, t: Term, x: string)
    requires x in AuxNames(c, Pairs(c, t))
    ensures x in AuxNames(c, KidPairs(c, t)) ||
            (IsDivMod(RdMid(c, t)) && (RdMid(c, t).args[0], RdMid(c, t).args[1]) in Pairs(c, t)
             && x in {DivName(c, RdMid(c, t).args[0], RdMid(c, t).args[1]), ModName(c, RdMid(c, t).args[0], RdMid(c, t).args[1])})
  {
    hide KidPairs, RdMid;
  }

  lemma OwnUnique(c: Config, t: Term, m: Model, m': Model)
    requires m.fun == m'.fun && m.ites.Defined? && m'.ites.Defined?
    requires forall x {:trigger x in Names(t)} :: x in Names(t) ==> m.vars(x) == m'.vars(x)
    requires forall x {:trigger x in AuxNames(c, KidPairs(c, t))} :: x in AuxNames(c, KidPairs(c, t)) ==> m.vars(x) == m'.vars(x)
    requires Names(RdMid(c, t)) <= Names(t) + AuxNames(c, KidPairs(c, t))
    requires AllRight(c, m, Pairs(c, t)) && AllRight(c, m', Pairs(c, t))
    ensures forall x {:trigger x in AuxNames(c, Pairs(c, t))} :: x in AuxNames(c, Pairs(c, t)) ==> m.vars(x) == m'.vars(x)
  {
    hide KidPairs, RdKidChanged, Names, Pairs, RdMid, AuxNames;
    var u := RdMid(c, t);
    forall x {:trigger x in AuxNames(c, Pairs(c, t))} | x in AuxNames(c, Pairs(c, t)) ensures m.vars(x) == m'.vars(x) {
      OwnNames(c, t, x);
      if x !in AuxNames(c, KidPairs(c, t)) {
        var a := u.args[0];
        forall y | y in Names(a) ensures m.vars(y) == m'.vars(y) {
          NamesOfChildren(u, y);
          assert a == Children(u)[0];
          assert y in Names(u);
        }
        SameNames(m, m', a);
      }
    }
  }

  ghost function PairSet(ps: seq<(Term, Term)>): set<(Term, Term)> {
    set p | p in ps
  }

  ghost predicate OrderedAt(c: Config, ps: seq<(Term, Term)>, i: nat)
    requires i < |ps|
  {
    && ps[i] !in ps[..i] && IsInt(c.sig, ps[i].0) && IsNum(ps[i].1) && NumOf(ps[i].1) != 0
    && forall x {:trigger x in Names(ps[i].0)} :: x in Names(ps[i].0) ==> !IsAux(x) || x in AuxNames(c, PairSet(ps[..i]))
  }

  /** Every dividend mentions auxiliary variables of earlier pairs only. */
  ghost predicate Ordered(c: Config, ps: seq<(Term, Term)>) {
    forall i: nat {:trigger OrderedAt(c, ps, i)} :: i < |ps| ==> OrderedAt(c, ps, i)
  }

  ghost function With(m: Model, x: string, v: Value): Model {
    m.(vars := y => if y == x then v else m.vars(y))
  }

  /** Existence: a standard model extends to the auxiliary variables. */
  lemma {:induction false} ExtensionExists(c: Config, m: Model, ps: seq<(Term, Term)>) returns (m': Model)
    requires Proper(c) && Standard(c.sig, m) && Ordered(c, ps)
    ensures Standard(c.sig, m') && m'.fun == m.fun && AllRight(c, m', PairSet(ps))
    ensures forall x {:trigger m'.vars(x)} :: x !in AuxNames(c, PairSet(ps)) ==> m'.vars(x) == m.vars(x)
  {
    hide Standard, AuxRight, IsInt, IsNum, AuxNames, Names;
    if ps == [] {
      m' := m;
    } else {
      var n := |ps| - 1;
      var rest, p := ps[..n], ps[n];
      OrderedParts(c, ps);
      var m1 := ExtensionExists(c, m, rest);
      m' := SetPair(c, m1, p);
      forall q | q in PairSet(ps) ensures AuxRight(c, m', q.0, q.1) {
        assert q != p ==> q in PairSet(rest);
        if q != p { EarlierStaysRight(c, m1, m', rest, p, q); }
      }
      MorePairs(c, ps);
    }
  }

  lemma OrderedParts(c: Config, ps: seq<(Term, Term)>)
    requires Ordered(c, ps) && ps != []
    ensures Ordered(c, ps[..|ps| - 1]) && OrderedAt(c, ps, |ps| - 1)
    ensures Proper(c) ==> var p := ps[|ps| - 1]; DivName(c, p.0, p.1) !in Names(p.0) && ModName(c, p.0, p.1) !in Names(p.0)
  {
    hide Names, Proper, AuxNames;
    var rest, p := ps[..|ps| - 1], ps[|ps| - 1];
    assert OrderedAt(c, ps, |ps| - 1);
    if Proper(c) {
      forall x | x in Names(p.0) ensures x != DivName(c, p.0, p.1) && x != ModName(c, p.0, p.1) { NotOf(c, rest, p, x); }
    }
    forall i: nat | i < |rest| ensures OrderedAt(c, rest, i) {
      assert OrderedAt(c, ps, i) && rest[..i] == ps[..i] && rest[i] == ps[i];
    }
  }

  lemma MorePairs(c: Config, ps: seq<(Term, Term)>)
    requires ps != []
    ensures var p := ps[|ps| - 1];
            forall x {:trigger x in AuxNames(c, PairSet(ps))} :: x !in AuxNames(c, PairSet(ps)) ==>
              x !in AuxNames(c, PairSet(ps[..|ps| - 1])) && x != DivName(c, p.0, p.1) && x != ModName(c, p.0, p.1)
  {
  }

  /** The pair's variables get their values. */
  lemma SetPair(c: Config, m: Model, p: (Term, Term)) returns (m': Model)
    requires Proper(c) && Standard(c.sig, m) && IsInt(c.sig, p.0) && IsNum(p.1) && NumOf(p.1) != 0
    requires DivName(c, p.0, p.1) !in Names(p.0) && ModName(c, p.0, p.1) !in Names(p.0)
    ensures Standard(c.sig, m') && m'.fun == m.fun && AuxRight(c, m', p.0, p.1)
    ensures forall x {:trigger m'.vars(x)} :: x != DivName(c, p.0, p.1) && x != ModName(c, p.0, p.1) ==> m'.vars(x) == m.vars(x)
  {
    IntValue(c.sig, m, p.0);
    NamesApart(c, p.0, p.1, p.0, p.1);
    var v, d := Eval(m, p.0).e, NumOf(p.1);
    m' := With(With(m, DivName(c, p.0, p.1), Elem(v / d)), ModName(c, p.0, p.1), Elem(v % d));
    SameNames(m, m', p.0);
  }

  /** A dividend that mentions earlier variables only keeps its value, and its variables keep theirs. */
  lemma EarlierStaysRight(c: Config, m: Model, m': Model, rest: seq<(Term, Term)>, p: (Term, Term), q: (Term, Term))
    requires Proper(c) && Standard(c.sig, m) && Standard(c.sig, m') && m'.fun == m.fun && Ordered(c, rest) && q in rest && p !in rest && AuxRight(c, m, q.0, q.1)
    requires forall x {:trigger m'.vars(x)} :: x != DivName(c, p.0, p.1) && x != ModName(c, p.0, p.1) ==> m'.vars(x) == m.vars(x)
    ensures AuxRight(c, m', q.0, q.1)
  {
    hide Standard;
    StandardDefines(c.sig, m);
    StandardDefines(c.sig, m');
    var i: nat :| i < |rest| && rest[i] == q;
    assert OrderedAt(c, rest, i);
    forall x | x in Names(q.0) ensures m.vars(x) == m'.vars(x) {
      NotOf(c, rest[..i], p, x);
    }
    SameNames(m, m', q.0);
    NamesApart(c, p.0, p.1, q.0, q.1);
    NamesApart(c, q.0, q.1, p.0, p.1);
  }

  lemma NotOf(c: Config, ps: seq<(Term, Term)>, p: (Term, Term), x: string)
    requires Proper(c) && p !in ps && (!IsAux(x) || x in AuxNames(c, PairSet(ps)))
    ensures x != DivName(c, p.0, p.1) && x != ModName(c, p.0, p.1)
  {
    hide Proper;
    NamesApart(c, p.0, p.1, p.0, p.1);
    if IsAux(x) {
      var q :| q in PairSet(ps) && (x == DivName(c, q.0, q.1) || x == ModName(c, q.0, q.1));
      NamesApart(c, p.0, p.1, q.0, q.1);
      NamesApart(c, q.0, q.1, p.0, p.1);
    }
  }
}
