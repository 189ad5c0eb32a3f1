/** A formula without models of which the substitution pass makes one that has a model. */
module LostFacts {
  import opened Terms
  import opened Rewriters
  import opened SubstClosures
  import opened SubstFacts
  import opened SubstRetrieval
  import opened SubstPasses
  import opened SubstRuns
  import opened SubstExamples

  function El(f: nat): Term { App(Uf(f), []) }
  function Ap(f: nat, x: Term): Term { App(Uf(f), [x]) }

  /** The logic of the example: one Boolean variable. */
  function Example(): Logic { Logic(x => x == "p", f => false, Build) }

  const C1 := El(1)
  const C2 := El(2)
  const A := Var("a")
  const B := Var("b")
  const P := Var("p")
  const Y := Var("y")
  const K := Ap(6, Y)
  const L := Ap(7, Y)

  /** p implies a = b, as mkImpl builds it. */
  function Guarded(): Term { Or([Not(P), Eq(A, B)]) }

  /** f(b) = c1, p, p => a = b, f(a) = k(y), k(y) = l(y) and l(y) = c2. */
  function Root0(): seq<Term> { [Eq(Ap(3, B), C1), P, Guarded(), Eq(Ap(3, A), K), Eq(K, L), Eq(L, C2)] }
  function Root1(): seq<Term> { [Eq(A, B), Eq(Ap(3, A), K), Eq(K, C2)] }
  function Root2(): seq<Term> { [Eq(Ap(3, B), C2)] }

  function Found0(): map<Term, Term> { map[Ap(3, B) := C1, P := True(), L := C2] }
  function Found1(): map<Term, Term> { map[A := B, K := C2] }
  function Found2(): map<Term, Term> { map[Ap(3, B) := C2] }

  /** What is recorded in the end: f(b) keeps its first value. */
  function Recorded(): map<Term, Term> { map[Ap(3, B) := C1, P := True(), L := C2, A := B, K := C2] }

  // ---------------------------------------------------------------------------
  // What the conjuncts suggest

  predicate Conjunct(t: Term) {
    IsEquality(t) || t == True() || t == P || t == Guarded()
  }

  /** The conjuncts of a formula, which may be one conjunct alone. */
  ghost predicate Joins(root: Term, ts: seq<Term>) {
    && (forall i {:trigger ts[i]} :: 0 <= i < |ts| ==> Conjunct(ts[i]))
    && (root == And(ts) || ts == [root])
  }

  lemma TopsOfConjunct(t: Term, p: Signed)
    requires Conjunct(t)
    ensures IsTop(t, true, p) <==> p == Signed(t, true)
  {
    assert Pure(t, true) == Signed(t, true) && Parts(Signed(t, true)) == [];
  }

  lemma TopsOfJoin(root: Term, ts: seq<Term>, p: Signed)
    requires Joins(root, ts)
    ensures IsTop(root, true, p) <==> p == Signed(root, true) || (p.sign && p.term in ts)
  {
    hide Conjunct;
    if ts == [root] {
      assert ts[0] == root;
      TopsOfConjunct(root, p);
    } else {
      assert Pure(root, true) == Signed(root, true) && Parts(Signed(root, true)) == ts;
      forall i | 0 <= i < |ts| ensures IsTop(ts[i], true, p) <==> p == Signed(ts[i], true) { TopsOfConjunct(ts[i], p); }
      if p.sign && p.term in ts {
        var i :| 0 <= i < |ts| && ts[i] == p.term;
        assert IsTop(ts[i], true, p) && p == Signed(ts[i], true);
      }
    }
  }

  /** Disjunctions and truth values are no facts. */
  predicate GivesFact(t: Term) {
    t != True() && t != Guarded()
  }

  lemma FactOfConjunct(t: Term)
    requires Conjunct(t)
    ensures FactOf(Example(), Signed(t, true)) == if GivesFact(t) then [Signed(t, true)] else []
  {
  }

  /** The suggestions of a formula are those of its conjuncts. */
  lemma SuggestedByJoin(root: Term, ts: seq<Term>, k: Term, t: Term)
    requires Joins(root, ts)
    ensures Suggested(Example(), root, k, t) <==> exists i {:trigger ts[i]} :: 0 <= i < |ts| && GivesFact(ts[i]) && CandidateOf(Example(), Signed(ts[i], true)) == Candidate(k, t)
  {
    hide CandidateOf, IsTop, Conjunct, GivesFact;
    var l := Example();
    forall p {:trigger IsTop(root, true, p)} ensures IsTop(root, true, p) <==> p == Signed(root, true) || (p.sign && p.term in ts) {
      TopsOfJoin(root, ts, p);
    }
    if i :| 0 <= i < |ts| && GivesFact(ts[i]) && CandidateOf(l, Signed(ts[i], true)) == Candidate(k, t) {
      var p := Signed(ts[i], true);
      FactOfConjunct(ts[i]);
      assert IsTop(root, true, p) && FactOf(l, p) == [p];
    }
    if Suggested(l, root, k, t) {
      var p :| IsTop(root, true, p) && FactOf(l, p) != [] && CandidateOf(l, FactOf(l, p)[0]) == Candidate(k, t);
      assert p.sign && p.term in ts by { if ts == [root] { assert ts[0] == root; } }
      var i :| 0 <= i < |ts| && ts[i] == p.term;
      FactOfConjunct(ts[i]);
      assert p == Signed(ts[i], true);
    }
  }

  lemma InAp(f: nat, x: Term, s: Term)
    ensures s in Subterms(Ap(f, x)) <==> s == Ap(f, x) || s in Subterms(x)
  {
    SubtermsOfChildren(Ap(f, x), s);
    assert Children(Ap(f, x))[0] == x;
  }

  /** A compound term equated with an element that does not occur in it becomes that element. */
  lemma ElementEquation(f: nat, x: string, c: nat)
    ensures CandidateOf(Example(), Signed(Eq(Ap(f, Var(x)), El(c)), true)) == Candidate(Ap(f, Var(x)), El(c))
  {
    InAp(f, Var(x), El(c));
  }

  lemma CompoundEquation(a: Term, b: Term)
    requires Children(a) != [] && Children(b) != []
    ensures CandidateOf(Example(), Signed(Eq(a, b), true)) == Nothing
  {
  }

  lemma BoolVariable()
    ensures CandidateOf(Example(), Signed(P, true)) == Candidate(P, True())
    ensures CandidateOf(Example(), Signed(Eq(A, B), true)) == Candidate(A, B)
  {
  }

  lemma FirstSuggestions(k: Term, t: Term)
    ensures Suggested(Example(), And(Root0()), k, t) <==> k in Found0() && Found0()[k] == t
  {
    hide CandidateOf, Suggested;
    var ts := Root0();
    assert ts[0] == Eq(Ap(3, B), C1) && ts[1] == P && ts[2] == Guarded() && ts[3] == Eq(Ap(3, A), K) && ts[4] == Eq(K, L) && ts[5] == Eq(L, C2);
    SuggestedByJoin(And(ts), ts, k, t);
    ElementEquation(3, "b", 1);
    ElementEquation(7, "y", 2);
    BoolVariable();
    CompoundEquation(Ap(3, A), K);
    CompoundEquation(K, L);
  }

  lemma SecondSuggestions(k: Term, t: Term)
    ensures Suggested(Example(), And(Root1()), k, t) <==> k in Found1() && Found1()[k] == t
  {
    hide CandidateOf, Suggested;
    var ts := Root1();
    assert ts[0] == Eq(A, B) && ts[1] == Eq(Ap(3, A), K) && ts[2] == Eq(K, C2);
    SuggestedByJoin(And(ts), ts, k, t);
    ElementEquation(6, "y", 2);
    BoolVariable();
    CompoundEquation(Ap(3, A), K);
  }

  lemma ThirdSuggestions(k: Term, t: Term)
    ensures Suggested(Example(), Root2()[0], k, t) <==> k in Found2() && Found2()[k] == t
  {
    hide CandidateOf, Suggested;
    assert Root2()[0] == Eq(Ap(3, B), C2);
    SuggestedByJoin(Root2()[0], Root2(), k, t);
    ElementEquation(3, "b", 2);
  }

  lemma NoSuggestions(k: Term, t: Term)
    ensures !Suggested(Example(), True(), k, t)
  {
    hide CandidateOf, Suggested;
    SuggestedByJoin(True(), [True()], k, t);
  }

  /** The rounds of the example are plain. */
  lemma JoinPlain(root: Term, ts: seq<Term>, found: map<Term, Term>)
    requires Joins(root, ts) && IsClosed(found)
    requires forall k, t {:trigger Suggested(Example(), root, k, t)} :: Suggested(Example(), root, k, t) <==> k in found && found[k] == t
    ensures Plain(Example(), root, found)
  {
    hide IsTop, Suggested, Conjunct, IsClosed, GivesFact;
    forall p | IsTop(root, true, p) ensures p.sign && (FactOf(Example(), p) == [] || FactOf(Example(), p) == [p]) {
      TopsOfJoin(root, ts, p);
      if ts == [root] { assert ts[0] == root; }
      if p.term in ts {
        var i :| 0 <= i < |ts| && ts[i] == p.term;
        FactOfConjunct(ts[i]);
        assert p == Signed(ts[i], true);
      }
    }
  }

  lemma LeavesClosed(m: map<Term, Term>)
    requires forall k {:trigger m[k]} :: k in m ==> Children(m[k]) == [] && m[k] !in m
    ensures IsClosed(m)
  {
    forall k | k in m ensures !HasKey(m, m[k]) {
      ConstantAlone(m[k]);
    }
  }

  lemma AllPlain()
    ensures Plain(Example(), And(Root0()), Found0()) && Plain(Example(), And(Root1()), Found1())
    ensures Plain(Example(), Root2()[0], Found2()) && Plain(Example(), True(), map[])
  {
    hide Suggested, IsClosed, Plain;
    forall k, t {:trigger Suggested(Example(), And(Root0()), k, t)} ensures Suggested(Example(), And(Root0()), k, t) <==> k in Found0() && Found0()[k] == t { FirstSuggestions(k, t); }
    forall k, t {:trigger Suggested(Example(), And(Root1()), k, t)} ensures Suggested(Example(), And(Root1()), k, t) <==> k in Found1() && Found1()[k] == t { SecondSuggestions(k, t); }
    forall k, t {:trigger Suggested(Example(), Root2()[0], k, t)} ensures Suggested(Example(), Root2()[0], k, t) <==> k in Found2() && Found2()[k] == t { ThirdSuggestions(k, t); }
    forall k, t {:trigger Suggested(Example(), True(), k, t)} ensures !Suggested(Example(), True(), k, t) { NoSuggestions(k, t); }
    LeavesClosed(Found0());
    LeavesClosed(Found1());
    LeavesClosed(Found2());
    LeavesClosed(map[]);
    JoinPlain(And(Root0()), Root0(), Found0());
    JoinPlain(And(Root1()), Root1(), Found1());
    JoinPlain(Root2()[0], Root2(), Found2());
    JoinPlain(True(), [True()], map[]);
  }

  // ---------------------------------------------------------------------------
  // How the rounds rewrite the formula

  /** Keys are variables or applied symbols, so no conjunct is one, unless it is p. */
  ghost predicate SymbolKeys(m: map<Term, Term>) {
    forall k {:trigger k in m} :: k in m ==> k.Var? || (k.App? && k.op.Uf? && k.args != [])
  }

  lemma RwLeaf(m: map<Term, Term>, x: Term)
    requires SymbolKeys(m) && Children(x) == []
    ensures Rw(Example(), m, x) == if x in m then Rewriting(m[x] != x, m[x]) else Rewriting(false, x)
  {
    assert !KidChanged(Example(), m, x);
  }

  lemma RwAp(m: map<Term, Term>, f: nat, x: Term)
    ensures var r := Rw(Example(), m, x); var t := Ap(f, r.term);
            Rw(Example(), m, Ap(f, x)) == if t in m then Rewriting(r.changed || m[t] != t, m[t]) else Rewriting(r.changed, t)
  {
    var l, t := Example(), Ap(f, x);
    assert Children(t) == [x];
    assert KidChanged(l, m, t) <==> Rw(l, m, Children(t)[0]).changed;
    assert RwKids(l, m, t) == [Rw(l, m, x).term];
    RwUnchanged(l, m, x);
  }

  lemma RwEq(m: map<Term, Term>, a: Term, b: Term)
    ensures var r, s := Rw(Example(), m, a), Rw(Example(), m, b);
            var t := if r.changed || s.changed then BuildEq(r.term, s.term) else Eq(a, b);
            t !in m ==> Rw(Example(), m, Eq(a, b)) == Rewriting(r.changed || s.changed, t)
  {
    var l, t := Example(), Eq(a, b);
    assert Children(t) == [a, b] && Children(t)[0] == a && Children(t)[1] == b;
    var r, s := Rw(l, m, a), Rw(l, m, b);
    assert KidChanged(l, m, t) <==> r.changed || s.changed by {
      if r.changed { assert Rw(l, m, Children(t)[0]).changed; }
      if s.changed { assert Rw(l, m, Children(t)[1]).changed; }
    }
    assert RwKids(l, m, t) == [r.term, s.term];
  }

  /** A conjunction or disjunction of which some argument changes. */
  lemma RwJunction(m: map<Term, Term>, op: Op, ts: seq<Term>, us: seq<Term>)
    requires op in {AndOp, OrOp} && |us| == |ts| && forall i {:trigger us[i]} :: 0 <= i < |ts| ==> Rw(Example(), m, ts[i]).term == us[i]
    requires us != ts && Junction(op, us) !in m
    ensures Rw(Example(), m, App(op, ts)) == Rewriting(true, Junction(op, us))
  {
    hide Rw, Junction;
    var l, t := Example(), App(op, ts);
    assert Children(t) == ts;
    assert RwKids(l, m, t) == us;
    var i :| 0 <= i < |ts| && us[i] != ts[i];
    RwUnchanged(l, m, ts[i]);
    assert Rw(l, m, Children(t)[i]).changed;
    assert Mid(l, m, t) == Junction(op, us);
    RwLookup(l, m, t);
  }

  lemma RwLookup(l: Logic, m: map<Term, Term>, t: Term)
    ensures Mid(l, m, t) !in m ==> Rw(l, m, t) == Rewriting(KidChanged(l, m, t), Mid(l, m, t))
  {
  }

  lemma KeptStep(unit: Term, t: Term, ts: seq<Term>)
    ensures Kept(unit, []) == []
    ensures Kept(unit, [t] + ts) == if t == unit || t in Kept(unit, ts) then Kept(unit, ts) else [t] + Kept(unit, ts)
  {
    assert ([t] + ts)[1..] == ts;
  }

  /** Once p is true, a = b is left of the guarded equation. */
  lemma RwGuarded()
    ensures Rw(Example(), Found0(), Guarded()) == Rewriting(true, Eq(A, B))
  {
    hide Rw;
    var m, l := Found0(), Example();
    RwLeaf(m, P);
    RwLeaf(m, A);
    RwLeaf(m, B);
    RwEq(m, A, B);
    RwNot(m, P);
    assert [False(), Eq(A, B)] == [False()] + [Eq(A, B)] && [Eq(A, B)] == [Eq(A, B)] + [];
    KeptStep(False(), False(), [Eq(A, B)]);
    KeptStep(False(), Eq(A, B), []);
    RwJunction(m, OrOp, [Not(P), Eq(A, B)], [False(), Eq(A, B)]);
  }

  lemma RwNot(m: map<Term, Term>, t: Term)
    requires Rw(Example(), m, t).changed && BuildNot(Rw(Example(), m, t).term) !in m
    ensures Rw(Example(), m, Not(t)) == Rewriting(true, BuildNot(Rw(Example(), m, t).term))
  {
    hide Rw, BuildNot;
    var l := Example();
    assert Children(Not(t)) == [t];
    assert Rw(l, m, Children(Not(t))[0]).changed;
    var r := Rw(l, m, t).term;
    assert RwKids(l, m, Not(t)) == [r];
    assert WithChildren(Not(t), [r]) == Not(r) && l.simp(Not(r)) == Build(Not(r)) == BuildNot(r);
    assert Mid(l, m, Not(t)) == BuildNot(r);
    RwLookup(l, m, Not(t));
  }

  lemma FirstHalf()
    ensures Rw(Example(), Found0(), Eq(Ap(3, B), C1)).term == True() && Rw(Example(), Found0(), P).term == True()
  {
    hide Rw;
    var m := Found0();
    RwLeaf(m, B);
    RwLeaf(m, C1);
    RwLeaf(m, P);
    RwAp(m, 3, B);
    RwEq(m, Ap(3, B), C1);
  }

  lemma SecondHalf()
    ensures Rw(Example(), Found0(), Eq(Ap(3, A), K)).term == Eq(Ap(3, A), K) && Rw(Example(), Found0(), Eq(K, L)).term == Eq(K, C2)
    ensures Rw(Example(), Found0(), Eq(L, C2)).term == True()
  {
    hide Rw;
    var m := Found0();
    RwLeaf(m, A);
    RwLeaf(m, Y);
    RwLeaf(m, C2);
    RwAp(m, 3, A);
    RwAp(m, 6, Y);
    RwAp(m, 7, Y);
    RwEq(m, Ap(3, A), K);
    RwEq(m, K, L);
    RwEq(m, L, C2);
  }

  lemma FirstRewriting()
    ensures Rw(Example(), Found0(), And(Root0())).term == And(Root1())
  {
    hide Rw;
    FirstHalf();
    SecondHalf();
    RwGuarded();
    FirstJunction();
    RwJunction(Found0(), AndOp, Root0(), [True(), True()] + Root1() + [True()]);
  }

  lemma FirstJunction()
    ensures Junction(AndOp, [True(), True()] + Root1() + [True()]) == And(Root1())
  {
    hide Kept;
    FirstKept();
  }

  lemma FirstKept()
    ensures Kept(True(), [True(), True()] + Root1() + [True()]) == Root1()
  {
    hide Kept;
    var ts := Root1() + [True()];
    var t := True();
    KeptStep(t, t, []);
    KeptStep(t, Eq(K, C2), [t]);
    KeptStep(t, Eq(Ap(3, A), K), [Eq(K, C2), t]);
    KeptStep(t, Eq(A, B), [Eq(Ap(3, A), K), Eq(K, C2), t]);
    KeptStep(t, t, ts);
    KeptStep(t, t, [t] + ts);
    assert [t] == [t] + [] && [Eq(K, C2), t] == [Eq(K, C2)] + [t] && [Eq(Ap(3, A), K), Eq(K, C2), t] == [Eq(Ap(3, A), K)] + [Eq(K, C2), t];
    assert ts == [Eq(A, B)] + [Eq(Ap(3, A), K), Eq(K, C2), t] && [t, t] + ts == [t] + ([t] + ts);
    assert [t, t] + Root1() + [t] == [t, t] + ts;
  }

  lemma SecondRewriting()
    ensures Rw(Example(), Found1(), And(Root1())).term == Root2()[0]
  {
    hide Rw;
    var m := Found1();
    RwLeaf(m, A);
    RwLeaf(m, B);
    RwLeaf(m, Y);
    RwLeaf(m, C2);
    RwAp(m, 3, A);
    RwAp(m, 6, Y);
    RwEq(m, A, B);
    RwEq(m, Ap(3, A), K);
    RwEq(m, K, C2);
    SecondJunction();
    RwJunction(m, AndOp, Root1(), [True()] + Root2() + [True()]);
  }

  lemma SecondJunction()
    ensures Junction(AndOp, [True()] + Root2() + [True()]) == Root2()[0]
  {
    hide Kept;
    var t := True();
    KeptStep(t, t, []);
    KeptStep(t, Root2()[0], [t]);
    KeptStep(t, t, Root2() + [t]);
    assert [t] == [t] + [] && Root2() + [t] == [Root2()[0]] + [t] && [t] + Root2() + [t] == [t] + (Root2() + [t]);
  }

  lemma ThirdRewriting()
    ensures Rw(Example(), Found2(), Root2()[0]).term == True() && Rw(Example(), map[], True()).term == True()
  {
    hide Rw;
    var m := Found2();
    RwLeaf(m, B);
    RwLeaf(m, C2);
    RwAp(m, 3, B);
    RwEq(m, Ap(3, B), C2);
    RwLeaf(map[], True());
  }

  // ---------------------------------------------------------------------------
  // The run

  /** The root and the substitutions after `i` rounds. */
  function RootAfter(i: nat): Term {
    if i == 0 then And(Root0()) else if i == 1 then And(Root1()) else if i == 2 then Root2()[0] else True()
  }

  function FoundAfter(i: nat): map<Term, Term> {
    if i == 0 then Found0() else if i == 1 then Found1() else if i == 2 then Found2() else map[]
  }

  function AllAfter(i: nat): map<Term, Term> {
    if i == 0 then map[] else if i == 1 then Found0() else Recorded()
  }

  lemma RoundOfExample(i: nat)
    ensures Plain(Example(), RootAfter(i), FoundAfter(i)) && Rw(Example(), FoundAfter(i), RootAfter(i)).term == RootAfter(i + 1)
    ensures FoundAfter(i) + AllAfter(i) == AllAfter(i + 1) && (RootAfter(i + 1) == RootAfter(i) <==> i >= 3)
  {
    hide Plain, Rw;
    AllPlain();
    FirstRewriting();
    SecondRewriting();
    ThirdRewriting();
    assert |Root0()| != |Root1()|;
  }

  /** There is only one run. */
  lemma {:induction false} OnlyRun(trace: seq<PassState>, i: nat)
    requires IsRun(Example(), And(Root0()), trace) && i < |trace|
    ensures trace[i].root == RootAfter(i) && trace[i].all == AllAfter(i)
  {
    hide Plain, Rw, Round, Root0, Root1, Root2, FoundAfter;
    if i > 0 {
      OnlyRun(trace, i - 1);
      RoundOfExample(i - 1);
      assert StepAt(Example(), trace, i);
      var closed :| Round(Example(), trace[i - 1].root, closed) && trace[i] == After(Example(), trace[i - 1], closed);
      PlainRound(Example(), trace[i - 1].root, FoundAfter(i - 1), closed);
    }
  }

  /** It stops after the third round. */
  lemma OnlyEnd(trace: seq<PassState>, end: PassState)
    requires IsRun(Example(), And(Root0()), trace) && Stops(Example(), Last(trace), end)
    ensures end.root == True() && end.all == Recorded()
  {
    hide Plain, Rw, Round, Root0, Root1, Root2, FoundAfter, TornRoot, StepAt;
    var i := |trace| - 1;
    OnlyRun(trace, i);
    RoundOfExample(i);
    PlainGoesOn(Example(), trace[i].root, FoundAfter(i));
    var closed :| Round(Example(), trace[i].root, closed) && end == After(Example(), trace[i], closed) && end.root == trace[i].root;
    PlainRound(Example(), trace[i].root, FoundAfter(i), closed);
  }

  lemma NothingToClose(l: Logic, all: map<Term, Term>, used: map<Term, Term>)
    requires ClosedFrom(l, all, used) && IsClosed(all)
    ensures used == all
  {
    hide Good, SameModels, LeavesWithin;
    var rank, names :| Closing(l, all, used, rank, names);
    forall k | k in all ensures used[k] == all[k] {
    }
  }

  /** What the pass returns for the example. */
  lemma ExampleOutcome(result: Term, used: map<Term, Term>, dropped: Dropped)
    requires Outcome(Example(), And(Root0()), result, used, dropped)
    ensures result == True() && used == Recorded()
  {
    hide Plain, Round, Root0, Root1, Root2, FoundAfter, Recorded, TornRoot, Stops, ClosedFrom, StepAt, Clash;
    var trace: seq<PassState> :| IsRun(Example(), And(Root0()), trace) && Returns(Example(), Last(trace), result, used, dropped);
    var i := |trace| - 1;
    OnlyRun(trace, i);
    RoundOfExample(i);
    PlainGoesOn(Example(), trace[i].root, FoundAfter(i));
    var end :| Stops(Example(), Last(trace), end) && result == end.root && dropped == end.dropped && ClosedFrom(Example(), end.all, used);
    OnlyEnd(trace, end);
    RecordedClosed();
    NothingToClose(Example(), end.all, used);
  }

  lemma RecordedClosed()
    ensures IsClosed(Recorded())
  {
    LeavesClosed(Recorded());
  }

  // ---------------------------------------------------------------------------
  // The models

  /** The conjuncts make two different elements equal. */
  lemma InputHasNoModel(v: Model)
    requires Fair(Example(), v)
    ensures !Holds(v, And(Root0()))
  {
    hide Fair;
    var ts := Root0();
    AndHolds(v, ts);
    assert ts[0] in ts && ts[1] in ts && ts[2] in ts && ts[3] in ts && ts[4] in ts && ts[5] in ts;
    OpsHold(v, Ap(3, B), C1);
    OpsHold(v, Ap(3, A), K);
    OpsHold(v, K, L);
    OpsHold(v, L, C2);
    GuardHolds(v);
    ApValue(v, 3, A, B);
    ElementsDiffer(Example(), v, C1, C2);
  }

  lemma GuardHolds(v: Model)
    ensures Holds(v, Guarded()) && Holds(v, P) ==> Eval(v, A) == Eval(v, B)
  {
    OrHolds(v, [Not(P), Eq(A, B)]);
    OpsHold(v, P, P);
    OpsHold(v, A, B);
  }

  lemma ApValue(v: Model, f: nat, x: Term, y: Term)
    ensures Eval(v, x) == Eval(v, y) ==> Eval(v, Ap(f, x)) == Eval(v, Ap(f, y))
  {
    EvalApp(v, Uf(f), [x]);
    EvalApp(v, Uf(f), [y]);
    assert Values(v, [x]) == [Eval(v, x)] && Values(v, [y]) == [Eval(v, y)];
  }

  function Witness(): Model {
    Model(x => if x == "p" then Bool(true) else Elem(0), (f: nat, vs: seq<Value>) => Elem(if vs == [] then f else if f == 3 then 1 else 2), Defined)
  }

  lemma OutputHasModel()
    ensures Fair(Example(), Witness()) && Holds(Witness(), True()) && Sat(Witness(), Recorded())
  {
    var v, m := Witness(), Recorded();
    OpsHold(v, C1, C1);
    forall k {:trigger m[k]} | k in m ensures Eval(v, k) == Eval(v, m[k]) {
      if k.App? { EvalApp(v, k.op, k.args); }
      if m[k].App? { EvalApp(v, m[k].op, []); }
    }
  }

  // ---------------------------------------------------------------------------
  // The example is an input of the pass

  lemma BuiltLeaf(t: Term)
    requires Children(t) == [] && BuiltAt(Example(), t)
    ensures Built(Example(), t)
  {
    ConstantAlone(t);
  }

  lemma BuiltOver(t: Term)
    requires BuiltAt(Example(), t) && forall i {:trigger Children(t)[i]} :: 0 <= i < |Children(t)| ==> Built(Example(), Children(t)[i])
    ensures Built(Example(), t)
  {
    hide Built, BuiltAt;
    BuiltAtParts(t);
    BuiltUp(Example(), t);
  }

  lemma BuiltAtParts(t: Term)
    requires BuiltAt(Example(), t)
    ensures Formed(Example(), t) && EqualityBuilt(t)
  {
  }

  /** Built, without if-then-elses, and without elements but the two. */
  ghost predicate Fits(t: Term) {
    && Built(Example(), t) && NoIte(t)
    && forall x {:trigger x in Leaves(t)} :: x in Leaves(t) && IsElement(x) ==> x in {C1, C2}
  }

  ghost predicate NoIte(t: Term) {
    forall s {:trigger s in Subterms(t)} :: s in Subterms(t) ==> !s.Ite?
  }

  lemma FitsLeaf(t: Term)
    requires Children(t) == [] && BuiltAt(Example(), t) && (IsElement(t) ==> t in {C1, C2})
    ensures Fits(t)
  {
    BuiltLeaf(t);
    ConstantAlone(t);
  }

  lemma FitsOver(t: Term)
    requires BuiltAt(Example(), t) && t.App? && t.args != [] && forall i {:trigger Children(t)[i]} :: 0 <= i < |Children(t)| ==> Fits(Children(t)[i])
    ensures Fits(t)
  {
    hide Built, BuiltAt, Leaves, Subterms;
    BuiltOver(t);
    forall s | s in Subterms(t) ensures !s.Ite? { SubtermsOfChildren(t, s); }
    forall x | x in Leaves(t) && IsElement(x) ensures x in {C1, C2} {
      LeavesOfChildren(t, x);
    }
  }

  lemma FitsAp(f: nat, x: string)
    ensures Fits(Ap(f, Var(x)))
  {
    hide Fits;
    FitsLeaf(Var(x));
    FitsOver(Ap(f, Var(x)));
  }

  lemma FitsEq(a: Term, b: Term)
    requires Fits(a) && Fits(b) && BuiltAt(Example(), Eq(a, b))
    ensures Fits(Eq(a, b))
  {
    hide Fits, BuiltAt;
    assert Children(Eq(a, b)) == [a, b];
    FitsOver(Eq(a, b));
  }

  lemma FitsGuarded()
    ensures Fits(Guarded())
  {
    hide Fits;
    FitsLeaf(P);
    FitsLeaf(A);
    FitsLeaf(B);
    FitsEq(A, B);
    FitsOver(Not(P));
    assert Children(Guarded()) == [Not(P), Eq(A, B)];
    FitsOver(Guarded());
  }

  /** The example has no element but two. */
  lemma ExampleFits()
    ensures Fits(And(Root0())) && IsBool(Example(), And(Root0()))
  {
    hide Fits;
    FitsLeaf(P);
    FitsLeaf(C1);
    FitsLeaf(C2);
    FitsAp(3, "a");
    FitsAp(3, "b");
    FitsAp(6, "y");
    FitsAp(7, "y");
    FitsGuarded();
    FitsEq(Ap(3, B), C1);
    FitsEq(Ap(3, A), K);
    FitsEq(K, L);
    FitsEq(L, C2);
    RootFits();
  }

  lemma RootFits()
    requires forall i {:trigger Root0()[i]} :: 0 <= i < |Root0()| ==> Fits(Root0()[i])
    ensures Fits(And(Root0())) && IsBool(Example(), And(Root0()))
  {
    hide Fits;
    var ts := Root0();
    assert Children(And(ts)) == ts;
    FitsOver(And(ts));
  }

  /** The pass accepts the example, which has no if-then-elses, no model and two elements only. It returns true
      and substitutions that have a model. */
  lemma FactIsLost(result: Term, used: map<Term, Term>, dropped: Dropped)
    requires Outcome(Example(), And(Root0()), result, used, dropped)
    ensures Simplifies(Example()) && Built(Example(), And(Root0())) && IsBool(Example(), And(Root0()))
    ensures forall x {:trigger x in Leaves(And(Root0()))} :: x in Leaves(And(Root0())) && IsElement(x) ==> x in {C1, C2}
    ensures NoIte(And(Root0()))
    ensures result == True() && used == Recorded()
    ensures !NoModel(Example(), result, used) && !SameAs(Example(), And(Root0()), result, used, {})
  {
    hide Outcome, Built, Simplifies, Fair, Holds, Sat, Root0, Recorded, Leaves;
    BuildSimplifies(x => x == "p", f => false);
    ExampleFits();
    ExampleOutcome(result, used, dropped);
    OutputHasModel();
    InputHasNoModel(Witness());
    NothingToSatisfy();
  }

  lemma NothingToSatisfy()
    ensures SatAll(Witness(), {})
  {
  }
}
