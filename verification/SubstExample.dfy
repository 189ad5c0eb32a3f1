/** Simplifying constructors that meet their contract, and rounds of the substitution pass in which no two
    suggestions compete. Elements stand for constants of an uninterpreted sort. Logic::mkConst makes a constant of
    such a sort for its default value, for the values of a model, and for whoever calls it through the library;
    a parsed formula can only name what exists. Equalities between numbers never get here, since
    ArithLogic::isUFEquality leaves them out. */
module SubstExamples {
  import opened Terms
  import opened Digraphs
  import opened TarjanRuns
  import opened LoopBreakers
  import opened Rewriters
  import opened SubstClosures
  import opened SubstFacts
  import opened SubstRetrieval
  import opened SubstPasses
  import opened SubstRuns

  /** The logic's constructors: if-then-elses on a truth value or between equal terms, negations, conjunctions,
      disjunctions and equalities. Other terms stay. */
  function Build(t: Term): Term {
    match t
    case Var(_) => t
    case Ite(c, a, b) => if c == True() || a == b then a else if c == False() then b else t
    case App(op, args) =>
      if IsNot(t) then BuildNot(args[0])
      else if op in {AndOp, OrOp} then Junction(op, args)
      else if IsEquality(t) then BuildEq(args[0], args[1])
      else t
  }

  function BuildNot(t: Term): Term {
    if IsNot(t) then t.args[0] else if t == True() then False() else if t == False() then True() else Not(t)
  }

  /** The argument that changes nothing, and the one that decides. */
  function Unit(op: Op): Term { if op == AndOp then True() else False() }
  function Zero(op: Op): Term { if op == AndOp then False() else True() }

  /** The arguments, each once, without units. */
  function Kept(unit: Term, ts: seq<Term>): seq<Term> {
    if ts == [] then []
    else
      var rest := Kept(unit, ts[1..]);
      if ts[0] == unit || ts[0] in rest then rest else [ts[0]] + rest
  }

  predicate Decided(op: Op, ts: seq<Term>) {
    Zero(op) in ts || exists t :: t in ts && Not(t) in ts
  }

  /** A conjunction or disjunction. */
  function Junction(op: Op, ts: seq<Term>): Term {
    var ks := Kept(Unit(op), ts);
    if Decided(op, ks) then Zero(op) else if ks == [] then Unit(op) else if |ks| == 1 then ks[0] else App(op, ks)
  }

  function BuildEq(a: Term, b: Term): Term {
    if a == b then True()
    else if IsElement(a) && IsElement(b) then False()
    else if a == Not(b) || b == Not(a) then False()
    else if a == True() then b
    else if b == True() then a
    else if a == False() then BuildNot(b)
    else if b == False() then BuildNot(a)
    else Eq(a, b)
  }

  lemma BuiltUp(l: Logic, t: Term)
    requires Raw(l, t) && EqualityBuilt(t)
    ensures Built(l, t)
  {
    hide Formed, EqualityBuilt;
    forall s | s in Subterms(t) ensures BuiltAt(l, s) {
      SubtermsOfChildren(t, s);
      if s != t {
        var i :| 0 <= i < |Children(t)| && s in Subterms(Children(t)[i]);
        assert Children(t)[i] in Children(t);
      }
    }
  }

  lemma ConstantsAre(l: Logic, t: Term)
    requires Built(l, t) && IsConstant(t)
    ensures t == True() || t == False() || IsElement(t)
  {
    SubtermsOfChildren(t, t);
    assert BuiltAt(l, t);
  }

  /** What a constructor keeps, apart from the value. */
  ghost predicate Made(l: Logic, s: Term, t: Term) {
    Built(l, s) && IsBool(l, s) == IsBool(l, t) && Leaves(s) <= Leaves(t) && Size(s) <= Size(t)
  }

  lemma TruthMade(l: Logic, t: Term, b: bool)
    requires IsBool(l, t)
    ensures Made(l, if b then True() else False(), t)
  {
    var any := Model(x => Bool(true), (f, vs) => Bool(true), Defined);
    TruthValues(l, any, b);
    SizeOfChildren(t);
    SizeOfChildren(if b then True() else False());
  }

  lemma ChildMade(l: Logic, t: Term, c: Term)
    requires Raw(l, t) && c in Children(t) && IsBool(l, c) == IsBool(l, t)
    ensures Made(l, c, t)
  {
    LeavesDown(t, c, Leaves(t));
    ChildIsSmaller(t, c);
  }

  lemma SelfMade(l: Logic, t: Term)
    requires Raw(l, t) && EqualityBuilt(t)
    ensures Made(l, t, t)
  {
    BuiltUp(l, t);
  }

  lemma GrandchildMade(l: Logic, t: Term, c: Term, d: Term)
    requires Raw(l, t) && c in Children(t) && d in Children(c) && IsBool(l, d) == IsBool(l, t)
    ensures Made(l, d, t)
  {
    Rewriters.BuiltChildren(l, c);
    LeavesDown(t, c, Leaves(t));
    LeavesDown(c, d, Leaves(c));
    ChildIsSmaller(t, c);
    ChildIsSmaller(c, d);
  }

  // Negations

  lemma NotMade(l: Logic, t: Term)
    requires Raw(l, Not(t))
    ensures Made(l, BuildNot(t), Not(t))
  {
    hide Made, Built;
    assert t in Children(Not(t));
    Rewriters.BuiltChildren(l, t);
    TruthMade(l, Not(t), true);
    TruthMade(l, Not(t), false);
    SelfMade(l, Not(t));
    if IsNot(t) { GrandchildMade(l, Not(t), t, t.args[0]); }
  }

  lemma NotValue(l: Logic, v: Model, t: Term)
    requires Fair(l, v) && Raw(l, Not(t))
    ensures Eval(v, BuildNot(t)) == Eval(v, Not(t))
  {
    hide Fair, Built, Subterms;
    assert t in Children(Not(t));
    EvalApp(v, NotOp, [t]);
    TruthValues(l, v, true);
    TruthValues(l, v, false);
    if IsNot(t) {
      var u := t.args[0];
      Rewriters.BuiltChildren(l, t);
      assert u in Children(t) && t == Not(u);
      EvalApp(v, NotOp, [u]);
      IsTruth(l, v, u);
    }
  }

  lemma IsTruth(l: Logic, v: Model, t: Term)
    requires Fair(l, v) && Built(l, t) && IsBool(l, t)
    ensures Eval(v, t) == Bool(Holds(v, t))
  {
    Rewriters.BuiltChildren(l, t);
    BoolValue(l, v, t);
  }

  // Conjunctions and disjunctions

  lemma {:induction false} KeptAre(unit: Term, ts: seq<Term>)
    ensures forall t {:trigger t in Kept(unit, ts)} {:trigger t in ts} :: t in Kept(unit, ts) <==> t in ts && t != unit
    ensures SizeAll(Kept(unit, ts)) <= SizeAll(ts)
  {
    if ts != [] {
      KeptAre(unit, ts[1..]);
      var rest := Kept(unit, ts[1..]);
      assert ts == [ts[0]] + ts[1..] && ([ts[0]] + rest)[1..] == rest;
    }
  }

  lemma JunctionMade(l: Logic, op: Op, ts: seq<Term>)
    requires op in {AndOp, OrOp} && Raw(l, App(op, ts))
    ensures Made(l, Junction(op, ts), App(op, ts))
  {
    hide Made, Built, Subterms, Leaves;
    var t, ks := App(op, ts), Kept(Unit(op), ts);
    KeptAre(Unit(op), ts);
    TruthMade(l, t, true);
    TruthMade(l, t, false);
    if |ks| == 1 {
      assert ks[0] in ts;
      ChildMade(l, t, ks[0]);
    } else if ks != [] {
      FewerMade(l, op, ts, ks);
    }
  }

  lemma FewerMade(l: Logic, op: Op, ts: seq<Term>, ks: seq<Term>)
    requires op in {AndOp, OrOp} && Raw(l, App(op, ts)) && ks != [] && SizeAll(ks) <= SizeAll(ts)
    requires forall k {:trigger k in ks} :: k in ks ==> k in ts
    ensures Made(l, App(op, ks), App(op, ts))
  {
    hide Built, Leaves;
    var s, t := App(op, ks), App(op, ts);
    forall k {:trigger k in ks} | k in ks ensures Built(l, k) && IsBool(l, k) {
      assert k in Children(t);
      var i :| 0 <= i < |ts| && ts[i] == k;
    }
    FormedOver(l, op, ks);
    BuiltUp(l, s);
    forall x | x in Leaves(s) ensures x in Leaves(t) {
      LeavesOfChildren(s, x);
      var i :| 0 <= i < |ks| && x in Leaves(Children(s)[i]);
      assert ks[i] in ks && ks[i] in Children(t);
      LeavesDown(t, ks[i], Leaves(t));
    }
  }

  lemma FormedOver(l: Logic, op: Op, ks: seq<Term>)
    requires op in {AndOp, OrOp} && ks != [] && forall k {:trigger k in ks} :: k in ks ==> Built(l, k) && IsBool(l, k)
    ensures Raw(l, App(op, ks))
  {
    forall i | 0 <= i < |ks| ensures IsBool(l, ks[i]) { assert ks[i] in ks; }
  }

  /** Units and repetitions do not matter, and a zero or an opposite pair decides. */
  lemma JunctionHolds(v: Model, op: Op, ts: seq<Term>)
    requires op in {AndOp, OrOp}
    ensures Holds(v, Junction(op, ts)) <==> Holds(v, App(op, ts))
  {
    hide Kept;
    var ks := Kept(Unit(op), ts);
    KeptAre(Unit(op), ts);
    OpsHold(v, True(), True());
    EvalApp(v, FalseOp, []);
    ListHolds(v, op, ts);
    ListHolds(v, op, ks);
    if t :| t in ks && Not(t) in ks { OpsHold(v, t, t); }
    if |ks| == 1 { assert ks[0] in ks && forall k :: k in ks ==> k == ks[0]; }
  }

  lemma ListHolds(v: Model, op: Op, ts: seq<Term>)
    requires op in {AndOp, OrOp}
    ensures op == AndOp ==> (Holds(v, App(op, ts)) <==> forall t {:trigger t in ts} :: t in ts ==> Holds(v, t))
    ensures op == OrOp ==> (Holds(v, App(op, ts)) <==> exists t {:trigger t in ts} :: t in ts && Holds(v, t))
  {
    if op == AndOp { AndHolds(v, ts); } else { OrHolds(v, ts); }
  }

  lemma JunctionValue(l: Logic, v: Model, op: Op, ts: seq<Term>)
    requires Fair(l, v) && op in {AndOp, OrOp} && Raw(l, App(op, ts))
    ensures Eval(v, Junction(op, ts)) == Eval(v, App(op, ts))
  {
    hide Fair, Built, Junction, Holds;
    JunctionMade(l, op, ts);
    IsTruth(l, v, Junction(op, ts));
    EvalApp(v, op, ts);
    JunctionHolds(v, op, ts);
    HoldsTruth(v, App(op, ts));
  }

  lemma HoldsTruth(v: Model, t: Term)
    requires Eval(v, t).Bool?
    ensures Eval(v, t) == Bool(Holds(v, t))
  {
  }

  // Equalities

  lemma EqMade(l: Logic, a: Term, b: Term)
    requires Raw(l, Eq(a, b))
    ensures Made(l, BuildEq(a, b), Eq(a, b))
  {
    hide Made, Built, Subterms;
    var t := Eq(a, b);
    assert a in Children(t) && b in Children(t);
    TruthMade(l, t, true);
    TruthMade(l, t, false);
    if BuildEq(a, b) == t {
      if IsConstant(a) { ConstantsAre(l, a); }
      if IsConstant(b) { ConstantsAre(l, b); }
      Rewriters.BuiltChildren(l, a);
      Rewriters.BuiltChildren(l, b);
      SelfMade(l, t);
    } else if IsBool(l, a) {
      ChildMade(l, t, a);
      ChildMade(l, t, b);
      DeniedMade(l, t, a);
      DeniedMade(l, t, b);
    }
  }

  lemma DeniedMade(l: Logic, t: Term, c: Term)
    requires Raw(l, t) && c in Children(t) && IsBool(l, c) && IsBool(l, t)
    ensures Made(l, BuildNot(c), t)
  {
    hide Built;
    NotMade(l, c);
    forall x | x in Leaves(Not(c)) ensures x in Leaves(t) {
      LeavesOfChildren(Not(c), x);
      LeavesDown(t, c, Leaves(t));
    }
    SizeOfChildren(Not(c));
    assert Children(Not(c))[1..] == [];
    ChildIsSmaller(t, c);
  }

  lemma EqValue(l: Logic, v: Model, a: Term, b: Term)
    requires Fair(l, v) && Raw(l, Eq(a, b))
    ensures Eval(v, BuildEq(a, b)) == Eval(v, Eq(a, b))
  {
    hide Fair, Built, Subterms, BuildNot;
    assert a in Children(Eq(a, b)) && b in Children(Eq(a, b));
    EvalApp(v, EqOp, [a, b]);
    TruthValues(l, v, true);
    TruthValues(l, v, false);
    OpsHold(v, a, b);
    Rewriters.BuiltChildren(l, a);
    Rewriters.BuiltChildren(l, b);
    EvalApp(v, NotOp, [a]);
    EvalApp(v, NotOp, [b]);
    if a != b && IsElement(a) && IsElement(b) {
      ElementsDiffer(l, v, a, b);
    } else if IsBool(l, a) && IsBool(l, b) {
      IsTruth(l, v, a);
      IsTruth(l, v, b);
      NotValue(l, v, a);
      NotValue(l, v, b);
    }
  }

  // If-then-elses

  lemma IteMade(l: Logic, t: Term)
    requires Raw(l, t) && t.Ite?
    ensures Made(l, t, t) && Made(l, t.tt, t) && Made(l, t.ff, t)
  {
    SelfMade(l, t);
    ChildMade(l, t, t.tt);
    ChildMade(l, t, t.ff);
  }

  lemma IteValue(l: Logic, v: Model, t: Term)
    requires Fair(l, v) && t.Ite?
    ensures Eval(v, Build(t)) == Eval(v, t)
  {
    TruthValues(l, v, true);
    TruthValues(l, v, false);
  }

  lemma BuildMade(l: Logic, t: Term)
    requires Raw(l, t)
    ensures Made(l, Build(t), t)
  {
    hide Made, Built, Junction, BuildNot, BuildEq;
    if t.Ite? {
      IteMade(l, t);
    } else if t.Var? {
      SelfMade(l, t);
    } else if IsNot(t) {
      assert t == Not(t.args[0]);
      NotMade(l, t.args[0]);
    } else if t.op in {AndOp, OrOp} {
      JunctionMade(l, t.op, t.args);
    } else if IsEquality(t) {
      assert t == Eq(t.args[0], t.args[1]);
      EqMade(l, t.args[0], t.args[1]);
    } else {
      SelfMade(l, t);
    }
  }

  lemma BuildValue(l: Logic, v: Model, t: Term)
    requires Fair(l, v) && Raw(l, t)
    ensures Eval(v, Build(t)) == Eval(v, t)
  {
    hide Built, Fair, Junction, BuildNot, BuildEq, Eval;
    if t.Ite? {
      IteValue(l, v, t);
    } else if t.App? {
      if IsNot(t) {
        assert t == Not(t.args[0]);
        NotValue(l, v, t.args[0]);
      } else if t.op in {AndOp, OrOp} {
        JunctionValue(l, v, t.op, t.args);
      } else if IsEquality(t) {
        assert t == Eq(t.args[0], t.args[1]);
        EqValue(l, v, t.args[0], t.args[1]);
      }
    }
  }

  /** The constructors' contract can be met. */
  lemma BuildSimplifies(boolVar: string -> bool, boolFun: nat -> bool)
    ensures Simplifies(Logic(boolVar, boolFun, Build))
  {
    hide Built, Leaves, Fair, Raw;
    var l := Logic(boolVar, boolFun, Build);
    forall t | Raw(l, t) ensures SimplifiedAt(l, t) {
      BuildMade(l, t);
      forall v | Fair(l, v) ensures Eval(v, l.simp(t)) == Eval(v, t) { BuildValue(l, v, t); }
    }
  }

  // ---------------------------------------------------------------------------
  // Rounds without competing suggestions

  /** A top literal's fact suggests this substitution. */
  ghost predicate Suggested(l: Logic, root: Term, key: Term, target: Term) {
    exists p {:trigger IsTop(root, true, p)} :: IsTop(root, true, p) && FactOf(l, p) != [] && CandidateOf(l, FactOf(l, p)[0]) == Candidate(key, target)
  }

  /** The top literals are asserted, those that give a fact are their own facts, and what they suggest is
      `found`: one target for each key, without any key in it. */
  ghost predicate Plain(l: Logic, root: Term, found: map<Term, Term>) {
    && (forall p {:trigger IsTop(root, true, p)} :: IsTop(root, true, p) ==> p.sign && (FactOf(l, p) == [] || FactOf(l, p) == [p]))
    && (forall k, t {:trigger Suggested(l, root, k, t)} :: Suggested(l, root, k, t) <==> k in found && found[k] == t)
    && IsClosed(found)
  }

  lemma PlainFacts(l: Logic, root: Term, found: map<Term, Term>, keys: seq<Term>, facts: map<Term, bool>)
    requires Plain(l, root, found) && FactsFound(l, root, keys, facts)
    ensures forall t {:trigger t in keys} {:trigger t in facts} :: t in keys <==> t in facts
    ensures forall t {:trigger facts[t]} :: t in facts ==> facts[t] && IsTop(root, true, Signed(t, true)) && FactOf(l, Signed(t, true)) == [Signed(t, true)]
    ensures forall p {:trigger IsTop(root, true, p)} :: IsTop(root, true, p) && FactOf(l, p) != [] ==> p.term in facts
  {
    hide IsTop, Suggested, IsClosed;
    var isdup :| FactsOf(l, isdup, keys, facts) && AllTops(root, isdup);
    forall t {:trigger facts[t]} | t in facts ensures facts[t] && IsTop(root, true, Signed(t, true)) && FactOf(l, Signed(t, true)) == [Signed(t, true)] {
      var sign := facts[t];
      var p :| p in isdup && FactOf(l, p) == [Signed(t, sign)];
      assert IsTop(root, true, p);
    }
    forall p | IsTop(root, true, p) && FactOf(l, p) != [] ensures p.term in facts {
      assert p in isdup;
    }
  }

  lemma PlainSuggestion(l: Logic, root: Term, found: map<Term, Term>, keys: seq<Term>, facts: map<Term, bool>, t: Term)
    requires Plain(l, root, found) && FactsFound(l, root, keys, facts) && t in facts && CandidateOf(l, Signed(t, facts[t])) != Nothing
    ensures var c := CandidateOf(l, Signed(t, facts[t])); c.key in found && found[c.key] == c.target
  {
    hide IsTop, IsClosed, CandidateOf, FactsFound;
    PlainFacts(l, root, found, keys, facts);
    var c := CandidateOf(l, Signed(t, facts[t]));
    assert IsTop(root, true, Signed(t, true)) && facts[t];
    assert Suggested(l, root, c.key, c.target);
  }

  /** Neither a clash of facts nor two targets for one key can end the pass here. */
  lemma PlainGoesOn(l: Logic, root: Term, found: map<Term, Term>)
    requires Plain(l, root, found)
    ensures !Clash(l, root) && !TornRoot(l, root)
  {
    hide Torn, FactsFound;
    PlainNoClash(l, root, found);
    forall keys, facts | FactsFound(l, root, keys, facts) ensures !Torn(l, keys, facts) {
      PlainNotTorn(l, root, found, keys, facts);
    }
  }

  lemma PlainNoClash(l: Logic, root: Term, found: map<Term, Term>)
    requires Plain(l, root, found)
    ensures !Clash(l, root)
  {
    hide IsTop, Suggested, IsClosed;
  }

  lemma PlainNotTorn(l: Logic, root: Term, found: map<Term, Term>, keys: seq<Term>, facts: map<Term, bool>)
    requires Plain(l, root, found) && FactsFound(l, root, keys, facts)
    ensures !Torn(l, keys, facts)
  {
    hide Plain, FactsFound, CandidateOf;
    forall t | t in facts && CandidateOf(l, Signed(t, facts[t])) != Nothing
      ensures var c := CandidateOf(l, Signed(t, facts[t])); c.key in found && found[c.key] == c.target
    {
      PlainSuggestion(l, root, found, keys, facts, t);
    }
  }

  /** No node of the substitution graph that stands for a key has an edge to it. */
  lemma NoEdgeToKey(found: map<Term, Term>, substs: seq<Subst>, nodes: seq<Term>, g: Digraph, i: Node)
    requires GraphOf(substs, nodes, g) && i < |substs| && IsClosed(found)
    requires forall j {:trigger substs[j]} :: 0 <= j < |substs| ==> substs[j].key in found && found[substs[j].key] == substs[j].target
    ensures !OnCycle(g, i)
  {
    hide IsClosed;
    if OnCycle(g, i) {
      var y: Node :| y != i && Mutual(g, i, y);
      var p :| IsPath(g, p, y, i);
      var z := p[|p| - 2];
      assert Edge(g, p[|p| - 2], p[|p| - 1]);
      assert z < |substs| && HasVarChild(nodes, g, z, nodes[i]);
      KeyNotInValue(found, substs[z].key, substs[i].key);
    }
  }

  lemma KeyNotInValue(found: map<Term, Term>, k: Term, x: Term)
    requires IsClosed(found) && k in found && x in found
    ensures x !in Subterms(found[k])
  {
    assert !HasKey(found, found[k]);
  }

  /** So the round takes all suggestions as they are. */
  lemma PlainRound(l: Logic, root: Term, found: map<Term, Term>, closed: map<Term, Term>)
    requires Plain(l, root, found) && Round(l, root, closed)
    ensures closed == found
  {
    hide IsClosed, FactsFound, Retrieved, Complete, Closing, Plain;
    var keys, facts, m, rank :| FactsFound(l, root, keys, facts) && Retrieved(l, keys, facts, m, rank, Leaves(root)) && Complete(l, keys, facts, m)
      && Closing(l, m, closed, rank, Leaves(root)) && IsClosed(closed);
    PlainRetrieved(l, root, found, keys, facts, m, rank);
    PlainUnchanged(l, root, found, closed, rank, Leaves(root));
  }

  lemma PlainUnchanged(l: Logic, root: Term, found: map<Term, Term>, closed: map<Term, Term>, rank: map<Term, nat>, names: set<Term>)
    requires Plain(l, root, found) && Closing(l, found, closed, rank, names)
    ensures closed == found
  {
    hide Plain, Good, SameModels, LeavesWithin;
    forall k | k in found ensures closed[k] == found[k] {
      PlainClosed(l, root, found, k);
    }
  }

  lemma PlainRetrieved(l: Logic, root: Term, found: map<Term, Term>, keys: seq<Term>, facts: map<Term, bool>, m: map<Term, Term>, rank: map<Term, nat>)
    requires Plain(l, root, found) && FactsFound(l, root, keys, facts) && Retrieved(l, keys, facts, m, rank, Leaves(root)) && Complete(l, keys, facts, m)
    ensures m == found
  {
    hide Plain, FactsFound, CandidateOf, Complete, Good, LeavesWithin, Fair;
    forall k | k in m ensures k in found && found[k] == m[k] {
      var t :| t in keys && t in facts && CandidateOf(l, Signed(t, facts[t])) == Candidate(k, m[k]);
      PlainSuggestion(l, root, found, keys, facts, t);
    }
    forall k | k in found ensures k in m {
      PlainTaken(l, root, found, keys, facts, m, k);
    }
  }

  lemma PlainClosed(l: Logic, root: Term, found: map<Term, Term>, k: Term)
    requires Plain(l, root, found) && k in found
    ensures !HasKey(found, found[k])
  {
  }

  lemma PlainTaken(l: Logic, root: Term, found: map<Term, Term>, keys: seq<Term>, facts: map<Term, bool>, m: map<Term, Term>, k: Term)
    requires Plain(l, root, found) && FactsFound(l, root, keys, facts) && Complete(l, keys, facts, m) && k in found
    ensures k in m
  {
    hide IsTop, IsClosed, CandidateOf, FactsFound, GraphOf, OnCycle;
    var substs: seq<Subst>, nodes, g :| GraphOf(substs, nodes, g) && AllCandidates(l, keys, facts, substs) && forall i {:trigger substs[i]} :: 0 <= i < |substs| && substs[i].key !in m ==> OnCycle(g, i);
    PlainFacts(l, root, found, keys, facts);
    assert Suggested(l, root, k, found[k]);
    var p :| IsTop(root, true, p) && FactOf(l, p) != [] && CandidateOf(l, FactOf(l, p)[0]) == Candidate(k, found[k]);
    assert p.term in keys && facts[p.term] && p == Signed(p.term, true);
    var j :| 0 <= j < |keys| && keys[j] == p.term;
    assert CandidateOf(l, Signed(keys[j], facts[keys[j]])) == Candidate(k, found[k]);
    var i :| 0 <= i < |substs| && substs[i].key == k;
    forall j {:trigger substs[j]} | 0 <= j < |substs| ensures substs[j].key in found && found[substs[j].key] == substs[j].target {
      assert Suggests(l, keys, facts, substs[j].key, substs[j].target);
      var t :| t in keys && t in facts && CandidateOf(l, Signed(t, facts[t])) == Candidate(substs[j].key, substs[j].target);
      PlainSuggestion(l, root, found, keys, facts, t);
    }
    NoEdgeToKey(found, substs, nodes, g, i);
  }
}
