/** Facts that hold at the top of a formula, and the substitutions they give. */
module SubstFacts {
  import opened Terms
  import opened Rewriters
  import opened SubstClosures

  /** A term asserted, or denied. */
  datatype Signed = Signed(term: Term, sign: bool)

  ghost predicate Says(v: Model, p: Signed) {
    Holds(v, p.term) == p.sign
  }

  predicate IsNot(t: Term) {
    t.App? && t.op.NotOp? && |t.args| == 1
  }

  /** Negations are stripped into the sign. */
  ghost function Pure(t: Term, sign: bool): Signed {
    if IsNot(t) then Pure(t.args[0], !sign) else Signed(t, sign)
  }

  method Purify(t: Term, sign: bool) returns (p: Signed)
    ensures p == Pure(t, sign)
  {
    p := Signed(t, sign);
    while IsNot(p.term)
      invariant Pure(p.term, p.sign) == Pure(t, sign)
      decreases p.term
    {
      p := Signed(p.term.args[0], !p.sign);
    }
  }

  lemma {:induction false} PureMeans(l: Logic, v: Model, t: Term, sign: bool)
    ensures Pure(t, sign).term in Subterms(t)
    ensures Says(v, Pure(t, sign)) <==> Holds(v, t) == sign
    decreases t
  {
    SubtermsOfChildren(t, t);
    if IsNot(t) {
      PureMeans(l, v, t.args[0], !sign);
      assert t == Not(t.args[0]);
      OpsHold(v, t.args[0], t.args[0]);
      assert Children(t)[0] == t.args[0];
      SubtermsOfChildren(t, Pure(t, sign).term);
    }
  }

  /** An asserted conjunction, and a denied disjunction, is split. */
  function Parts(p: Signed): seq<Term> {
    if p.term.App? && (if p.sign then p.term.op.AndOp? else p.term.op.OrOp?) then p.term.args else []
  }

  /** The literals at the top of a formula. */
  ghost predicate IsTop(t: Term, sign: bool, p: Signed)
    decreases Size(t)
  {
    var top := Pure(t, sign);
    p == top || exists i :: 0 <= i < |Parts(top)| && (PartIsSmaller(t, sign, i); IsTop(Parts(top)[i], top.sign, p))
  }

  lemma {:induction false} PureIsSmaller(t: Term, sign: bool)
    ensures Size(Pure(t, sign).term) <= Size(t)
    decreases t
  {
    if IsNot(t) {
      PureIsSmaller(t.args[0], !sign);
      ChildIsSmaller(t, Children(t)[0]);
    }
  }

  lemma PartIsSmaller(t: Term, sign: bool, i: nat)
    requires i < |Parts(Pure(t, sign))|
    ensures Size(Parts(Pure(t, sign))[i]) < Size(t)
  {
    var top := Pure(t, sign).term;
    PureIsSmaller(t, sign);
    ChildIsSmaller(top, Children(top)[i]);
  }

  /** The parts of a top literal are top literals. */
  lemma {:induction false} TopsClosed(t: Term, sign: bool, p: Signed, c: Term)
    requires IsTop(t, sign, p) && c in Parts(p)
    ensures IsTop(t, sign, Pure(c, p.sign))
    decreases Size(t)
  {
    var top := Pure(t, sign);
    if p == top {
      var i :| 0 <= i < |Parts(top)| && Parts(top)[i] == c;
      PartIsSmaller(t, sign, i);
      assert IsTop(Parts(top)[i], top.sign, Pure(c, p.sign));
    } else {
      var i :| 0 <= i < |Parts(top)| && (PartIsSmaller(t, sign, i); IsTop(Parts(top)[i], top.sign, p));
      PartIsSmaller(t, sign, i);
      TopsClosed(Parts(top)[i], top.sign, p, c);
    }
  }

  /** A set that has the formula's literal and the parts of its members has all top literals. */
  lemma {:induction false} TopsLeast(t: Term, sign: bool, s: set<Signed>, p: Signed)
    requires Pure(t, sign) in s && IsTop(t, sign, p)
    requires forall q, c {:trigger Pure(c, q.sign)} :: q in s && c in Parts(q) ==> Pure(c, q.sign) in s
    ensures p in s
    decreases Size(t)
  {
    var top := Pure(t, sign);
    if p != top {
      var i :| 0 <= i < |Parts(top)| && (PartIsSmaller(t, sign, i); IsTop(Parts(top)[i], top.sign, p));
      assert Parts(top)[i] in Parts(top);
      PartIsSmaller(t, sign, i);
      TopsLeast(Parts(top)[i], top.sign, s, p);
    }
  }

  lemma PartsHold(v: Model, p: Signed, i: nat)
    requires Says(v, p) && i < |Parts(p)|
    ensures Holds(v, Parts(p)[i]) == p.sign
  {
    var ts := p.term.args;
    assert ts[i] in ts;
    if p.sign {
      assert p.term == And(ts);
      AndHolds(v, ts);
    } else {
      assert p.term == Or(ts);
      OrHolds(v, ts);
    }
  }

  /** Top literals are subterms, and hold where the formula does. */
  lemma {:induction false} TopsHold(l: Logic, v: Model, t: Term, sign: bool, p: Signed)
    requires IsTop(t, sign, p)
    ensures p.term in Subterms(t)
    ensures Holds(v, t) == sign ==> Says(v, p)
    decreases Size(t)
  {
    PureMeans(l, v, t, sign);
    var top := Pure(t, sign);
    if p != top {
      var i :| 0 <= i < |Parts(top)| && (PartIsSmaller(t, sign, i); IsTop(Parts(top)[i], top.sign, p));
      PartIsSmaller(t, sign, i);
      TopsHold(l, v, Parts(top)[i], top.sign, p);
      assert Parts(top)[i] == Children(top.term)[i];
      SubtermsOfChildren(top.term, p.term);
      SubtermsTransitive(t, top.term, p.term);
      if Holds(v, t) == sign { PartsHold(v, top, i); }
    }
  }

  // ---------------------------------------------------------------------------
  // Facts

  predicate IsBoolAtom(l: Logic, t: Term) {
    t.Var? && IsBool(l, t)
  }

  predicate IsPredicate(l: Logic, t: Term) {
    t.App? && t.op.Uf? && t.args != [] && IsBool(l, t)
  }

  predicate IsXor(t: Term) {
    t.App? && t.op.XorOp? && |t.args| == 2
  }

  /** One side of an exclusive or equals the other's negation. */
  function XorEquation(l: Logic, t: Term): Term
    requires IsXor(t)
  {
    l.simp(Eq(t.args[0], l.simp(Not(t.args[1]))))
  }

  /** The fact a top literal gives, if any. */
  function FactOf(l: Logic, p: Signed): seq<Signed> {
    if p.term.App? && (if p.sign then p.term.op.AndOp? else p.term.op.OrOp?) then []
    else if IsEquality(p.term) && p.sign then [p]
    else if IsPredicate(l, p.term) && p.sign then [p]
    else if IsXor(p.term) && p.sign then [Signed(XorEquation(l, p.term), true)]
    else if IsBoolAtom(l, p.term) then [p]
    else []
  }

  /** Facts are built from the names of the formula, and hold where the literal does. */
  lemma FactHolds(l: Logic, v: Model, p: Signed, names: set<Term>)
    requires Simplifies(l) && Built(l, p.term) && Leaves(p.term) <= names && FactOf(l, p) != []
    ensures var f := FactOf(l, p)[0]; Built(l, f.term) && Leaves(f.term) <= names && (Fair(l, v) && Says(v, p) ==> Says(v, f))
  {
    hide Built, Leaves;
    if FactOf(l, p) != [p] {
      XorFact(l, v, p.term, names);
    }
  }

  lemma LeavesDown(t: Term, c: Term, names: set<Term>)
    requires c in Children(t) && Leaves(t) <= names
    ensures Leaves(c) <= names
  {
    var i :| 0 <= i < |Children(t)| && Children(t)[i] == c;
    forall x | x in Leaves(c) ensures x in names { LeavesOfChildren(t, x); }
  }

  lemma LeavesUp(t: Term, names: set<Term>)
    requires Children(t) != [] && forall c {:trigger c in Children(t)} :: c in Children(t) ==> Leaves(c) <= names
    ensures Leaves(t) <= names
  {
    forall x | x in Leaves(t) ensures x in names {
      LeavesOfChildren(t, x);
      var i :| 0 <= i < |Children(t)| && x in Leaves(Children(t)[i]);
      assert Children(t)[i] in Children(t);
    }
  }

  /** An exclusive or equates one side with the other's negation. */
  lemma XorFact(l: Logic, v: Model, t: Term, names: set<Term>)
    requires Simplifies(l) && Built(l, t) && Leaves(t) <= names && IsXor(t)
    ensures var f := XorEquation(l, t);
            Built(l, f) && Leaves(f) <= names && (Fair(l, v) && Holds(v, t) ==> Holds(v, f))
  {
    hide Built, Leaves, Fair;
    BuiltChildren(l, t);
    var a, b := t.args[0], t.args[1];
    assert a in Children(t) && b in Children(t);
    LeavesDown(t, a, names);
    LeavesDown(t, b, names);
    var n := Not(b);
    assert Raw(l, n);
    assert SimplifiedAt(l, n);
    LeavesUp(n, names);
    var e := Eq(a, l.simp(n));
    assert Raw(l, e);
    assert SimplifiedAt(l, e);
    LeavesUp(e, names);
    if Fair(l, v) {
      XorValue(l, v, a, b);
      OpsHold(v, a, l.simp(n));
      assert t == App(XorOp, [a, b]);
    }
  }

  lemma XorValue(l: Logic, v: Model, a: Term, b: Term)
    requires Fair(l, v) && Built(l, a) && IsBool(l, a)
    ensures Holds(v, App(XorOp, [a, b])) <==> Eval(v, a) == Eval(v, Not(b))
  {
    hide Fair;
    BuiltChildren(l, a);
    SubtermsOfChildren(a, a);
    BoolValue(l, v, a);
    EvalApp(v, XorOp, [a, b]);
    EvalApp(v, NotOp, [b]);
  }

  // ---------------------------------------------------------------------------
  // Collecting facts

  /** The state of the search: what was seen are top literals, whose parts are seen or wait. */
  ghost predicate Collecting(l: Logic, root: Term, isdup: set<Signed>, queue: seq<Signed>) {
    && (forall p {:trigger p in isdup} {:trigger IsTop(root, true, p)} :: p in isdup ==> IsTop(root, true, p))
    && (forall p {:trigger p in queue} :: p in queue ==> IsTop(root, true, p))
    && (Pure(root, true) in isdup || Pure(root, true) in queue)
    && forall q, c {:trigger Pure(c, q.sign)} :: q in isdup && c in Parts(q) ==> Pure(c, q.sign) in isdup || Pure(c, q.sign) in queue
  }

  /** Each fact comes from a literal that was seen; each such literal's fact, or the literal itself, is there. */
  ghost predicate FactsOf(l: Logic, isdup: set<Signed>, keys: seq<Term>, facts: map<Term, bool>) {
    && (forall t {:trigger t in keys} {:trigger t in facts} :: t in keys <==> t in facts)
    && (forall t {:trigger facts[t]} :: t in facts ==> exists p {:trigger FactOf(l, p)} :: p in isdup && FactOf(l, p) == [Signed(t, facts[t])])
    && (forall p {:trigger FactOf(l, p)} :: p in isdup && FactOf(l, p) != [] ==> FactOf(l, p)[0].term in facts || p.term in facts)
    && (forall p {:trigger FactOf(l, p)} :: p in isdup && FactOf(l, p) == [p] ==> p.term in facts && facts[p.term] == p.sign)
  }

  lemma CollectPop(l: Logic, root: Term, isdup: set<Signed>, queue: seq<Signed>)
    requires Collecting(l, root, isdup, queue) && queue != []
    ensures var n := |queue| - 1; IsTop(root, true, queue[n]) && (queue[n] in isdup ==> Collecting(l, root, isdup, queue[..n]))
  {
    var n := |queue| - 1;
    assert queue == queue[..n] + [queue[n]];
    assert queue[n] in queue;
    forall p | p in queue[..n] ensures IsTop(root, true, p) {
      assert p in queue;
    }
  }

  lemma CollectSplit(l: Logic, root: Term, isdup: set<Signed>, queue: seq<Signed>, more: seq<Signed>)
    requires Collecting(l, root, isdup, queue) && queue != []
    requires var p := queue[|queue| - 1]; |more| == |Parts(p)| && forall i {:trigger more[i]} :: 0 <= i < |more| ==> more[i] == Pure(Parts(p)[i], p.sign)
    ensures var n := |queue| - 1; Collecting(l, root, isdup + {queue[n]}, queue[..n] + more)
  {
    hide IsTop, Pure, Parts;
    var n := |queue| - 1;
    var p := queue[n];
    var queue' := queue[..n] + more;
    assert queue == queue[..n] + [p] && p in queue;
    forall q | q in queue' ensures IsTop(root, true, q) {
      if q in queue[..n] {
        assert q in queue;
      } else {
        var i :| 0 <= i < |more| && more[i] == q;
        TopsClosed(root, true, p, Parts(p)[i]);
      }
    }
    forall q, c {:trigger Pure(c, q.sign)} | q in isdup + {p} && c in Parts(q) ensures Pure(c, q.sign) in isdup + {p} || Pure(c, q.sign) in queue' {
      if q == p {
        var i :| 0 <= i < |Parts(p)| && Parts(p)[i] == c;
        assert more[i] in queue';
      }
    }
  }

  /** What a fact that is recorded says holds where the formula does. */
  lemma RecordedHolds(l: Logic, root: Term, isdup: set<Signed>, keys: seq<Term>, facts: map<Term, bool>, t: Term, v: Model)
    requires Simplifies(l) && Built(l, root) && FactsOf(l, isdup, keys, facts) && t in facts
    requires forall p {:trigger p in isdup} :: p in isdup ==> IsTop(root, true, p)
    ensures Built(l, t) && Leaves(t) <= Leaves(root)
    ensures Fair(l, v) && Holds(v, root) ==> Holds(v, t) == facts[t]
  {
    hide Built, Leaves, Fair, Simplifies;
    var sign := facts[t];
    var p :| p in isdup && FactOf(l, p) == [Signed(t, sign)];
    TopsHold(l, v, root, true, p);
    BuiltDown(l, root, p.term);
    LeavesInside(root, p.term);
    FactHolds(l, v, p, Leaves(root));
  }

  lemma LeavesInside(t: Term, s: Term)
    requires s in Subterms(t)
    ensures Leaves(s) <= Leaves(t)
  {
    forall x | x in Leaves(s) ensures x in Leaves(t) {
      SubtermsTransitive(t, s, x);
    }
  }

  /** A top literal contradicts the fact of another one. */
  ghost predicate Clash(l: Logic, root: Term) {
    exists p, q {:trigger IsTop(root, true, p), IsTop(root, true, q)} :: IsTop(root, true, p) && IsTop(root, true, q) && FactOf(l, q) == [Signed(p.term, !p.sign)]
  }

  lemma ClashRefutes(l: Logic, root: Term, v: Model)
    requires Simplifies(l) && Built(l, root) && Clash(l, root) && Fair(l, v)
    ensures !Holds(v, root)
  {
    hide Built, Leaves, Fair, Simplifies, IsTop;
    var p, q :| IsTop(root, true, p) && IsTop(root, true, q) && FactOf(l, q) == [Signed(p.term, !p.sign)];
    TopsHold(l, v, root, true, p);
    TopsHold(l, v, root, true, q);
    BuiltDown(l, root, q.term);
    FactHolds(l, v, q, Leaves(q.term));
  }

  lemma Conflict(l: Logic, root: Term, isdup: set<Signed>, queue: seq<Signed>, keys: seq<Term>, facts: map<Term, bool>, p: Signed)
    requires Collecting(l, root, isdup, queue) && FactsOf(l, isdup, keys, facts)
    requires IsTop(root, true, p) && p.term in facts && facts[p.term] != p.sign
    ensures Clash(l, root)
  {
    hide IsTop;
    var sign := facts[p.term];
    var q :| q in isdup && FactOf(l, q) == [Signed(p.term, sign)];
    assert IsTop(root, true, q);
  }

  lemma FactsSeen(l: Logic, isdup: set<Signed>, keys: seq<Term>, facts: map<Term, bool>, p: Signed)
    requires FactsOf(l, isdup, keys, facts) && p !in isdup && (FactOf(l, p) == [] || (p.term in facts && facts[p.term] == p.sign))
    ensures FactsOf(l, isdup + {p}, keys, facts)
  {
  }

  lemma FactAdded(l: Logic, isdup: set<Signed>, keys: seq<Term>, facts: map<Term, bool>, p: Signed, f: Signed)
    requires FactsOf(l, isdup, keys, facts) && p !in isdup && FactOf(l, p) == [f] && p.term !in facts
    ensures FactsOf(l, isdup + {p}, keys + [f.term], if f.term in facts then facts else facts[f.term := f.sign])
  {
    var facts' := if f.term in facts then facts else facts[f.term := f.sign];
    forall t {:trigger facts'[t]} | t in facts' ensures exists q {:trigger FactOf(l, q)} :: q in isdup + {p} && FactOf(l, q) == [Signed(t, facts'[t])] {
      if t in facts {
        var sign := facts[t];
        var q :| q in isdup && FactOf(l, q) == [Signed(t, sign)];
        assert q in isdup + {p};
      } else {
        assert FactOf(l, p) == [Signed(t, facts'[t])];
      }
    }
  }

  /** The literals that can be met. */
  ghost function Literals(root: Term): set<Signed> {
    set t, b | t in Subterms(root) && b in {true, false} :: Signed(t, b)
  }

  /** What is collected from a formula: all its top literals were looked at, and a conflict means it has no model. */
  ghost predicate FactsFound(l: Logic, root: Term, keys: seq<Term>, facts: map<Term, bool>) {
    exists isdup {:trigger FactsOf(l, isdup, keys, facts)} ::
      FactsOf(l, isdup, keys, facts) && AllTops(root, isdup)
  }

  ghost predicate AllTops(root: Term, s: set<Signed>) {
    forall p {:trigger p in s} {:trigger IsTop(root, true, p)} :: p in s <==> IsTop(root, true, p)
  }

  /** A literal that is a fact as it stands: a Boolean variable with either sign, and an equality or a predicate that
      is asserted. */
  predicate IsFact(l: Logic, p: Signed) {
    IsBoolAtom(l, p.term) || (p.sign && (IsEquality(p.term) || IsPredicate(l, p.term)))
  }

  /** What literal `p` says is that `t` is true or false. */
  ghost predicate Tells(l: Logic, p: Signed, t: Term, sign: bool) {
    (IsFact(l, p) && p == Signed(t, sign)) || (p.sign && IsXor(p.term) && sign && t == XorEquation(l, p.term))
  }

  /** The facts are the top literals that are facts, with their signs, and the equations of asserted exclusive
      disjunctions; nothing is missing, and nothing else is there. */
  ghost predicate TopFacts(l: Logic, root: Term, facts: map<Term, bool>) {
    && (forall p {:trigger IsTop(root, true, p)} :: IsTop(root, true, p) ==> Collected(l, p, facts))
    && forall t {:trigger facts[t]} :: t in facts ==> exists p {:trigger IsTop(root, true, p)} :: IsTop(root, true, p) && Tells(l, p, t, facts[t])
  }

  ghost predicate Collected(l: Logic, p: Signed, facts: map<Term, bool>) {
    && (IsFact(l, p) ==> p.term in facts && facts[p.term] == p.sign)
    && (p.sign && IsXor(p.term) ==> XorEquation(l, p.term) in facts || p.term in facts)
  }

  lemma FoundTopFacts(l: Logic, root: Term, keys: seq<Term>, facts: map<Term, bool>)
    requires FactsFound(l, root, keys, facts)
    ensures TopFacts(l, root, facts)
  {
    hide IsTop, Tells, Collected;
    var isdup :| FactsOf(l, isdup, keys, facts) && AllTops(root, isdup);
    forall p | IsTop(root, true, p) ensures Collected(l, p, facts) {
      assert p in isdup;
      SeenIsCollected(l, isdup, keys, facts, p);
    }
    forall t {:trigger facts[t]} | t in facts ensures exists p {:trigger IsTop(root, true, p)} :: IsTop(root, true, p) && Tells(l, p, t, facts[t]) {
      var p := FactHasSource(l, isdup, keys, facts, t);
      assert IsTop(root, true, p);
    }
  }

  lemma SeenIsCollected(l: Logic, isdup: set<Signed>, keys: seq<Term>, facts: map<Term, bool>, p: Signed)
    requires FactsOf(l, isdup, keys, facts) && p in isdup
    ensures Collected(l, p, facts)
  {
    hide IsFact;
    FactKinds(l, p);
  }

  lemma FactHasSource(l: Logic, isdup: set<Signed>, keys: seq<Term>, facts: map<Term, bool>, t: Term) returns (p: Signed)
    requires FactsOf(l, isdup, keys, facts) && t in facts
    ensures p in isdup && Tells(l, p, t, facts[t])
  {
    hide IsFact;
    var sign := facts[t];
    p :| p in isdup && FactOf(l, p) == [Signed(t, sign)];
    FactKinds(l, p);
  }

  lemma FactKinds(l: Logic, p: Signed)
    ensures FactOf(l, p) == if IsFact(l, p) then [p] else if p.sign && IsXor(p.term) then [Signed(XorEquation(l, p.term), true)] else []
  {
  }

  method GetNewFacts(l: Logic, root: Term) returns (ok: bool, keys: seq<Term>, facts: map<Term, bool>)
    requires Simplifies(l) && Built(l, root)
    ensures ok ==> FactsFound(l, root, keys, facts) && TopFacts(l, root, facts)
    ensures !ok ==> Clash(l, root)
  {
    hide Simplifies, Built, Collecting, FactsOf, IsTop, Pure, Literals, Fair, Clash, TopFacts;
    keys, facts := [], map[];
    var isdup: set<Signed> := {};
    var p := Purify(root, true);
    var queue := [p];
    CollectStart(l, root, queue);
    while queue != []
      invariant Collecting(l, root, isdup, queue) && FactsOf(l, isdup, keys, facts) && isdup <= Literals(root)
      decreases |Literals(root) - isdup|, |queue|
    {
      ghost var queue0 := queue;
      p := queue[|queue| - 1];
      CollectPop(l, root, isdup, queue);
      queue := queue[..|queue| - 1];
      if p in isdup {
        continue;
      }
      IsLiteral(l, root, p);
      ghost var isdup0 := isdup;
      assert Literals(root) - (isdup + {p}) == (Literals(root) - isdup) - {p};
      isdup := isdup + {p};
      if p.term.App? && (if p.sign then p.term.op.AndOp? else p.term.op.OrOp?) {
        var more := Split(p);
        CollectSplit(l, root, isdup0, queue0, more);
        FactsSeen(l, isdup0, keys, facts, p);
        queue := queue + more;
        continue;
      }
      CollectSplit(l, root, isdup0, queue0, []);
      assert queue + [] == queue;
      if p.term in facts && facts[p.term] != p.sign {
        Conflict(l, root, isdup0, queue0, keys, facts, p);
        return false, keys, facts;
      }
      if p.term in facts {
        FactsSeen(l, isdup0, keys, facts, p);
        continue;
      }
      if FactOf(l, p) != [] {
        var f := FactOf(l, p)[0];
        FactAdded(l, isdup0, keys, facts, p, f);
        keys := keys + [f.term];
        facts := if f.term in facts then facts else facts[f.term := f.sign];
      } else {
        FactsSeen(l, isdup0, keys, facts, p);
      }
    }
    ok := true;
    AllSeen(l, root, isdup);
    assert FactsOf(l, isdup, keys, facts);
    FoundTopFacts(l, root, keys, facts);
  }

  method Split(p: Signed) returns (more: seq<Signed>)
    ensures |more| == |Parts(p)| && forall i {:trigger more[i]} :: 0 <= i < |more| ==> more[i] == Pure(Parts(p)[i], p.sign)
  {
    hide Pure;
    more := [];
    var ts := Parts(p);
    for i := 0 to |ts|
      invariant |more| == i && forall j {:trigger more[j]} :: 0 <= j < i ==> more[j] == Pure(ts[j], p.sign)
    {
      var q := Purify(ts[i], p.sign);
      more := more + [q];
    }
  }

  lemma CollectStart(l: Logic, root: Term, queue: seq<Signed>)
    requires queue == [Pure(root, true)]
    ensures Collecting(l, root, {}, queue) && FactsOf(l, {}, [], map[])
  {
  }

  lemma IsLiteral(l: Logic, root: Term, p: Signed)
    requires IsTop(root, true, p)
    ensures p in Literals(root)
  {
    var v := Model(x => Bool(true), (f, vs) => Bool(true), Defined);
    TopsHold(l, v, root, true, p);
    assert p == Signed(p.term, p.sign);
  }

  lemma AllSeen(l: Logic, root: Term, isdup: set<Signed>)
    requires Collecting(l, root, isdup, [])
    ensures AllTops(root, isdup)
  {
    forall p | IsTop(root, true, p) ensures p in isdup {
      TopsLeast(root, true, isdup, p);
    }
  }
}
