/** The clauses that define a connective's literal, and what they mean. */
module Tseitin {
  import opened Clauses
  import opened Formulas
  import opened TermMappers

  type Clause = seq<Lit>
  type Mapping = map<Fla, Var>

  /** A valuation of the SAT variables makes a literal, a clause, a list of clauses true. */
  ghost predicate LitHolds(l: Lit, val: Valuation) {
    (l.v in val) != l.neg
  }

  ghost predicate ClauseHolds(c: Clause, val: Valuation) {
    exists l {:trigger l in c} :: l in c && LitHolds(l, val)
  }

  ghost predicate AllHold(cs: seq<Clause>, val: Valuation) {
    forall c {:trigger c in cs} :: c in cs ==> ClauseHolds(c, val)
  }

  function Kids(f: Fla): seq<Fla> {
    match f
    case True => []
    case False => []
    case Atom(_) => []
    case Not(g) => [g]
    case And(args) => args
    case Or(args) => args
    case Xor(a, b) => [a, b]
    case Iff(a, b) => [a, b]
    case Implies(a, b) => [a, b]
  }

  predicate Connective(f: Fla) {
    f.And? || f.Or? || f.Xor? || f.Iff? || f.Implies?
  }

  /** The formula and its children have variables. */
  ghost predicate Mapped(tm: Mapping, f: Fla) {
    Core(f) in tm && forall k {:trigger k in Kids(f)} :: k in Kids(f) ==> Core(k) in tm
  }

  function LitsOf(tm: Mapping, fs: seq<Fla>): seq<Lit>
    requires forall f {:trigger f in fs} :: f in fs ==> Core(f) in tm
  {
    if fs == [] then []
    else
      assert fs[0] in fs && forall f {:trigger f in fs[1..]} :: f in fs[1..] ==> f in fs;
      [LitOf(tm, fs[0])] + LitsOf(tm, fs[1..])
  }

  function NegateAll(c: Clause): Clause {
    if c == [] then [] else [Negate(c[0])] + NegateAll(c[1..])
  }

  /** The two-literal clauses `first` or a literal of `c`. */
  function Pairs(first: Lit, c: Clause): seq<Clause> {
    if c == [] then [] else [[first, c[0]]] + Pairs(first, c[1..])
  }

  /** The definition of a connective's literal; other formulas need none. */
  function DefClauses(tm: Mapping, f: Fla): seq<Clause>
    requires Connective(f) ==> Mapped(tm, f)
  {
    match f
    case And(args) =>
      assert Kids(f) == args;
      var v, ls := LitOf(tm, f), LitsOf(tm, args);
      Pairs(Negate(v), ls) + [[v] + NegateAll(ls)]
    case Or(args) =>
      assert Kids(f) == args;
      var v, ls := LitOf(tm, f), LitsOf(tm, args);
      Pairs(v, NegateAll(ls)) + [[Negate(v)] + ls]
    case Xor(a, b) =>
      assert a in Kids(f) && b in Kids(f);
      var v, x, y := LitOf(tm, f), LitOf(tm, a), LitOf(tm, b);
      [[Negate(v), x, y], [Negate(v), Negate(x), Negate(y)], [v, Negate(x), y], [v, x, Negate(y)]]
    case Iff(a, b) =>
      assert a in Kids(f) && b in Kids(f);
      var v, x, y := LitOf(tm, f), LitOf(tm, a), LitOf(tm, b);
      [[Negate(v), x, Negate(y)], [Negate(v), Negate(x), y], [v, x, y], [v, Negate(x), Negate(y)]]
    case Implies(a, b) =>
      assert a in Kids(f) && b in Kids(f);
      var v, x, y := LitOf(tm, f), LitOf(tm, a), LitOf(tm, b);
      [[v, x], [v, Negate(y)], [Negate(v), Negate(x), y]]
    case _ => []
  }

  /** The truth value a SAT valuation gives a formula through its literal. */
  ghost predicate Says(tm: Mapping, f: Fla, val: Valuation)
    requires Core(f) in tm
  {
    LitHolds(LitOf(tm, f), val)
  }

  /** The connective applied to what the valuation says of the arguments. */
  ghost predicate Applied(tm: Mapping, f: Fla, val: Valuation)
    requires Connective(f) && Mapped(tm, f)
  {
    match f
    case And(args) => forall k {:trigger k in args} :: k in args ==> k in Kids(f) && Says(tm, k, val)
    case Or(args) => exists k {:trigger k in args} :: k in args && k in Kids(f) && Says(tm, k, val)
    case Xor(a, b) => assert a in Kids(f) && b in Kids(f); Says(tm, a, val) != Says(tm, b, val)
    case Iff(a, b) => assert a in Kids(f) && b in Kids(f); Says(tm, a, val) == Says(tm, b, val)
    case Implies(a, b) => assert a in Kids(f) && b in Kids(f); Says(tm, a, val) ==> Says(tm, b, val)
    case _ => true
  }

  // ---------------------------------------------------------------------------
  // Lists of literals and clauses

  ghost predicate AllLits(c: Clause, val: Valuation) {
    forall l {:trigger l in c} :: l in c ==> LitHolds(l, val)
  }

  lemma {:induction false} LitsOfElems(tm: Mapping, fs: seq<Fla>, l: Lit)
    requires forall f {:trigger f in fs} :: f in fs ==> Core(f) in tm
    ensures l in LitsOf(tm, fs) <==> exists f {:trigger f in fs} :: f in fs && LitOf(tm, f) == l
  {
    if fs != [] {
      assert fs[0] in fs && forall f {:trigger f in fs[1..]} :: f in fs[1..] ==> f in fs;
      LitsOfElems(tm, fs[1..], l);
      assert fs == [fs[0]] + fs[1..];
      if f :| f in fs[1..] && LitOf(tm, f) == l { assert f in fs; }
    }
  }

  lemma {:induction false} NegateAllElems(c: Clause, l: Lit)
    ensures l in NegateAll(c) <==> Negate(l) in c
  {
    if c != [] {
      NegateAllElems(c[1..], l);
      assert c == [c[0]] + c[1..];
      assert Negate(Negate(c[0])) == c[0];
    }
  }

  lemma {:induction false} PairsElems(first: Lit, c: Clause, d: Clause)
    ensures d in Pairs(first, c) <==> exists l {:trigger l in c} :: l in c && d == [first, l]
  {
    if c != [] {
      PairsElems(first, c[1..], d);
      assert c == [c[0]] + c[1..];
      assert c[0] in c;
      if l :| l in c[1..] && d == [first, l] { assert l in c; }
    }
  }

  lemma NegateHolds(l: Lit, val: Valuation)
    ensures LitHolds(Negate(l), val) <==> !LitHolds(l, val)
    ensures Negate(Negate(l)) == l
  {
  }

  lemma NegateAllHolds(c: Clause, val: Valuation)
    ensures ClauseHolds(NegateAll(c), val) <==> !AllLits(c, val)
    ensures AllLits(NegateAll(c), val) <==> !ClauseHolds(c, val)
  {
    forall l ensures l in NegateAll(c) <==> Negate(l) in c {
      NegateAllElems(c, l);
    }
    if !AllLits(c, val) {
      var l :| l in c && !LitHolds(l, val);
      NegateHolds(l, val);
      assert Negate(l) in NegateAll(c);
    }
    if ClauseHolds(c, val) {
      var l :| l in c && LitHolds(l, val);
      NegateHolds(l, val);
      assert Negate(l) in NegateAll(c);
    }
  }

  lemma ConsHolds(l: Lit, c: Clause, val: Valuation)
    ensures ClauseHolds([l] + c, val) <==> LitHolds(l, val) || ClauseHolds(c, val)
  {
    assert l in [l] + c;
    if k :| k in c && LitHolds(k, val) { assert k in [l] + c; }
  }

  lemma ShortHolds(a: Lit, b: Lit, c: Lit, val: Valuation)
    ensures ClauseHolds([a], val) <==> LitHolds(a, val)
    ensures ClauseHolds([a, b], val) <==> LitHolds(a, val) || LitHolds(b, val)
    ensures ClauseHolds([a, b, c], val) <==> LitHolds(a, val) || LitHolds(b, val) || LitHolds(c, val)
  {
    assert a in [a] && a in [a, b] && b in [a, b] && a in [a, b, c] && b in [a, b, c] && c in [a, b, c];
  }

  lemma PairsHold(first: Lit, c: Clause, val: Valuation)
    ensures AllHold(Pairs(first, c), val) <==> LitHolds(first, val) || AllLits(c, val)
  {
    if AllHold(Pairs(first, c), val) {
      forall l | l in c ensures LitHolds(first, val) || LitHolds(l, val) {
        PairsElems(first, c, [first, l]);
        assert [first, l] in Pairs(first, c);
        ShortHolds(first, l, l, val);
      }
    }
    if LitHolds(first, val) || AllLits(c, val) {
      forall d | d in Pairs(first, c) ensures ClauseHolds(d, val) {
        PairsElems(first, c, d);
        var l :| l in c && d == [first, l];
        ShortHolds(first, l, l, val);
      }
    }
  }

  lemma AllHoldSplit(cs: seq<Clause>, ds: seq<Clause>, val: Valuation)
    ensures AllHold(cs + ds, val) <==> AllHold(cs, val) && AllHold(ds, val)
  {
    assert forall c {:trigger c in cs + ds} {:trigger c in cs} {:trigger c in ds} :: c in cs + ds <==> c in cs || c in ds;
  }

  lemma OneHolds(c: Clause, val: Valuation)
    ensures AllHold([c], val) <==> ClauseHolds(c, val)
  {
    assert c in [c];
  }

  lemma FourHold(a: Clause, b: Clause, c: Clause, d: Clause, val: Valuation)
    ensures AllHold([a, b, c, d], val) <==> ClauseHolds(a, val) && ClauseHolds(b, val) && ClauseHolds(c, val) && ClauseHolds(d, val)
    ensures AllHold([a, b, c], val) <==> ClauseHolds(a, val) && ClauseHolds(b, val) && ClauseHolds(c, val)
  {
    assert a in [a, b, c, d] && b in [a, b, c, d] && c in [a, b, c, d] && d in [a, b, c, d];
    assert a in [a, b, c] && b in [a, b, c] && c in [a, b, c];
  }

  // ---------------------------------------------------------------------------
  // The definitions define

  lemma SaysAll(tm: Mapping, fs: seq<Fla>, val: Valuation)
    requires forall f {:trigger f in fs} :: f in fs ==> Core(f) in tm
    ensures AllLits(LitsOf(tm, fs), val) <==> forall f {:trigger f in fs} :: f in fs ==> Says(tm, f, val)
    ensures ClauseHolds(LitsOf(tm, fs), val) <==> exists f {:trigger f in fs} :: f in fs && Says(tm, f, val)
  {
    forall l ensures l in LitsOf(tm, fs) <==> exists f {:trigger f in fs} :: f in fs && LitOf(tm, f) == l {
      LitsOfElems(tm, fs, l);
    }
    forall f | f in fs ensures LitOf(tm, f) in LitsOf(tm, fs) {
    }
  }

  lemma NaryDefines(tm: Mapping, f: Fla, val: Valuation)
    requires (f.And? || f.Or?) && Mapped(tm, f)
    ensures AllHold(DefClauses(tm, f), val) <==> (Says(tm, f, val) <==> Applied(tm, f, val))
  {
    var args := Kids(f);
    assert forall k {:trigger k in args} :: k in args ==> Core(k) in tm;
    var v, ls := LitOf(tm, f), LitsOf(tm, args);
    SaysAll(tm, args, val);
    NegateHolds(v, val);
    NegateAllHolds(ls, val);
    if f.And? {
      AllHoldSplit(Pairs(Negate(v), ls), [[v] + NegateAll(ls)], val);
      PairsHold(Negate(v), ls, val);
      OneHolds([v] + NegateAll(ls), val);
      ConsHolds(v, NegateAll(ls), val);
    } else {
      AllHoldSplit(Pairs(v, NegateAll(ls)), [[Negate(v)] + ls], val);
      PairsHold(v, NegateAll(ls), val);
      OneHolds([Negate(v)] + ls, val);
      ConsHolds(Negate(v), ls, val);
    }
  }

  lemma BinaryDefines(tm: Mapping, f: Fla, val: Valuation)
    requires (f.Xor? || f.Iff? || f.Implies?) && Mapped(tm, f)
    ensures AllHold(DefClauses(tm, f), val) <==> (Says(tm, f, val) <==> Applied(tm, f, val))
  {
    hide ClauseHolds, AllHold;
    assert Kids(f)[0] in Kids(f) && Kids(f)[1] in Kids(f);
    var v, x, y := LitOf(tm, f), LitOf(tm, Kids(f)[0]), LitOf(tm, Kids(f)[1]);
    var v', x', y' := Negate(v), Negate(x), Negate(y);
    if f.Xor? {
      FourHold([v', x, y], [v', x', y'], [v, x', y], [v, x, y'], val);
      ShortHolds(v', x, y, val);
      ShortHolds(v', x', y', val);
      ShortHolds(v, x', y, val);
      ShortHolds(v, x, y', val);
    } else if f.Iff? {
      FourHold([v', x, y'], [v', x', y], [v, x, y], [v, x', y'], val);
      ShortHolds(v', x, y', val);
      ShortHolds(v', x', y, val);
      ShortHolds(v, x, y, val);
      ShortHolds(v, x', y', val);
    } else {
      FourHold([v, x], [v, y'], [v', x', y], [], val);
      ShortHolds(v, x, x, val);
      ShortHolds(v, y', y', val);
      ShortHolds(v', x', y, val);
    }
  }

  /** A valuation satisfies the definition of a connective exactly if the connective's literal has the
      value computed from the literals of its arguments. */
  lemma DefinitionDefines(tm: Mapping, f: Fla, val: Valuation)
    requires Connective(f) && Mapped(tm, f)
    ensures AllHold(DefClauses(tm, f), val) <==> (Says(tm, f, val) <==> Applied(tm, f, val))
  {
    if f.And? || f.Or? {
      NaryDefines(tm, f, val);
    } else {
      BinaryDefines(tm, f, val);
    }
  }
}
