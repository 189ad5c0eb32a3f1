/** Terms with if-then-else, and their values in a model. */
module Terms {

  datatype Op = TrueOp | FalseOp | NotOp | AndOp | OrOp | ImpliesOp | EqOp | XorOp | Uf(f: nat)

  /** Equal terms are the same value, as they are the same node in the solver's term store. */
  datatype Term =
    | Var(name: string)
    | App(op: Op, args: seq<Term>)
    | Ite(cond: Term, tt: Term, ff: Term)

  function Children(t: Term): seq<Term> {
    match t
    case Var(_) => []
    case App(_, args) => args
    case Ite(c, a, b) => [c, a, b]
  }

  function Subterms(t: Term): set<Term> {
    match t
    case Var(_) => {t}
    case App(_, args) => {t} + set i, x | 0 <= i < |args| && x in Subterms(args[i]) :: x
    case Ite(c, a, b) => {t} + Subterms(c) + Subterms(a) + Subterms(b)
  }

  ghost function Size(t: Term): nat {
    match t
    case Var(_) => 1
    case App(_, args) => 1 + SizeAll(args)
    case Ite(c, a, b) => 1 + Size(c) + Size(a) + Size(b)
  }

  ghost function SizeAll(ts: seq<Term>): nat {
    if ts == [] then 0 else Size(ts[0]) + SizeAll(ts[1..])
  }

  lemma {:induction false} SizeInList(ts: seq<Term>, t: Term)
    requires t in ts
    ensures Size(t) <= SizeAll(ts)
  {
    if t != ts[0] {
      assert ts == [ts[0]] + ts[1..];
      SizeInList(ts[1..], t);
    }
  }

  lemma ChildIsSmaller(t: Term, c: Term)
    requires c in Children(t)
    ensures Size(c) < Size(t)
  {
    if t.App? {
      SizeInList(t.args, c);
    }
  }

  lemma {:induction false} SubtermsClosed(t: Term, x: Term, y: Term)
    requires x in Subterms(t) && y in Children(x)
    ensures y in Subterms(t)
    decreases t
  {
    if x == t {
      assert y in Subterms(y);
    } else {
      match t
      case App(_, args) =>
        var i :| 0 <= i < |args| && x in Subterms(args[i]);
        SubtermsClosed(args[i], x, y);
      case Ite(c, a, b) =>
        if x in Subterms(c) { SubtermsClosed(c, x, y); }
        else if x in Subterms(a) { SubtermsClosed(a, x, y); }
        else { SubtermsClosed(b, x, y); }
    }
  }

  /** A set that holds `t` and the children of its members holds all subterms of `t`. */
  lemma {:induction false} SubtermsLeast(t: Term, s: set<Term>)
    requires t in s && forall x, y {:trigger y in Children(x)} :: x in s && y in Children(x) ==> y in s
    ensures Subterms(t) <= s
    decreases t
  {
    match t
    case Var(_) =>
    case App(_, args) =>
      forall i | 0 <= i < |args| ensures Subterms(args[i]) <= s {
        assert args[i] in Children(t);
        SubtermsLeast(args[i], s);
      }
    case Ite(c, a, b) =>
      assert c in Children(t) && a in Children(t) && b in Children(t);
      SubtermsLeast(c, s);
      SubtermsLeast(a, s);
      SubtermsLeast(b, s);
  }

  lemma SizeOfChildren(t: Term)
    ensures Size(t) == 1 + SizeAll(Children(t))
  {
    if t.Ite? {
      var cs := Children(t);
      assert cs[1..] == [t.tt, t.ff] && cs[1..][1..] == [t.ff] && cs[1..][1..][1..] == [];
      assert SizeAll(cs) == Size(cs[0]) + SizeAll(cs[1..]);
      assert SizeAll(cs[1..]) == Size(t.tt) + SizeAll(cs[1..][1..]);
      assert SizeAll(cs[1..][1..]) == Size(t.ff) + SizeAll(cs[1..][1..][1..]);
    }
  }

  lemma SubtermsOfChildren(t: Term, s: Term)
    ensures s in Subterms(t) <==> s == t || exists i :: 0 <= i < |Children(t)| && s in Subterms(Children(t)[i])
  {
    match t
    case Var(_) =>
    case App(_, args) =>
      if s in Subterms(t) && s != t {
        var i :| 0 <= i < |args| && s in Subterms(args[i]);
        assert s in Subterms(Children(t)[i]);
      }
    case Ite(c, a, b) =>
      var cs := Children(t);
      assert cs[0] == c && cs[1] == a && cs[2] == b;
  }

  lemma {:induction false} SubtermsTransitive(t: Term, s: Term, u: Term)
    requires s in Subterms(t) && u in Subterms(s)
    ensures u in Subterms(t)
    decreases Size(t)
  {
    SubtermsOfChildren(t, s);
    SubtermsOfChildren(t, u);
    if s != t {
      var i :| 0 <= i < |Children(t)| && s in Subterms(Children(t)[i]);
      ChildIsSmaller(t, Children(t)[i]);
      SubtermsTransitive(Children(t)[i], s, u);
    }
  }

  // ---------------------------------------------------------------------------
  // Meaning

  datatype Value = Bool(b: bool) | Elem(e: int)

  /** How a model reads an if-then-else: by its definition, or as a name with a value of its own. */
  datatype Ites = Defined | Named(value: Term -> Value)

  datatype Model = Model(vars: string -> Value, fun: (nat, seq<Value>) -> Value, ites: Ites)

  ghost predicate Truth(v: Value) {
    v == Bool(true)
  }

  ghost function Interp(m: Model, op: Op, vs: seq<Value>): Value {
    match op
    case TrueOp => Bool(true)
    case FalseOp => Bool(false)
    case NotOp => Bool(vs != [] && !Truth(vs[0]))
    case AndOp => Bool(forall v {:trigger v in vs} :: v in vs ==> Truth(v))
    case OrOp => Bool(exists v {:trigger v in vs} :: v in vs && Truth(v))
    case ImpliesOp => Bool(|vs| == 2 && (Truth(vs[0]) ==> Truth(vs[1])))
    case EqOp => Bool(|vs| == 2 && vs[0] == vs[1])
    case XorOp => Bool(|vs| == 2 && Truth(vs[0]) != Truth(vs[1]))
    case Uf(f) => m.fun(f, vs)
  }

  ghost function Eval(m: Model, t: Term): Value {
    match t
    case Var(name) => m.vars(name)
    case App(op, args) => Interp(m, op, seq(|args|, i requires 0 <= i < |args| => Eval(m, args[i])))
    case Ite(c, a, b) =>
      match m.ites
      case Named(value) => value(t)
      case Defined => if Truth(Eval(m, c)) then Eval(m, a) else Eval(m, b)
  }

  ghost predicate Holds(m: Model, t: Term) {
    Truth(Eval(m, t))
  }

  ghost function Values(m: Model, ts: seq<Term>): (vs: seq<Value>)
    ensures |vs| == |ts| && forall i {:trigger vs[i]} :: 0 <= i < |ts| ==> vs[i] == Eval(m, ts[i])
  {
    seq(|ts|, i requires 0 <= i < |ts| => Eval(m, ts[i]))
  }

  lemma EvalApp(m: Model, op: Op, args: seq<Term>)
    ensures Eval(m, App(op, args)) == Interp(m, op, Values(m, args))
  {
    assert seq(|args|, i requires 0 <= i < |args| => Eval(m, args[i])) == Values(m, args);
  }

  function And(ts: seq<Term>): Term { App(AndOp, ts) }
  function Or(ts: seq<Term>): Term { App(OrOp, ts) }
  function Not(t: Term): Term { App(NotOp, [t]) }
  function Implies(a: Term, b: Term): Term { App(ImpliesOp, [a, b]) }
  function Eq(a: Term, b: Term): Term { App(EqOp, [a, b]) }
  function True(): Term { App(TrueOp, []) }

  lemma AndHolds(m: Model, ts: seq<Term>)
    ensures Holds(m, And(ts)) <==> forall t {:trigger t in ts} :: t in ts ==> Holds(m, t)
  {
    EvalApp(m, AndOp, ts);
    var vs := Values(m, ts);
    if Holds(m, And(ts)) {
      forall t | t in ts ensures Holds(m, t) {
        var i :| 0 <= i < |ts| && ts[i] == t;
        assert vs[i] in vs;
      }
    }
    if forall t {:trigger t in ts} :: t in ts ==> Holds(m, t) {
      forall v | v in vs ensures Truth(v) {
        var i :| 0 <= i < |vs| && vs[i] == v;
        assert ts[i] in ts;
      }
    }
  }

  lemma OrHolds(m: Model, ts: seq<Term>)
    ensures Holds(m, Or(ts)) <==> exists t {:trigger t in ts} :: t in ts && Holds(m, t)
  {
    EvalApp(m, OrOp, ts);
    var vs := Values(m, ts);
    if Holds(m, Or(ts)) {
      var v :| v in vs && Truth(v);
      var i :| 0 <= i < |vs| && vs[i] == v;
      assert ts[i] in ts && Holds(m, ts[i]);
    }
    if t :| t in ts && Holds(m, t) {
      var i :| 0 <= i < |ts| && ts[i] == t;
      assert vs[i] in vs;
    }
  }

  lemma OpsHold(m: Model, a: Term, b: Term)
    ensures Holds(m, Not(a)) <==> !Holds(m, a)
    ensures Holds(m, Implies(a, b)) <==> (Holds(m, a) ==> Holds(m, b))
    ensures Holds(m, Eq(a, b)) <==> Eval(m, a) == Eval(m, b)
    ensures Holds(m, True())
  {
    EvalApp(m, NotOp, [a]);
    EvalApp(m, ImpliesOp, [a, b]);
    EvalApp(m, EqOp, [a, b]);
    EvalApp(m, TrueOp, []);
  }
}
