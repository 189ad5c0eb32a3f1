/** Bottom-up rewriting of terms by a substitution, through constructors that simplify. */
module Rewriters {
  import opened Terms
  import opened TermStacks

  /** What a logic knows about sorts, and how its constructors simplify a term whose arguments are built. */
  datatype Logic = Logic(boolVar: string -> bool, boolFun: nat -> bool, simp: Term -> Term)

  predicate IsBool(l: Logic, t: Term) {
    match t
    case Var(name) => l.boolVar(name)
    case App(op, _) => op.Uf? ==> l.boolFun(op.f)
    case Ite(_, a, _) => IsBool(l, a)
  }

  predicate IsConstant(t: Term) {
    t.App? && t.args == []
  }

  predicate IsTruthValue(t: Term) {
    t.App? && t.op in {TrueOp, FalseOp}
  }

  /** A constant that is no truth value. */
  predicate IsElement(t: Term) {
    IsConstant(t) && t.op.Uf?
  }

  predicate IsEquality(t: Term) {
    t.App? && t.op.EqOp? && |t.args| == 2
  }

  /** Arities and sorts of one symbol and its arguments. Implications are disjunctions in the term store. */
  predicate Formed(l: Logic, t: Term) {
    match t
    case Var(_) => true
    case App(op, args) =>
      (match op
       case TrueOp => args == []
       case FalseOp => args == []
       case NotOp => |args| == 1 && IsBool(l, args[0])
       case AndOp => args != [] && forall i :: 0 <= i < |args| ==> IsBool(l, args[i])
       case OrOp => args != [] && forall i :: 0 <= i < |args| ==> IsBool(l, args[i])
       case ImpliesOp => false
       case XorOp => |args| == 2 && IsBool(l, args[0]) && IsBool(l, args[1])
       case EqOp => |args| == 2 && IsBool(l, args[0]) == IsBool(l, args[1])
       case Uf(f) => args == [] ==> !l.boolFun(f))
    case Ite(c, a, b) => IsBool(l, c) && IsBool(l, a) == IsBool(l, b)
  }

  /** Equalities between two constants, or with a truth value, are simplified away when they are built. */
  predicate EqualityBuilt(t: Term) {
    IsEquality(t) ==> !(IsConstant(t.args[0]) && IsConstant(t.args[1])) && !IsTruthValue(t.args[0]) && !IsTruthValue(t.args[1])
  }

  predicate BuiltAt(l: Logic, t: Term) {
    Formed(l, t) && EqualityBuilt(t)
  }

  /** A term as the term store holds it. */
  ghost predicate Built(l: Logic, t: Term) {
    forall s {:trigger BuiltAt(l, s)} :: s in Subterms(t) ==> BuiltAt(l, s)
  }

  /** The variables and elements in a term. */
  ghost function Leaves(t: Term): set<Term> {
    set s | s in Subterms(t) && (s.Var? || IsElement(s))
  }

  /** Models that keep to the sorts, read ites by their definition and tell constants apart. */
  ghost predicate Fair(l: Logic, m: Model) {
    && m.ites.Defined?
    && (forall x {:trigger m.vars(x)} :: l.boolVar(x) ==> m.vars(x).Bool?)
    && (forall f, vs {:trigger m.fun(f, vs)} :: l.boolFun(f) ==> m.fun(f, vs).Bool?)
    && (forall f, g {:trigger m.fun(f, []), m.fun(g, [])} :: f != g && !l.boolFun(f) && !l.boolFun(g) ==> m.fun(f, []) != m.fun(g, []))
  }

  /** What the simplifying constructors keep. That they never make a term larger is an assumption about them:
      the constructors of the operators above meet it, those of linear arithmetic need not. */
  ghost predicate SimplifiedAt(l: Logic, t: Term) {
    && Built(l, l.simp(t)) && IsBool(l, l.simp(t)) == IsBool(l, t)
    && Leaves(l.simp(t)) <= Leaves(t) && Size(l.simp(t)) <= Size(t)
    && SameValue(l, l.simp(t), t)
  }

  ghost predicate SameValue(l: Logic, s: Term, t: Term) {
    forall m {:trigger Eval(m, s)} {:trigger Eval(m, t)} :: Fair(l, m) ==> Eval(m, s) == Eval(m, t)
  }

  ghost predicate Raw(l: Logic, t: Term) {
    Formed(l, t) && forall c {:trigger c in Children(t)} :: c in Children(t) ==> Built(l, c)
  }

  ghost predicate Simplifies(l: Logic) {
    forall t {:trigger SimplifiedAt(l, t)} :: Raw(l, t) ==> SimplifiedAt(l, t)
  }

  // ---------------------------------------------------------------------------
  // Terms and their children

  function WithChildren(t: Term, cs: seq<Term>): Term
    requires |cs| == |Children(t)|
  {
    match t
    case Var(_) => t
    case App(op, _) => App(op, cs)
    case Ite(_, _, _) => Ite(cs[0], cs[1], cs[2])
  }

  lemma BuiltDown(l: Logic, t: Term, s: Term)
    requires Built(l, t) && s in Subterms(t)
    ensures Built(l, s)
  {
    forall u | u in Subterms(s) ensures BuiltAt(l, u) {
      SubtermsTransitive(t, s, u);
    }
  }

  lemma BuiltChildren(l: Logic, t: Term)
    requires Built(l, t)
    ensures Raw(l, t) && BuiltAt(l, t)
  {
    hide Formed;
    SubtermsOfChildren(t, t);
    assert BuiltAt(l, t);
    forall c | c in Children(t) ensures Built(l, c) {
      var i :| 0 <= i < |Children(t)| && Children(t)[i] == c;
      SubtermsOfChildren(c, c);
      SubtermsOfChildren(t, c);
      BuiltDown(l, t, c);
    }
  }

  lemma LeavesOfChildren(t: Term, x: Term)
    ensures x in Leaves(t) <==> (x == t && (t.Var? || IsElement(t))) || exists i :: 0 <= i < |Children(t)| && x in Leaves(Children(t)[i])
  {
    SubtermsOfChildren(t, x);
    if x in Leaves(t) && x != t {
      var i :| 0 <= i < |Children(t)| && x in Subterms(Children(t)[i]);
      assert x in Leaves(Children(t)[i]);
    }
  }

  lemma {:induction false} SizeAllPointwise(a: seq<Term>, b: seq<Term>, strict: bool)
    requires |a| == |b| && forall i {:trigger a[i]} {:trigger b[i]} :: 0 <= i < |a| ==> Size(a[i]) <= Size(b[i])
    requires strict ==> exists i {:trigger a[i]} {:trigger b[i]} :: 0 <= i < |a| && Size(a[i]) < Size(b[i])
    ensures SizeAll(a) <= SizeAll(b) && (strict ==> SizeAll(a) < SizeAll(b))
  {
    if a != [] {
      var rest := exists i {:trigger a[1..][i]} {:trigger b[1..][i]} :: 0 <= i < |a[1..]| && Size(a[1..][i]) < Size(b[1..][i]);
      if strict && Size(a[0]) == Size(b[0]) {
        var i :| 0 <= i < |a| && Size(a[i]) < Size(b[i]);
        assert a[1..][i - 1] == a[i] && b[1..][i - 1] == b[i];
      }
      SizeAllPointwise(a[1..], b[1..], rest);
    }
  }

  lemma {:induction false} BoolValue(l: Logic, m: Model, t: Term)
    requires Fair(l, m) && IsBool(l, t)
    requires t.Ite? ==> Formed(l, t)
    requires forall s {:trigger BuiltAt(l, s)} :: s in Subterms(t) ==> BuiltAt(l, s)
    ensures Eval(m, t).Bool?
    decreases t
  {
    if t.App? {
      EvalApp(m, t.op, t.args);
    } else if t.Ite? {
      BuiltDownIte(l, t);
      BoolValue(l, m, t.tt);
      BoolValue(l, m, t.ff);
    }
  }

  lemma BuiltDownIte(l: Logic, t: Term)
    requires Built(l, t) && t.Ite?
    ensures Built(l, t.tt) && Built(l, t.ff) && BuiltAt(l, t)
    ensures t.tt.Ite? ==> Formed(l, t.tt)
    ensures t.ff.Ite? ==> Formed(l, t.ff)
  {
    BuiltChildren(l, t);
    assert t.tt in Children(t) && t.ff in Children(t);
    BuiltChildren(l, t.tt);
    BuiltChildren(l, t.ff);
  }

  // ---------------------------------------------------------------------------
  // Rewriting as a function

  datatype Rewriting = Rewriting(changed: bool, term: Term)

  /** The term is rebuilt if a child changed; then the substitution is looked up once. */
  ghost function Rw(l: Logic, m: map<Term, Term>, t: Term): Rewriting
    decreases Size(t), 3
  {
    var t' := Mid(l, m, t);
    if t' in m then Rewriting(KidChanged(l, m, t) || m[t'] != t', m[t']) else Rewriting(KidChanged(l, m, t), t')
  }

  ghost function Mid(l: Logic, m: map<Term, Term>, t: Term): Term
    decreases Size(t), 2
  {
    if KidChanged(l, m, t) then l.simp(WithChildren(t, RwKids(l, m, t))) else t
  }

  ghost predicate KidChanged(l: Logic, m: map<Term, Term>, t: Term)
    decreases Size(t), 1
  {
    exists i :: 0 <= i < |Children(t)| && (ChildIsSmaller(t, Children(t)[i]); Rw(l, m, Children(t)[i]).changed)
  }

  ghost function RwKids(l: Logic, m: map<Term, Term>, t: Term): (ts: seq<Term>)
    ensures |ts| == |Children(t)|
    decreases Size(t), 1
  {
    seq(|Children(t)|, i requires 0 <= i < |Children(t)| => ChildIsSmaller(t, Children(t)[i]); Rw(l, m, Children(t)[i]).term)
  }

  lemma RwUnchanged(l: Logic, m: map<Term, Term>, t: Term)
    ensures !Rw(l, m, t).changed ==> Rw(l, m, t).term == t && !KidChanged(l, m, t)
  {
  }

  /** No key is its own value. */
  ghost predicate Moving(m: map<Term, Term>) {
    forall k {:trigger m[k]} :: k in m ==> m[k] != k
  }

  ghost predicate HasKey(m: map<Term, Term>, t: Term) {
    exists s {:trigger s in m} {:trigger s in Subterms(t)} :: s in Subterms(t) && s in m
  }

  /** A term changes exactly if one of its subterms is a key. */
  lemma {:induction false} ChangedHasKey(l: Logic, m: map<Term, Term>, t: Term)
    requires Moving(m)
    ensures Rw(l, m, t).changed <==> HasKey(m, t)
    decreases Size(t)
  {
    var cs := Children(t);
    forall i | 0 <= i < |cs| ensures Rw(l, m, cs[i]).changed <==> HasKey(m, cs[i]) {
      ChildIsSmaller(t, cs[i]);
      ChangedHasKey(l, m, cs[i]);
    }
    SubtermsOfChildren(t, t);
    if HasKey(m, t) {
      var s :| s in Subterms(t) && s in m;
      SubtermsOfChildren(t, s);
    }
    if KidChanged(l, m, t) {
      var i :| 0 <= i < |cs| && Rw(l, m, cs[i]).changed;
      var s :| s in Subterms(cs[i]) && s in m;
      SubtermsOfChildren(t, s);
    }
  }

  // ---------------------------------------------------------------------------
  // What rewriting keeps

  /** Keys and values are built, and values have the sorts of their keys. */
  ghost predicate ValuesBuilt(l: Logic, m: map<Term, Term>) {
    forall k {:trigger m[k]} :: k in m ==> Built(l, k) && Built(l, m[k]) && IsBool(l, m[k]) == IsBool(l, k)
  }

  lemma WithSameSorts(l: Logic, t: Term, cs: seq<Term>)
    requires Raw(l, t) && |cs| == |Children(t)|
    requires forall i {:trigger cs[i]} :: 0 <= i < |cs| ==> Built(l, cs[i]) && IsBool(l, cs[i]) == IsBool(l, Children(t)[i])
    ensures Raw(l, WithChildren(t, cs)) && IsBool(l, WithChildren(t, cs)) == IsBool(l, t)
  {
    hide Built;
    var u := WithChildren(t, cs);
    if t.Ite? { assert cs[0] == u.cond && cs[1] == u.tt && cs[2] == u.ff; }
  }

  lemma {:induction false} RwBuilt(l: Logic, m: map<Term, Term>, t: Term)
    requires Simplifies(l) && Built(l, t) && ValuesBuilt(l, m)
    ensures Built(l, Mid(l, m, t)) && IsBool(l, Mid(l, m, t)) == IsBool(l, t)
    ensures Built(l, Rw(l, m, t).term) && IsBool(l, Rw(l, m, t).term) == IsBool(l, t)
    ensures KidChanged(l, m, t) ==> SimplifiedAt(l, WithChildren(t, RwKids(l, m, t)))
    decreases Size(t)
  {
    hide Built, Leaves, SameValue, IsBool, KidChanged;
    BuiltChildren(l, t);
    var cs, ks := Children(t), RwKids(l, m, t);
    forall i {:trigger ks[i]} | 0 <= i < |cs| ensures Built(l, ks[i]) && IsBool(l, ks[i]) == IsBool(l, cs[i]) {
      assert cs[i] in cs;
      ChildIsSmaller(t, cs[i]);
      RwBuilt(l, m, cs[i]);
    }
    WithSameSorts(l, t, ks);
    assert SimplifiedAt(l, WithChildren(t, ks));
  }

  lemma WithLeaves(t: Term, cs: seq<Term>, names: set<Term>)
    requires |cs| == |Children(t)| && cs != []
    requires forall i {:trigger cs[i]} :: 0 <= i < |cs| ==> Leaves(cs[i]) <= names
    ensures Leaves(WithChildren(t, cs)) <= names
  {
    var u := WithChildren(t, cs);
    forall x | x in Leaves(u) ensures x in names {
      LeavesOfChildren(u, x);
      var us := Children(u);
      assert us == cs;
      var i :| 0 <= i < |us| && x in Leaves(us[i]);
      assert x in Leaves(cs[i]);
    }
  }

  /** Variables and elements come from the term or from values. */
  lemma {:induction false} RwLeaves(l: Logic, m: map<Term, Term>, t: Term, names: set<Term>)
    requires Simplifies(l) && Built(l, t) && ValuesBuilt(l, m) && Leaves(t) <= names
    requires forall k {:trigger m[k]} :: k in m ==> Leaves(m[k]) <= names
    ensures Leaves(Rw(l, m, t).term) <= names
    decreases Size(t)
  {
    hide Built, Leaves, SameValue, IsBool;
    RwBuilt(l, m, t);
    BuiltChildren(l, t);
    var cs, ks := Children(t), RwKids(l, m, t);
    forall i {:trigger ks[i]} | 0 <= i < |cs| ensures Leaves(ks[i]) <= names {
      assert cs[i] in cs;
      ChildIsSmaller(t, cs[i]);
      forall x | x in Leaves(cs[i]) ensures x in names { LeavesOfChildren(t, x); }
      RwLeaves(l, m, cs[i], names);
    }
    if KidChanged(l, m, t) {
      WithLeaves(t, ks, names);
    }
  }

  // ---------------------------------------------------------------------------
  // Ranked substitutions

  /** Along a substitution the rank drops from a key to the variable keys its target mentions. */
  ghost predicate RankedBy(m: map<Term, Term>, rank: map<Term, nat>) {
    && m.Keys <= rank.Keys
    && forall k, v {:trigger m[k], rank[v]} :: k in m && v in m && v.Var? && v in Subterms(m[k]) ==> rank[v] < rank[k]
  }

  /** Keys are variables, or compound terms that equal an element. */
  ghost predicate KeysOk(m: map<Term, Term>) {
    forall k {:trigger m[k]} {:trigger k in m} :: k in m && !k.Var? ==> Children(k) != [] && IsElement(m[k])
  }

  ghost predicate Good(l: Logic, m: map<Term, Term>, rank: map<Term, nat>) {
    RankedBy(m, rank) && KeysOk(m) && ValuesBuilt(l, m)
  }

  /** The variable keys in a term have ranks below `r`. */
  ghost predicate Below(m: map<Term, Term>, rank: map<Term, nat>, t: Term, r: int) {
    forall v {:trigger rank[v]} {:trigger v in m} :: v in m && v.Var? && v in rank && v in Leaves(t) ==> rank[v] < r
  }

  lemma GoodMoves(l: Logic, m: map<Term, Term>, rank: map<Term, nat>)
    requires Good(l, m, rank)
    ensures Moving(m)
  {
    forall k | k in m ensures m[k] != k {
      SubtermsOfChildren(k, k);
      var rk, target := rank[k], m[k];
      assert k.Var? && target == k ==> k in Subterms(target);
    }
  }

  lemma BelowChild(m: map<Term, Term>, rank: map<Term, nat>, t: Term, r: int, c: Term)
    requires Below(m, rank, t, r) && c in Children(t)
    ensures Below(m, rank, c, r)
  {
    forall v | v in m && v.Var? && v in rank && v in Leaves(c) ensures rank[v] < r {
      var i :| 0 <= i < |Children(t)| && Children(t)[i] == c;
      LeavesOfChildren(t, v);
    }
  }

  lemma BelowParent(m: map<Term, Term>, rank: map<Term, nat>, t: Term, r: int)
    requires t.Var? ==> t !in m
    requires forall c {:trigger c in Children(t)} :: c in Children(t) ==> Below(m, rank, c, r)
    ensures Below(m, rank, t, r)
  {
    forall v | v in m && v.Var? && v in rank && v in Leaves(t) ensures rank[v] < r {
      LeavesOfChildren(t, v);
      if v != t {
        var i :| 0 <= i < |Children(t)| && v in Leaves(Children(t)[i]);
        assert Children(t)[i] in Children(t);
      }
    }
  }

  lemma BelowLeaves(m: map<Term, Term>, rank: map<Term, nat>, s: Term, t: Term, r: int)
    requires Leaves(s) <= Leaves(t) && Below(m, rank, t, r)
    ensures Below(m, rank, s, r)
  {
  }

  lemma BelowLookup(l: Logic, m: map<Term, Term>, rank: map<Term, nat>, t: Term, r: int)
    requires Good(l, m, rank) && t in m && Below(m, rank, t, r)
    ensures Below(m, rank, m[t], r - 1)
  {
    if t.Var? {
      SubtermsOfChildren(t, t);
      assert t in Leaves(t) && t in rank;
    }
  }

  /** The middle term's variable keys either are the term itself or have lost rank. */
  lemma MidBelow(l: Logic, m: map<Term, Term>, rank: map<Term, nat>, t: Term, r: int)
    requires Simplifies(l) && Built(l, t) && Good(l, m, rank) && Below(m, rank, t, r)
    requires forall i {:trigger RwKids(l, m, t)[i]} :: 0 <= i < |Children(t)| ==> Below(m, rank, RwKids(l, m, t)[i], r - 1)
    ensures Below(m, rank, Mid(l, m, t), r) && (Mid(l, m, t) !in m ==> Below(m, rank, Mid(l, m, t), r - 1))
  {
    hide Built, Leaves, SameValue, IsBool, Below, Good, RankedBy, RwKids;
    RwBuilt(l, m, t) by { assert ValuesBuilt(l, m) by { GoodParts(l, m, rank); } }
    var ks := RwKids(l, m, t);
    if KidChanged(l, m, t) {
      var u := WithChildren(t, ks);
      forall c | c in Children(u) ensures Below(m, rank, c, r - 1) {
        var us := Children(u);
        assert us == ks;
        var i :| 0 <= i < |us| && us[i] == c;
        assert c == ks[i];
      }
      BelowParent(m, rank, u, r - 1);
      BelowLeaves(m, rank, l.simp(u), u, r - 1);
      BelowWeaker(m, rank, l.simp(u), r - 1);
    } else if t !in m {
      forall c | c in Children(t) ensures Below(m, rank, c, r - 1) {
        var i :| 0 <= i < |Children(t)| && Children(t)[i] == c;
        KidSame(l, m, t, i);
        assert c == ks[i];
      }
      BelowParent(m, rank, t, r - 1);
    }
  }

  lemma GoodParts(l: Logic, m: map<Term, Term>, rank: map<Term, nat>)
    requires Good(l, m, rank)
    ensures ValuesBuilt(l, m)
  {
  }

  lemma BelowWeaker(m: map<Term, Term>, rank: map<Term, nat>, t: Term, r: int)
    requires Below(m, rank, t, r)
    ensures Below(m, rank, t, r + 1)
  {
  }

  lemma KidSame(l: Logic, m: map<Term, Term>, t: Term, i: nat)
    requires !KidChanged(l, m, t) && i < |Children(t)|
    ensures RwKids(l, m, t)[i] == Children(t)[i]
  {
    RwUnchanged(l, m, Children(t)[i]);
  }

  /** Rewriting lowers the ranks of the variable keys. */
  lemma {:induction false} RwBelow(l: Logic, m: map<Term, Term>, rank: map<Term, nat>, t: Term, r: int)
    requires Simplifies(l) && Built(l, t) && Good(l, m, rank) && Below(m, rank, t, r)
    ensures Below(m, rank, Mid(l, m, t), r) && Below(m, rank, Rw(l, m, t).term, r - 1)
    decreases Size(t)
  {
    hide Built, Leaves, SameValue, IsBool, Below, Good, RankedBy;
    BuiltChildren(l, t);
    var cs, ks := Children(t), RwKids(l, m, t);
    forall i {:trigger ks[i]} | 0 <= i < |cs| ensures Below(m, rank, ks[i], r - 1) {
      assert cs[i] in cs;
      ChildIsSmaller(t, cs[i]);
      BelowChild(m, rank, t, r, cs[i]);
      RwBelow(l, m, rank, cs[i], r);
    }
    MidBelow(l, m, rank, t, r);
    if Mid(l, m, t) in m {
      BelowLookup(l, m, rank, Mid(l, m, t), r);
    }
  }

  // ---------------------------------------------------------------------------
  // Meaning

  /** The substitutions of lower rank, and those of compound terms, hold. */
  ghost predicate SatBelow(v: Model, m: map<Term, Term>, rank: map<Term, nat>, r: int) {
    forall k {:trigger m[k]} :: k in m && k in rank && (k.Var? ==> rank[k] < r) ==> Eval(v, k) == Eval(v, m[k])
  }

  lemma EvalChildren(v: Model, t: Term, cs: seq<Term>)
    requires v.ites.Defined? && |cs| == |Children(t)|
    requires forall i {:trigger cs[i]} :: 0 <= i < |cs| ==> Eval(v, cs[i]) == Eval(v, Children(t)[i])
    ensures Eval(v, WithChildren(t, cs)) == Eval(v, t)
  {
    match t
    case Var(_) =>
    case App(op, args) =>
      assert Values(v, cs) == Values(v, args);
      EvalApp(v, op, args);
      EvalApp(v, op, cs);
    case Ite(c, a, b) =>
      assert cs[0] == cs[0] && cs[1] == cs[1] && cs[2] == cs[2];
  }

  /** Rewriting keeps the value in every model of the substitutions it can reach. */
  lemma {:induction false} RwMeans(l: Logic, m: map<Term, Term>, rank: map<Term, nat>, t: Term, r: int, v: Model)
    requires Simplifies(l) && Built(l, t) && Good(l, m, rank) && Below(m, rank, t, r) && Fair(l, v) && SatBelow(v, m, rank, r)
    ensures Eval(v, Rw(l, m, t).term) == Eval(v, t)
    decreases Size(t)
  {
    hide Built, Leaves, IsBool, Below, RankedBy;
    BuiltChildren(l, t);
    var cs, ks := Children(t), RwKids(l, m, t);
    forall i {:trigger ks[i]} | 0 <= i < |cs| ensures Eval(v, ks[i]) == Eval(v, cs[i]) {
      assert cs[i] in cs;
      ChildIsSmaller(t, cs[i]);
      BelowChild(m, rank, t, r, cs[i]);
      RwMeans(l, m, rank, cs[i], r, v);
    }
    RwBuilt(l, m, t);
    EvalChildren(v, t, ks);
    RwBelow(l, m, rank, t, r);
    var mid := Mid(l, m, t);
    MidMeans(l, m, t, v);
    if mid in m {
      KeyBelow(l, m, rank, mid, r);
    }
  }

  lemma MidMeans(l: Logic, m: map<Term, Term>, t: Term, v: Model)
    requires KidChanged(l, m, t) ==> SimplifiedAt(l, WithChildren(t, RwKids(l, m, t)))
    requires Fair(l, v) && Eval(v, WithChildren(t, RwKids(l, m, t))) == Eval(v, t)
    ensures Eval(v, Mid(l, m, t)) == Eval(v, t)
  {
    hide Built, Leaves, IsBool, Fair, Formed;
    if KidChanged(l, m, t) {
      var u := WithChildren(t, RwKids(l, m, t));
      assert SameValue(l, l.simp(u), u);
    }
  }

  lemma KeyBelow(l: Logic, m: map<Term, Term>, rank: map<Term, nat>, k: Term, r: int)
    requires k in m && Good(l, m, rank) && Below(m, rank, k, r)
    ensures k in rank && (k.Var? ==> rank[k] < r)
  {
    SubtermsOfChildren(k, k);
    if k.Var? { assert k in Leaves(k); }
  }

  // ---------------------------------------------------------------------------
  // Size

  /** Without variable keys a term does not grow, and shrinks if it changes. */
  lemma {:induction false} RwShrinks(l: Logic, m: map<Term, Term>, rank: map<Term, nat>, t: Term)
    requires Simplifies(l) && Built(l, t) && Good(l, m, rank) && Below(m, rank, t, 0)
    ensures Size(Rw(l, m, t).term) <= Size(t) && (Rw(l, m, t).changed ==> Size(Rw(l, m, t).term) < Size(t))
    decreases Size(t)
  {
    hide Built, Leaves, IsBool, Below, RankedBy, SameValue;
    BuiltChildren(l, t);
    var cs, ks := Children(t), RwKids(l, m, t);
    forall i {:trigger ks[i]} {:trigger cs[i]} | 0 <= i < |cs|
      ensures Size(ks[i]) <= Size(cs[i]) && (Rw(l, m, cs[i]).changed ==> Size(ks[i]) < Size(cs[i]))
    {
      assert cs[i] in cs;
      ChildIsSmaller(t, cs[i]);
      BelowChild(m, rank, t, 0, cs[i]);
      RwShrinks(l, m, rank, cs[i]);
    }
    RwBuilt(l, m, t) by { GoodParts(l, m, rank); }
    RwBelow(l, m, rank, t, 0);
    MidShrinks(l, m, t);
    LookupShrinks(l, m, rank, Mid(l, m, t));
  }

  lemma MidShrinks(l: Logic, m: map<Term, Term>, t: Term)
    requires KidChanged(l, m, t) ==> SimplifiedAt(l, WithChildren(t, RwKids(l, m, t)))
    requires forall i {:trigger RwKids(l, m, t)[i]} :: 0 <= i < |Children(t)| ==>
      Size(RwKids(l, m, t)[i]) <= Size(Children(t)[i]) && (Rw(l, m, Children(t)[i]).changed ==> Size(RwKids(l, m, t)[i]) < Size(Children(t)[i]))
    ensures Size(Mid(l, m, t)) <= Size(t) && (KidChanged(l, m, t) ==> Size(Mid(l, m, t)) < Size(t))
  {
    hide Built, Leaves, IsBool, SameValue, RwKids, WithChildren, Rw;
    var cs, ks := Children(t), RwKids(l, m, t);
    if KidChanged(l, m, t) {
      var i :| 0 <= i < |cs| && Rw(l, m, cs[i]).changed;
      assert Size(ks[i]) < Size(cs[i]);
      SizeAllPointwise(ks, cs, true);
      ChildrenReplaced(t, ks);
      SizeOfChildren(t);
      SizeOfChildren(WithChildren(t, ks));
    }
  }

  lemma ChildrenReplaced(t: Term, cs: seq<Term>)
    requires |cs| == |Children(t)|
    ensures Children(WithChildren(t, cs)) == cs
  {
  }

  lemma LookupShrinks(l: Logic, m: map<Term, Term>, rank: map<Term, nat>, t: Term)
    requires Good(l, m, rank) && Below(m, rank, t, 0)
    ensures t in m ==> Size(m[t]) < Size(t)
  {
    if t in m {
      KeyBelow(l, m, rank, t, 0);
      if !t.Var? {
        SizeOfChildren(t);
        SizeOfChildren(m[t]);
        SizeOfChildren(Children(t)[0]);
      }
    }
  }

  // ---------------------------------------------------------------------------
  // Rewriting with a stack

  /** The table holds the rewritten form of every marked term that changed. */
  ghost predicate TableOk(l: Logic, m: map<Term, Term>, marked: set<Term>, table: map<Term, Term>) {
    && (forall t {:trigger t in table} :: t in table ==> t in marked)
    && forall t {:trigger Rw(l, m, t)} {:trigger t in marked} :: t in marked ==>
         (t in table <==> Rw(l, m, t).changed) && (t in table ==> table[t] == Rw(l, m, t).term)
  }

  /** All children of the finished entry are marked, so its new arguments are its rewritten children. */
  lemma KidsReady(l: Logic, m: map<Term, Term>, marked: set<Term>, table: map<Term, Term>, t: Term, needsChange: bool, args: seq<Term>)
    requires TableOk(l, m, marked, table) && |args| == |Children(t)|
    requires forall j {:trigger Children(t)[j]} :: 0 <= j < |Children(t)| ==> Children(t)[j] in marked
    requires forall j {:trigger args[j]} {:trigger Children(t)[j]} :: 0 <= j < |args| ==> args[j] == if Children(t)[j] in table then table[Children(t)[j]] else Children(t)[j]
    requires needsChange <==> exists j :: 0 <= j < |args| && Children(t)[j] in table
    ensures args == RwKids(l, m, t) && (needsChange <==> KidChanged(l, m, t))
  {
    var cs, ks := Children(t), RwKids(l, m, t);
    forall j | 0 <= j < |args| ensures args[j] == ks[j] && (cs[j] in table <==> Rw(l, m, cs[j]).changed) {
      assert cs[j] in marked;
      RwUnchanged(l, m, cs[j]);
    }
  }

  /** The substitutor: every subterm is rewritten once, after its children. */
  method Rewrite(l: Logic, m: map<Term, Term>, root: Term) returns (res: Term)
    ensures res == Rw(l, m, root).term
  {
    hide Rw, RwKids, Mid, KidChanged, TableOk, StackOk, WorkLeft;
    if root.Var? {
      RwOfVar(l, m, root);
      return if root in m then m[root] else root;
    }
    var table: map<Term, Term> := map[];
    var marked: set<Term> := {};
    var stack := [Entry(root, 0)];
    StartTable(l, m, stack);
    while stack != []
      invariant TableOk(l, m, marked, table) && StackOk(stack, marked)
      invariant if stack == [] then root in marked else stack[0].term == root
      decreases WorkLeft(stack)
    {
      var top := |stack| - 1;
      var e := stack[top];
      TopOk(stack, marked);
      if e.next < |Children(e.term)| {
        var c := Children(e.term)[e.next];
        ghost var stack0 := stack;
        stack := stack[top := Entry(e.term, e.next + 1)] + if c in marked then [] else [Entry(c, 0)];
        NextEntry(stack0, marked, e, stack);
        continue;
      }
      var needsChange, args := NewArguments(e.term, table);
      KidsReady(l, m, marked, table, e.term, needsChange, args);
      var newTerm := if needsChange then l.simp(WithChildren(e.term, args)) else e.term;
      var rewritten := if newTerm in m then m[newTerm] else newTerm;
      RwFrom(l, m, e.term, newTerm, rewritten);
      TableMore(l, m, marked, table, e.term, rewritten, rewritten != newTerm || needsChange);
      PopEntry(stack, marked);
      if rewritten != newTerm || needsChange {
        table := table[e.term := rewritten];
      }
      marked := marked + {e.term};
      stack := stack[..top];
    }
    res := if root in table then table[root] else root;
    TableAt(l, m, marked, table, root);
    RwUnchanged(l, m, root);
  }

  method NewArguments(t: Term, table: map<Term, Term>) returns (needsChange: bool, args: seq<Term>)
    ensures |args| == |Children(t)|
    ensures forall j {:trigger args[j]} {:trigger Children(t)[j]} :: 0 <= j < |args| ==> args[j] == if Children(t)[j] in table then table[Children(t)[j]] else Children(t)[j]
    ensures needsChange <==> exists j :: 0 <= j < |args| && Children(t)[j] in table
  {
    needsChange, args := false, [];
    var cs := Children(t);
    for i := 0 to |cs|
      invariant |args| == i && forall j {:trigger args[j]} :: 0 <= j < i ==> args[j] == if cs[j] in table then table[cs[j]] else cs[j]
      invariant needsChange <==> exists j :: 0 <= j < i && cs[j] in table
    {
      needsChange := needsChange || cs[i] in table;
      args := args + [if cs[i] in table then table[cs[i]] else cs[i]];
    }
  }

  lemma RwOfVar(l: Logic, m: map<Term, Term>, t: Term)
    requires t.Var?
    ensures Rw(l, m, t).term == if t in m then m[t] else t
  {
    assert !KidChanged(l, m, t);
  }

  lemma StartTable(l: Logic, m: map<Term, Term>, stack: seq<Entry>)
    requires |stack| == 1 && stack[0].next == 0
    ensures TableOk(l, m, {}, map[]) && StackOk(stack, {})
  {
  }

  lemma RwFrom(l: Logic, m: map<Term, Term>, t: Term, mid: Term, res: Term)
    requires mid == if KidChanged(l, m, t) then l.simp(WithChildren(t, RwKids(l, m, t))) else t
    requires res == if mid in m then m[mid] else mid
    ensures Rw(l, m, t) == Rewriting(res != mid || KidChanged(l, m, t), res)
  {
  }

  lemma TableMore(l: Logic, m: map<Term, Term>, marked: set<Term>, table: map<Term, Term>, t: Term, res: Term, changed: bool)
    requires TableOk(l, m, marked, table) && t !in marked && Rw(l, m, t) == Rewriting(changed, res)
    ensures TableOk(l, m, marked + {t}, if changed then table[t := res] else table)
  {
    hide Rw;
  }

  lemma TableAt(l: Logic, m: map<Term, Term>, marked: set<Term>, table: map<Term, Term>, t: Term)
    requires TableOk(l, m, marked, table) && t in marked
    ensures (t in table <==> Rw(l, m, t).changed) && (t in table ==> table[t] == Rw(l, m, t).term)
  {
    hide Rw;
  }
}
