/** The tree a function's table is kept in while a model is built: one level for each argument, one branch for
    each value met, and at the ends the values of the function. */
module ValuationTrees {

  /** A term as far as it matters here: nothing, a formal argument, or a constant. */
  datatype Atom = Undef | Formal(num: nat) | Const(c: nat)

  type Sym = nat

  class ValuationNode {
    const id: nat
    /** The value of the parent's variable this branch is for. */
    const value: Atom
    /** The argument the children tell apart; at a leaf, the function's value. */
    const variable: Atom
    ghost const sym: Sym
    ghost const path: seq<Atom>
    var children: seq<ValuationNode>

    constructor (id: nat, variable: Atom, value: Atom, ghost sym: Sym, ghost path: seq<Atom>)
      ensures this.id == id && this.variable == variable && this.value == value && children == []
      ensures this.sym == sym && this.path == path
    {
      this.id, this.variable, this.value, this.sym, this.path, this.children := id, variable, value, sym, path, [];
    }
  }

  /** The children of all nodes. */
  type Kids = map<ValuationNode, seq<ValuationNode>>

  datatype Found = Nowhere | Node(n: ValuationNode)

  /** The position of the first child for a value. */
  function Find(cs: seq<ValuationNode>, v: Atom): (i: nat)
    ensures i <= |cs| && (i < |cs| ==> cs[i].value == v) && forall j {:trigger cs[j]} :: 0 <= j < i ==> cs[j].value != v
  {
    if cs == [] || cs[0].value == v then 0 else 1 + Find(cs[1..], v)
  }

  lemma {:induction false} FindMore(cs: seq<ValuationNode>, c: ValuationNode, v: Atom)
    ensures Find(cs + [c], v) == if Find(cs, v) < |cs| then Find(cs, v) else if c.value == v then |cs| else |cs| + 1
  {
    if cs != [] && cs[0].value != v {
      assert (cs + [c])[1..] == cs[1..] + [c];
      FindMore(cs[1..], c, v);
    }
  }

  /** Where the values lead. */
  ghost function Walk(k: Kids, n: ValuationNode, t: seq<Atom>): Found
    decreases |t|
  {
    if t == [] then Node(n)
    else if n !in k || Find(k[n], t[0]) == |k[n]| then Nowhere
    else Walk(k, k[n][Find(k[n], t[0])], t[1..])
  }

  /** `c` was added under `cur`, for a value that had no child there. */
  ghost predicate Grown(k: Kids, k': Kids, cur: ValuationNode, c: ValuationNode) {
    && cur in k && c !in k && c != cur && k' == k[cur := k[cur] + [c]][c := []]
    && Find(k[cur], c.value) == |k[cur]|
    && forall n, m {:trigger m in k[n]} :: n in k && m in k[n] ==> m in k
  }

  /** Only the walk that ends with the new branch changes. */
  lemma {:induction false} GrownWalk(k: Kids, k': Kids, cur: ValuationNode, c: ValuationNode, n: ValuationNode, t: seq<Atom>)
    requires Grown(k, k', cur, c) && n in k
    ensures Walk(k', n, t) ==
            if Walk(k, n, t).Node? then Walk(k, n, t)
            else if t != [] && t[|t| - 1] == c.value && Walk(k, n, t[..|t| - 1]) == Node(cur) then Node(c)
            else Nowhere
    decreases |t|
  {
    if t != [] {
      var i := Find(k[n], t[0]);
      if n == cur { FindMore(k[n], c, t[0]); }
      if i < |k[n]| {
        assert k'[n][Find(k'[n], t[0])] == k[n][i] && k[n][i] in k[n];
        GrownWalk(k, k', cur, c, k[n][i], t[1..]);
        if |t| > 1 {
          assert t[1..][..|t| - 2] == t[..|t| - 1][1..];
          assert Walk(k, n, t[..|t| - 1]) == Walk(k, k[n][i], t[..|t| - 1][1..]);
        } else {
          assert Walk(k, n, t) == Node(k[n][i]);
        }
      } else if |t| == 1 {
        assert t[..|t| - 1] == [];
      } else {
        assert Walk(k, n, t[..|t| - 1]) == Nowhere;
      }
    }
  }

  // ---------------------------------------------------------------------------
  // Function bodies

  /** Nested if-then-elses on equalities between a formal argument and a constant. */
  datatype Body = Value(a: Atom) | Ite(x: Atom, v: Atom, tt: Body, ff: Body)

  /** What `x` stands for when `t` are the arguments. */
  function Env(formals: seq<Atom>, t: seq<Atom>, x: Atom): Atom
    requires |t| == |formals|
  {
    if formals == [] then x else if formals[0] == x then t[0] else Env(formals[1..], t[1..], x)
  }

  function Eval(b: Body, formals: seq<Atom>, t: seq<Atom>): Atom
    requires |t| == |formals|
  {
    match b
    case Value(a) => a
    case Ite(x, v, tt, ff) => if Env(formals, t, x) == v then Eval(tt, formals, t) else Eval(ff, formals, t)
  }

  predicate Distinct(xs: seq<Atom>) {
    forall i, j :: 0 <= i < j < |xs| ==> xs[i] != xs[j]
  }

  lemma {:induction false} EnvAt(formals: seq<Atom>, t: seq<Atom>, j: nat)
    requires |t| == |formals| && j < |t| && Distinct(formals)
    ensures Env(formals, t, formals[j]) == t[j]
  {
    if j > 0 { EnvAt(formals[1..], t[1..], j - 1); }
  }

  /** The body for a node: its children's bodies, the first one outermost, and the default at the end. */
  ghost function BodyOf(k: Kids, n: ValuationNode, depth: nat, default: Atom): Body
    decreases depth, 1, 0
  {
    if n !in k || k[n] == [] || depth == 0 then Value(n.variable) else Chain(k, n.variable, k[n], depth - 1, default)
  }

  ghost function Chain(k: Kids, x: Atom, cs: seq<ValuationNode>, depth: nat, default: Atom): Body
    decreases depth, 2, |cs|
  {
    if cs == [] then Value(default) else Ite(x, cs[0].value, BodyOf(k, cs[0], depth, default), Chain(k, x, cs[1..], depth, default))
  }

  lemma {:induction false} ChainPicks(k: Kids, x: Atom, cs: seq<ValuationNode>, depth: nat, default: Atom, formals: seq<Atom>, t: seq<Atom>)
    requires |t| == |formals|
    ensures var i := Find(cs, Env(formals, t, x));
            Eval(Chain(k, x, cs, depth, default), formals, t) == if i == |cs| then default else Eval(BodyOf(k, cs[i], depth, default), formals, t)
  {
    if cs != [] { ChainPicks(k, x, cs[1..], depth, default, formals, t); }
  }

  /** Children carry on their parent's path; above the leaves a node tells its level's argument apart. */
  ghost predicate NodeOk(k: Kids, formals: map<Sym, seq<Atom>>, n: ValuationNode)
    requires n in k
  {
    && n.sym in formals && |n.path| <= |formals[n.sym]|
    && (forall c {:trigger c in k[n]} :: c in k[n] ==> c in k && c.sym == n.sym && c.path == n.path + [c.value])
    && (if |n.path| < |formals[n.sym]| then n.variable == formals[n.sym][|n.path|] else k[n] == [])
  }

  ghost predicate Layered(k: Kids, formals: map<Sym, seq<Atom>>) {
    forall n {:trigger NodeOk(k, formals, n)} {:trigger k[n]} :: n in k ==> NodeOk(k, formals, n)
  }

  /** Only leaves are without children, but for `open`. */
  ghost predicate Filled(k: Kids, formals: map<Sym, seq<Atom>>, open: set<ValuationNode>) {
    forall n {:trigger k[n]} :: n in k && n !in open && n.sym in formals && |n.path| < |formals[n.sym]| ==> k[n] != []
  }

  ghost function Told(w: Found, default: Atom): Atom {
    if w.Node? then w.n.variable else default
  }

  /** A body has the value the walk along the arguments leads to, and the default if it leads nowhere. */
  lemma {:induction false} BodyMeans(k: Kids, formals: map<Sym, seq<Atom>>, n: ValuationNode, default: Atom, t: seq<Atom>)
    requires Layered(k, formals) && Filled(k, formals, {}) && n in k && n.sym in formals && Distinct(formals[n.sym])
    requires |t| == |formals[n.sym]| && |n.path| <= |t|
    ensures Eval(BodyOf(k, n, |t| - |n.path|, default), formals[n.sym], t) == Told(Walk(k, n, t[|n.path|..]), default)
    decreases |t| - |n.path|
  {
    var fs, d := formals[n.sym], |n.path|;
    assert NodeOk(k, formals, n);
    if d < |t| {
      var i := Find(k[n], t[d]);
      EnvAt(fs, t, d);
      ChainPicks(k, n.variable, k[n], |t| - d - 1, default, fs, t);
      assert t[d..][1..] == t[d + 1..];
      if i < |k[n]| {
        var c := k[n][i];
        assert c in k[n];
        BodyMeans(k, formals, c, default, t);
      }
    }
  }
}
