/** The model builder: tables of functions are kept as valuation trees and turned into function bodies. */
module ModelBuilders {
  import opened ValuationTrees

  datatype Entry = Entry(args: seq<Atom>, value: Atom)

  datatype Definition = Definition(formals: seq<Atom>, root: ValuationNode?)

  datatype TemplateFunction = TemplateFunction(formals: seq<Atom>, body: Body)

  // ---------------------------------------------------------------------------
  // Walks

  lemma {:induction false} WalkFacts(k: Kids, formals: map<Sym, seq<Atom>>, n: ValuationNode, t: seq<Atom>)
    requires Layered(k, formals) && n in k && Walk(k, n, t).Node?
    ensures var m := Walk(k, n, t).n; m in k && m.sym == n.sym && m.path == n.path + t
    decreases |t|
  {
    if t == [] {
      assert n.path + t == n.path;
    } else {
      assert NodeOk(k, formals, n);
      var c := k[n][Find(k[n], t[0])];
      assert c in k[n];
      WalkFacts(k, formals, c, t[1..]);
      assert n.path + t == n.path + [t[0]] + t[1..];
    }
  }

  lemma {:induction false} WalkOn(k: Kids, n: ValuationNode, t: seq<Atom>, v: Atom)
    requires Walk(k, n, t).Node?
    ensures Walk(k, n, t + [v]) == Walk(k, Walk(k, n, t).n, [v])
    decreases |t|
  {
    if t == [] {
      assert t + [v] == [v];
    } else {
      assert (t + [v])[1..] == t[1..] + [v];
      WalkOn(k, k[n][Find(k[n], t[0])], t[1..], v);
    }
  }

  // ---------------------------------------------------------------------------
  // Adding one entry

  ghost predicate Adding(k0: Kids, k: Kids, formals: map<Sym, seq<Atom>>, r: ValuationNode, vals: seq<Atom>, value: Atom, i: nat, cur: ValuationNode) {
    && r in k0 && r.path == [] && r.sym in formals && |formals[r.sym]| == |vals| && i <= |vals|
    && Layered(k, formals) && Filled(k, formals, {cur}) && (forall n {:trigger n in k0} :: n in k0 ==> n in k)
    && Walk(k, r, vals[..i]) == Node(cur)
    && (forall t {:trigger Walk(k, r, t)} :: |t| == |vals| ==>
          Walk(k, r, t) == if Walk(k0, r, t).Node? then Walk(k0, r, t) else if i == |vals| && t == vals then Node(cur) else Nowhere)
    && (i == |vals| && Walk(k0, r, vals) == Nowhere ==> cur.variable == value)
    && (forall m, t {:trigger Walk(k, m, t)} :: m in k0 && m.sym != r.sym ==> Walk(k, m, t) == Walk(k0, m, t))
  }

  /** A child for the value is there. */
  lemma StepDown(k0: Kids, k: Kids, formals: map<Sym, seq<Atom>>, r: ValuationNode, vals: seq<Atom>, value: Atom, i: nat, cur: ValuationNode)
    requires Adding(k0, k, formals, r, vals, value, i, cur) && i < |vals|
    ensures cur in k && Find(k[cur], vals[i]) <= |k[cur]|
    ensures forall n, m {:trigger m in k[n]} :: n in k && m in k[n] ==> m in k
    ensures Find(k[cur], vals[i]) < |k[cur]| ==> Adding(k0, k, formals, r, vals, value, i + 1, k[cur][Find(k[cur], vals[i])])
  {
    WalkFacts(k, formals, r, vals[..i]);
    forall n, m {:trigger m in k[n]} | n in k && m in k[n] ensures m in k { assert NodeOk(k, formals, n); }
    var j := Find(k[cur], vals[i]);
    if j < |k[cur]| {
      WalkOn(k, r, vals[..i], vals[i]);
      assert vals[..i] + [vals[i]] == vals[..i + 1];
      assert Walk(k, cur, [vals[i]]) == Node(k[cur][j]);
      assert i + 1 == |vals| ==> vals[..i + 1] == vals;
    }
  }

  /** The new node fits into its level. */
  lemma NewLayered(k: Kids, k': Kids, formals: map<Sym, seq<Atom>>, cur: ValuationNode, c: ValuationNode)
    requires Layered(k, formals) && Filled(k, formals, {cur}) && Grown(k, k', cur, c) && cur.sym in formals && |cur.path| < |formals[cur.sym]|
    requires c.sym == cur.sym && c.path == cur.path + [c.value]
    requires |c.path| < |formals[c.sym]| ==> c.variable == formals[c.sym][|c.path|]
    ensures Layered(k', formals) && Filled(k', formals, {c})
  {
    forall n | n in k' ensures NodeOk(k', formals, n) {
      if n != c { assert NodeOk(k, formals, n); }
    }
  }

  /** The walk to the new node. */
  lemma NewWalk(k: Kids, k': Kids, formals: map<Sym, seq<Atom>>, r: ValuationNode, vals: seq<Atom>, i: nat, cur: ValuationNode, c: ValuationNode)
    requires Layered(k, formals) && r in k && r.path == [] && i < |vals| && Walk(k, r, vals[..i]) == Node(cur)
    requires Grown(k, k', cur, c) && c.value == vals[i]
    ensures Walk(k, r, vals[..i + 1]) == Nowhere && Walk(k', r, vals[..i + 1]) == Node(c)
    ensures forall t {:trigger Walk(k', r, t)} :: Walk(k', r, t) == if t == vals[..i + 1] then Node(c) else Walk(k, r, t)
  {
    var p := vals[..i + 1];
    assert p[..i] == vals[..i] && p == vals[..i] + [vals[i]];
    WalkOn(k, r, vals[..i], vals[i]);
    WalkFacts(k, formals, r, vals[..i]);
    forall t ensures Walk(k', r, t) == if t == p then Node(c) else Walk(k, r, t) {
      GrownWalk(k, k', cur, c, r, t);
      if t != [] && Walk(k, r, t[..|t| - 1]) == Node(cur) {
        WalkFacts(k, formals, r, t[..|t| - 1]);
        assert r.path + t[..|t| - 1] == t[..|t| - 1] && r.path + vals[..i] == vals[..i];
        assert t == t[..|t| - 1] + [t[|t| - 1]];
      }
      assert p[..|p| - 1] == vals[..i];
    }
  }

  /** Nothing changes for other functions. */
  lemma OtherWalk(k: Kids, k': Kids, formals: map<Sym, seq<Atom>>, cur: ValuationNode, c: ValuationNode, m: ValuationNode, t: seq<Atom>)
    requires Layered(k, formals) && m in k && Grown(k, k', cur, c) && m.sym != cur.sym
    ensures Walk(k', m, t) == Walk(k, m, t)
  {
    GrownWalk(k, k', cur, c, m, t);
    if t != [] && Walk(k, m, t[..|t| - 1]).Node? {
      WalkFacts(k, formals, m, t[..|t| - 1]);
    }
  }

  /** A new child is made. */
  lemma StepNew(k0: Kids, k: Kids, k': Kids, formals: map<Sym, seq<Atom>>, r: ValuationNode, vals: seq<Atom>, value: Atom, i: nat, cur: ValuationNode, c: ValuationNode)
    requires Adding(k0, k, formals, r, vals, value, i, cur) && i < |vals| && Grown(k, k', cur, c)
    requires c.sym == r.sym && c.path == vals[..i + 1] && c.value == vals[i]
    requires c.variable == if i + 1 == |vals| then value else formals[r.sym][i + 1]
    ensures Adding(k0, k', formals, r, vals, value, i + 1, c)
  {
    hide Layered, Filled, Grown, Walk;
    WalkFacts(k, formals, r, vals[..i]);
    assert c.path == cur.path + [c.value];
    NewLayered(k, k', formals, cur, c);
    NewWalk(k, k', formals, r, vals, i, cur, c);
    GrownKeys(k, k', cur, c);
    assert i + 1 == |vals| ==> vals[..i + 1] == vals;
    forall m, t {:trigger Walk(k', m, t)} | m in k0 && m.sym != r.sym ensures Walk(k', m, t) == Walk(k0, m, t) {
      OtherWalk(k, k', formals, cur, c, m, t);
    }
  }

  lemma GrownKeys(k: Kids, k': Kids, cur: ValuationNode, c: ValuationNode)
    requires Grown(k, k', cur, c)
    ensures forall n {:trigger n in k} :: n in k ==> n in k'
  {
  }

  // ---------------------------------------------------------------------------
  // Tables

  datatype Answer = None | Some(a: Atom)

  /** The first value recorded for the arguments. */
  function First(es: seq<Entry>, t: seq<Atom>): Answer {
    if es == [] then None else if es[0].args == t then Some(es[0].value) else First(es[1..], t)
  }

  lemma {:induction false} FirstMore(es: seq<Entry>, e: Entry, t: seq<Atom>)
    ensures First(es + [e], t) == if First(es, t) == None && e.args == t then Some(e.value) else First(es, t)
  {
    if es != [] {
      assert (es + [e])[1..] == es[1..] + [e];
      FirstMore(es[1..], e, t);
    }
  }

  ghost function Reached(w: Found): Answer {
    if w.Node? then Some(w.n.variable) else None
  }

  /** The tree at `r` has the table's entries: walking along arguments one finds the first value recorded for them. */
  ghost predicate Holds(k: Kids, r: ValuationNode, n: nat, es: seq<Entry>) {
    forall t {:trigger Walk(k, r, t)} :: |t| == n ==> Reached(Walk(k, r, t)) == First(es, t)
  }

  lemma HoldsMore(k0: Kids, k: Kids, formals: map<Sym, seq<Atom>>, r: ValuationNode, vals: seq<Atom>, value: Atom, leaf: ValuationNode, es: seq<Entry>)
    requires Adding(k0, k, formals, r, vals, value, |vals|, leaf) && Holds(k0, r, |vals|, es)
    ensures Holds(k, r, |vals|, es + [Entry(vals, value)])
  {
    hide Layered, Filled, First, Walk;
    forall t {:trigger Walk(k, r, t)} | |t| == |vals| ensures Reached(Walk(k, r, t)) == First(es + [Entry(vals, value)], t) {
      FirstMore(es, Entry(vals, value), t);
      assert Reached(Walk(k0, r, t)) == First(es, t);
    }
  }

  /** A function's body, evaluated at arguments, has the first value recorded for them, or the default. */
  function Or(x: Answer, default: Atom): Atom {
    if x.Some? then x.a else default
  }

  lemma BodyHolds(k: Kids, formals: map<Sym, seq<Atom>>, r: ValuationNode, default: Atom, es: seq<Entry>, t: seq<Atom>)
    requires Layered(k, formals) && Filled(k, formals, {}) && r in k && r.sym in formals && Distinct(formals[r.sym]) && r.path == []
    requires |t| == |formals[r.sym]| && Holds(k, r, |t|, es)
    ensures Eval(BodyOf(k, r, |t|, default), formals[r.sym], t) == Or(First(es, t), default)
  {
    BodyMeans(k, formals, r, default, t);
    assert t[0..] == t && Reached(Walk(k, r, t)) == First(es, t);
  }

  /** A tree for a function without entries. */
  lemma NewRoot(k: Kids, formals: map<Sym, seq<Atom>>, r: ValuationNode, vals: seq<Atom>, value: Atom)
    requires Layered(k, formals) && Filled(k, formals, {}) && r !in k
    requires r.path == [] && r.sym in formals && |formals[r.sym]| == |vals| > 0 && r.variable == formals[r.sym][0]
    ensures Adding(k[r := []], k[r := []], formals, r, vals, value, 0, r) && Holds(k[r := []], r, |vals|, [])
    ensures forall m, t {:trigger Walk(k[r := []], m, t)} :: m in k ==> Walk(k[r := []], m, t) == Walk(k, m, t)
  {
    var k' := k[r := []];
    forall n | n in k' ensures NodeOk(k', formals, n) {
      if n != r { assert NodeOk(k, formals, n); }
    }
    forall m, t {:trigger Walk(k', m, t)} | m in k ensures Walk(k', m, t) == Walk(k, m, t) { Elsewhere(k, formals, r, m, t); }
    assert vals[..0] == [];
  }

  lemma {:induction false} Elsewhere(k: Kids, formals: map<Sym, seq<Atom>>, r: ValuationNode, m: ValuationNode, t: seq<Atom>)
    requires Layered(k, formals) && r !in k && m in k
    ensures Walk(k[r := []], m, t) == Walk(k, m, t)
    decreases |t|
  {
    if t != [] && Find(k[m], t[0]) < |k[m]| {
      assert NodeOk(k, formals, m) && k[m][Find(k[m], t[0])] in k[m];
      Elsewhere(k, formals, r, k[m][Find(k[m], t[0])], t[1..]);
    }
  }

  lemma StartAdding(k: Kids, formals: map<Sym, seq<Atom>>, r: ValuationNode, vals: seq<Atom>, value: Atom)
    requires Layered(k, formals) && Filled(k, formals, {}) && r in k && r.path == [] && r.sym in formals && |formals[r.sym]| == |vals| > 0
    ensures Adding(k, k, formals, r, vals, value, 0, r)
  {
    assert vals[..0] == [];
  }

  lemma EndAdding(k0: Kids, k: Kids, formals: map<Sym, seq<Atom>>, r: ValuationNode, vals: seq<Atom>, value: Atom, leaf: ValuationNode)
    requires Adding(k0, k, formals, r, vals, value, |vals|, leaf)
    ensures Layered(k, formals) && Filled(k, formals, {})
  {
    WalkFacts(k, formals, r, vals[..|vals|]);
  }

  /** A function without nodes may get formal arguments. */
  lemma MoreFormals(k: Kids, formals: map<Sym, seq<Atom>>, s: Sym, fs: seq<Atom>)
    requires Layered(k, formals) && Filled(k, formals, {}) && s !in formals
    ensures Layered(k, formals[s := fs]) && Filled(k, formals[s := fs], {})
  {
    forall n | n in k ensures NodeOk(k, formals[s := fs], n) { assert NodeOk(k, formals, n); }
  }

  /** The other functions' tables. */
  lemma OthersHold(k0: Kids, k1: Kids, k: Kids, formals: map<Sym, seq<Atom>>, r: ValuationNode, vals: seq<Atom>, value: Atom, leaf: ValuationNode, m: ValuationNode, n: nat, es: seq<Entry>)
    requires Adding(k1, k, formals, r, vals, value, |vals|, leaf) && m in k1 && m.sym != r.sym && Holds(k0, m, n, es)
    requires forall t {:trigger Walk(k1, m, t)} :: Walk(k1, m, t) == Walk(k0, m, t)
    ensures Holds(k, m, n, es)
  {
    hide Layered, Filled, Walk;
    forall t {:trigger Walk(k, m, t)} | |t| == n ensures Reached(Walk(k, m, t)) == First(es, t) {
      assert Walk(k, m, t) == Walk(k1, m, t) == Walk(k0, m, t);
    }
  }

  ghost function FormalsOf(definitions: map<Sym, Definition>): map<Sym, seq<Atom>> {
    map s | s in definitions :: definitions[s].formals
  }

  lemma SameFormals(definitions: map<Sym, Definition>, s: Sym, r: ValuationNode)
    requires s in definitions
    ensures FormalsOf(definitions[s := Definition(definitions[s].formals, r)]) == FormalsOf(definitions)
  {
  }

  predicate FormalsOk(fs: seq<Atom>, bound: nat) {
    Distinct(fs) && forall x {:trigger x in fs} :: x in fs ==> x.Formal? && x.num < bound
  }

  ghost predicate DefinitionOk(k: Kids, s: Sym, d: Definition, n: nat, bound: nat, es: seq<Entry>) {
    && d.root != null && d.root in k && d.root.sym == s && d.root.path == []
    && |d.formals| == n > 0 && FormalsOk(d.formals, bound) && Holds(k, d.root, n, es)
  }

  ghost predicate AllOk(k: Kids, arity: Sym -> nat, definitions: map<Sym, Definition>, bound: nat, table: map<Sym, seq<Entry>>) {
    && table.Keys == definitions.Keys
    && forall s {:trigger definitions[s]} {:trigger s in definitions} :: s in definitions ==>
         DefinitionOk(k, s, definitions[s], arity(s), bound, table[s])
  }

  lemma RootsOk(k: Kids, arity: Sym -> nat, definitions: map<Sym, Definition>, bound: nat, table: map<Sym, seq<Entry>>, s: Sym)
    requires AllOk(k, arity, definitions, bound, table)
    ensures table.Keys == definitions.Keys
    ensures s in definitions ==>
              && definitions[s].root != null && definitions[s].root in k && definitions[s].root.sym == s && definitions[s].root.path == []
              && |definitions[s].formals| == arity(s) && Holds(k, definitions[s].root, arity(s), table[s])
  {
    hide Holds;
    assert s in definitions ==> DefinitionOk(k, s, definitions[s], arity(s), bound, table[s]);
  }

  lemma FormalsAt(definitions: map<Sym, Definition>, s: Sym)
    requires s in definitions
    ensures s in FormalsOf(definitions) && FormalsOf(definitions)[s] == definitions[s].formals
  {
  }

  /** One function's tree has grown; the others are as they were. */
  lemma OneGrows(k0: Kids, k1: Kids, k: Kids, formals: map<Sym, seq<Atom>>, arity: Sym -> nat, definitions: map<Sym, Definition>, bound: nat,
                 table: map<Sym, seq<Entry>>, definitions': map<Sym, Definition>, bound': nat, table': map<Sym, seq<Entry>>,
                 sr: Sym, r: ValuationNode, vals: seq<Atom>, value: Atom, leaf: ValuationNode)
    requires AllOk(k0, arity, definitions, bound, table) && bound <= bound' && Adding(k1, k, formals, r, vals, value, |vals|, leaf)
    requires forall m, t {:trigger Walk(k1, m, t)} :: m in k0 ==> Walk(k1, m, t) == Walk(k0, m, t)
    requires forall m {:trigger m in k0} :: m in k0 ==> m in k1
    requires r.sym == sr && definitions'.Keys == definitions.Keys + {sr} == table'.Keys
    requires forall s {:trigger definitions'[s]} :: s in definitions && s != sr ==> definitions'[s] == definitions[s] && table'[s] == table[s]
    requires definitions'[sr].root == r && |definitions'[sr].formals| == |vals| == arity(sr) > 0 && FormalsOk(definitions'[sr].formals, bound')
    requires Holds(k1, r, |vals|, if sr in table then table[sr] else [])
    requires table'[sr] == (if sr in table then table[sr] else []) + [Entry(vals, value)]
    ensures AllOk(k, arity, definitions', bound', table')
  {
    hide Layered, Filled, Holds, Walk;
    forall s | s in definitions' ensures DefinitionOk(k, s, definitions'[s], arity(s), bound', table'[s]) {
      if s == sr {
        HoldsMore(k1, k, formals, r, vals, value, leaf, if sr in table then table[sr] else []);
      } else {
        assert DefinitionOk(k0, s, definitions[s], arity(s), bound, table[s]);
        OthersHold(k0, k1, k, formals, r, vals, value, leaf, definitions[s].root, arity(s), table[s]);
      }
    }
  }

  // ---------------------------------------------------------------------------
  // The builder

  ghost function TreeOf(nodes: seq<ValuationNode>): Kids
    reads nodes
  {
    map n | n in nodes :: n.children
  }

  lemma TreeIs(nodes: seq<ValuationNode>, k: Kids)
    requires forall n {:trigger n in nodes} {:trigger n in k} :: n in nodes <==> n in k
    requires forall n {:trigger n in nodes} :: n in nodes ==> n.children == k[n]
    ensures TreeOf(nodes) == k
  {
  }

  // ---------------------------------------------------------------------------
  // From trees to bodies

  datatype QPair = QPair(node: ValuationNode, nextChild: nat)

  /** Levels below a node. */
  ghost function Depth(formals: map<Sym, seq<Atom>>, n: ValuationNode): nat {
    if n.sym in formals && |n.path| <= |formals[n.sym]| then |formals[n.sym]| - |n.path| else 0
  }

  ghost function Weight(k: Kids, n: ValuationNode, depth: nat): (w: nat)
    ensures w > 0
    decreases depth, 1, 0
  {
    if n !in k || depth == 0 then 1 else 1 + WeightAll(k, k[n], depth - 1)
  }

  ghost function WeightAll(k: Kids, cs: seq<ValuationNode>, depth: nat): nat
    decreases depth, 2, |cs|
  {
    if cs == [] then 0 else Weight(k, cs[0], depth) + WeightAll(k, cs[1..], depth)
  }

  /** What is left to do for an entry, and for a stack. */
  ghost function Left(k: Kids, formals: map<Sym, seq<Atom>>, e: QPair): nat {
    var d := Depth(formals, e.node);
    1 + if e.node in k && e.nextChild <= |k[e.node]| && d > 0 then 2 * WeightAll(k, k[e.node][e.nextChild..], d - 1) else 0
  }

  ghost function Work(k: Kids, formals: map<Sym, seq<Atom>>, stack: seq<QPair>): nat {
    if stack == [] then 0 else Left(k, formals, stack[|stack| - 1]) + Work(k, formals, stack[..|stack| - 1])
  }

  /** Every entry waits for the child above it and is through with those before. */
  ghost predicate Waiting(k: Kids, stack: seq<QPair>, bodies: map<ValuationNode, Body>, i: nat)
    requires i < |stack|
  {
    var e := stack[i];
    && e.node in k && e.node !in bodies && e.nextChild <= |k[e.node]|
    && (i + 1 < |stack| ==> e.nextChild > 0 && stack[i + 1].node == k[e.node][e.nextChild - 1])
    && forall j {:trigger k[e.node][j]} :: 0 <= j < (if i + 1 < |stack| then e.nextChild - 1 else e.nextChild) ==> k[e.node][j] in bodies
  }

  ghost predicate AllWaiting(k: Kids, stack: seq<QPair>, bodies: map<ValuationNode, Body>) {
    forall i: nat {:trigger Waiting(k, stack, bodies, i)} :: i < |stack| ==> Waiting(k, stack, bodies, i)
  }

  ghost predicate Converting(k: Kids, formals: map<Sym, seq<Atom>>, root: ValuationNode, default: Atom, stack: seq<QPair>, bodies: map<ValuationNode, Body>) {
    && AllWaiting(k, stack, bodies)
    && (forall n {:trigger bodies[n]} :: n in bodies ==> n in k && bodies[n] == BodyOf(k, n, Depth(formals, n), default))
    && (if stack == [] then root in bodies else stack[0].node == root)
  }

  lemma ChildDepth(k: Kids, formals: map<Sym, seq<Atom>>, n: ValuationNode, c: ValuationNode)
    requires Layered(k, formals) && n in k && c in k[n]
    ensures c in k && Depth(formals, n) == Depth(formals, c) + 1
  {
    assert NodeOk(k, formals, n) && NodeOk(k, formals, c);
  }

  lemma WorkPush(k: Kids, formals: map<Sym, seq<Atom>>, stack: seq<QPair>, e: QPair)
    ensures Work(k, formals, stack + [e]) == Work(k, formals, stack) + Left(k, formals, e)
  {
    assert (stack + [e])[..|stack|] == stack;
  }

  lemma NextWaiting(k: Kids, rest: seq<QPair>, e: QPair, bodies: map<ValuationNode, Body>, stack: seq<QPair>, i: nat)
    requires AllWaiting(k, rest + [e], bodies) && e.node in k && e.nextChild < |k[e.node]| && k[e.node][e.nextChild] in k
    requires var c := k[e.node][e.nextChild];
             stack == rest + [QPair(e.node, e.nextChild + 1)] + (if c in bodies then [] else [QPair(c, 0)])
    requires i < |stack|
    ensures Waiting(k, stack, bodies, i)
  {
    var before := rest + [e];
    if i <= |rest| {
      assert Waiting(k, before, bodies, i);
      assert i < |rest| ==> before[i] == rest[i] == stack[i];
      assert i + 1 < |rest| ==> before[i + 1] == rest[i + 1] == stack[i + 1];
      assert before[|rest|] == e;
    }
  }

  /** Going on to the next child. */
  lemma NextChild(k: Kids, formals: map<Sym, seq<Atom>>, root: ValuationNode, default: Atom, rest: seq<QPair>, e: QPair, bodies: map<ValuationNode, Body>)
    requires Layered(k, formals) && Converting(k, formals, root, default, rest + [e], bodies) && e.node in k && e.nextChild < |k[e.node]|
    ensures var c, e' := k[e.node][e.nextChild], QPair(e.node, e.nextChild + 1);
            var stack := rest + [e'] + (if c in bodies then [] else [QPair(c, 0)]);
            Converting(k, formals, root, default, stack, bodies) && Work(k, formals, stack) < Work(k, formals, rest + [e])
  {
    hide Layered, Work, Left;
    var c, e' := k[e.node][e.nextChild], QPair(e.node, e.nextChild + 1);
    var stack := rest + [e'] + (if c in bodies then [] else [QPair(c, 0)]);
    assert c in k[e.node];
    ChildDepth(k, formals, e.node, c);
    forall i: nat | i < |stack| ensures Waiting(k, stack, bodies, i) { NextWaiting(k, rest, e, bodies, stack, i); }
    assert rest != [] ==> (rest + [e])[0] == rest[0] == stack[0];
    NextWork(k, formals, rest, e, c);
    WorkPush(k, formals, rest + [e'], QPair(c, 0));
    assert c in bodies ==> stack == rest + [e'];
  }

  lemma NextWork(k: Kids, formals: map<Sym, seq<Atom>>, rest: seq<QPair>, e: QPair, c: ValuationNode)
    requires Layered(k, formals) && e.node in k && e.nextChild < |k[e.node]| && c == k[e.node][e.nextChild]
    ensures Work(k, formals, rest + [QPair(e.node, e.nextChild + 1)]) + Left(k, formals, QPair(c, 0)) < Work(k, formals, rest + [e])
  {
    var cs, d := k[e.node], Depth(formals, e.node);
    assert c in cs;
    ChildDepth(k, formals, e.node, c);
    assert cs[e.nextChild..][0] == c && cs[e.nextChild..][1..] == cs[e.nextChild + 1..];
    assert k[c][0..] == k[c];
    WorkPush(k, formals, rest, e);
    WorkPush(k, formals, rest, QPair(e.node, e.nextChild + 1));
    assert Weight(k, c, d - 1) == if d - 1 == 0 then 1 else 1 + WeightAll(k, k[c], d - 2);
  }

  /** A node is finished. */
  lemma Finished(k: Kids, formals: map<Sym, seq<Atom>>, root: ValuationNode, default: Atom, rest: seq<QPair>, e: QPair, bodies: map<ValuationNode, Body>)
    requires Layered(k, formals) && Converting(k, formals, root, default, rest + [e], bodies) && e.node in k && e.nextChild == |k[e.node]|
    ensures Converting(k, formals, root, default, rest, bodies[e.node := BodyOf(k, e.node, Depth(formals, e.node), default)])
    ensures Work(k, formals, rest) < Work(k, formals, rest + [e])
  {
    var before, bodies' := rest + [e], bodies[e.node := BodyOf(k, e.node, Depth(formals, e.node), default)];
    assert before[|rest|] == e && Waiting(k, before, bodies, |rest|);
    WorkPush(k, formals, rest, e);
    forall i: nat | i < |rest| ensures Waiting(k, rest, bodies', i) {
      assert before[i] == rest[i] && Waiting(k, before, bodies, i);
      assert i + 1 < |rest| ==> before[i + 1] == rest[i + 1];
      Deeper(k, formals, before, bodies, i, |rest|);
    }
    assert rest != [] ==> before[0] == rest[0];
  }

  /** Entries further up are for nodes further down. */
  lemma {:induction false} Deeper(k: Kids, formals: map<Sym, seq<Atom>>, stack: seq<QPair>, bodies: map<ValuationNode, Body>, i: nat, j: nat)
    requires Layered(k, formals) && i < j < |stack| && AllWaiting(k, stack, bodies)
    ensures Depth(formals, stack[j].node) < Depth(formals, stack[i].node)
    decreases j - i
  {
    assert Waiting(k, stack, bodies, i) && stack[i + 1].node in k[stack[i].node];
    ChildDepth(k, formals, stack[i].node, stack[i + 1].node);
    if i + 1 < j { Deeper(k, formals, stack, bodies, i + 1, j); }
  }

  lemma ConvertingStart(k: Kids, formals: map<Sym, seq<Atom>>, root: ValuationNode, default: Atom)
    requires root in k
    ensures Converting(k, formals, root, default, [QPair(root, 0)], map[])
  {
  }

  lemma ConvertingEnd(k: Kids, formals: map<Sym, seq<Atom>>, root: ValuationNode, default: Atom, bodies: map<ValuationNode, Body>)
    requires Converting(k, formals, root, default, [], bodies)
    ensures root in bodies && bodies[root] == BodyOf(k, root, Depth(formals, root), default)
  {
  }

  lemma TopOk(k: Kids, formals: map<Sym, seq<Atom>>, root: ValuationNode, default: Atom, rest: seq<QPair>, e: QPair, bodies: map<ValuationNode, Body>)
    requires Converting(k, formals, root, default, rest + [e], bodies)
    ensures e.node in k && e.node !in bodies && e.nextChild <= |k[e.node]|
    ensures e.nextChild == |k[e.node]| ==>
              forall c {:trigger c in k[e.node]} :: c in k[e.node] ==> c in bodies && bodies[c] == BodyOf(k, c, Depth(formals, c), default)
  {
    var stack := rest + [e];
    assert stack[|rest|] == e && Waiting(k, stack, bodies, |rest|);
  }

  predicate Numbered(nodes: seq<ValuationNode>) {
    forall i {:trigger nodes[i]} :: 0 <= i < |nodes| ==> nodes[i].id == i
  }

  class ModelBuilder {
    const arity: Sym -> nat
    const default: Sym -> Atom
    var nodes: seq<ValuationNode>
    var definitions: map<Sym, Definition>
    var uniqueNum: nat
    ghost var table: map<Sym, seq<Entry>>

    ghost function Tree(): Kids
      reads this`nodes, nodes
    {
      TreeOf(nodes)
    }

    ghost predicate Valid()
      reads this, nodes
    {
      && Numbered(nodes)
      && Layered(Tree(), FormalsOf(definitions)) && Filled(Tree(), FormalsOf(definitions), {})
      && AllOk(Tree(), arity, definitions, uniqueNum, table)
    }

    constructor (arity: Sym -> nat, default: Sym -> Atom)
      ensures Valid() && table == map[] && this.arity == arity && this.default == default
    {
      this.arity, this.default := arity, default;
      nodes, definitions, uniqueNum, table := [], map[], 0, map[];
    }

    /** The factory numbers its nodes. */
    method GetValuationNode(variable: Atom, value: Atom, ghost sym: Sym, ghost path: seq<Atom>) returns (n: ValuationNode)
      modifies this`nodes
      ensures fresh(n) && nodes == old(nodes) + [n] && n.id == |old(nodes)| && n.children == []
      ensures n.variable == variable && n.value == value && n.sym == sym && n.path == path
      ensures Tree() == old(Tree())[n := []]
    {
      n := new ValuationNode(|nodes|, variable, value, sym, path);
      ghost var k := Tree();
      nodes := nodes + [n];
      TreeIs(nodes, k[n := []]);
    }

    /** Hangs a new node under another one. */
    method AddChild(current: ValuationNode, variable: Atom, value: Atom, ghost sym: Sym, ghost path: seq<Atom>) returns (c: ValuationNode)
      requires current in nodes
      modifies this`nodes, current`children
      ensures fresh(c) && nodes == old(nodes) + [c] && c.id == |old(nodes)|
      ensures c.variable == variable && c.value == value && c.sym == sym && c.path == path
      ensures Tree() == old(Tree())[current := old(Tree())[current] + [c]][c := []]
    {
      ghost var k := Tree();
      c := GetValuationNode(variable, value, sym, path);
      current.children := current.children + [c];
      TreeIs(nodes, k[current := k[current] + [c]][c := []]);
    }

    /** The child for a value, a new one if there is none. */
    method Branch(current: ValuationNode, val: Atom, variable: Atom,
                  ghost k0: Kids, ghost forms: map<Sym, seq<Atom>>, ghost r: ValuationNode, ghost vals: seq<Atom>, ghost value: Atom, ghost i: nat)
      returns (next: ValuationNode)
      requires Adding(k0, Tree(), forms, r, vals, value, i, current) && i < |vals| && val == vals[i] && r.sym in forms && |forms[r.sym]| == |vals|
      requires variable == if i + 1 == |vals| then value else forms[r.sym][i + 1]
      requires current in nodes && Numbered(nodes)
      modifies this`nodes, current`children
      ensures old(nodes) <= nodes && Numbered(nodes) && next in nodes && forall n {:trigger n in nodes} :: n in nodes ==> n in old(nodes) || fresh(n)
      ensures Adding(k0, Tree(), forms, r, vals, value, i + 1, next)
    {
      hide Layered, Filled, Adding, Walk;
      ghost var k := Tree();
      StepDown(k0, k, forms, r, vals, value, i, current);
      assert current.children == k[current];
      var j := FindChild(current, val);
      if j < |current.children| {
        assert current.children[j] in k[current];
        next := current.children[j];
      } else {
        next := AddChild(current, variable, val, r.sym, vals[..i + 1]);
        StepNew(k0, k, Tree(), forms, r, vals, value, i, current, next);
      }
    }

    /** Goes down along the values and makes the nodes that are missing; a leaf that is there keeps its value. */
    method AddToValuationTree(formals: seq<Atom>, vals: seq<Atom>, value: Atom, root: ValuationNode?, ghost sym: Sym, ghost forms: map<Sym, seq<Atom>>)
      returns (r: ValuationNode, ghost k0: Kids, ghost leaf: ValuationNode)
      requires Layered(Tree(), forms) && Filled(Tree(), forms, {}) && sym in forms && forms[sym] == formals && |vals| == |formals| > 0
      requires root != null ==> root in Tree() && root.path == [] && root.sym == sym
      requires Numbered(nodes)
      modifies this`nodes, nodes
      ensures old(nodes) <= nodes && Numbered(nodes)
      ensures r in nodes && r.path == [] && r.sym == sym
      ensures if root != null then r == root && k0 == old(Tree()) else r !in old(nodes) && k0 == old(Tree())[r := []] && r.variable == formals[0]
      ensures forall m {:trigger m in old(Tree())} :: m in old(Tree()) ==> m in k0
      ensures forall m, t {:trigger Walk(k0, m, t)} :: m in old(Tree()) ==> Walk(k0, m, t) == Walk(old(Tree()), m, t)
      ensures root == null ==> Holds(k0, r, |vals|, [])
      ensures Adding(k0, Tree(), forms, r, vals, value, |vals|, leaf) && Layered(Tree(), forms) && Filled(Tree(), forms, {})
    {
      hide Layered, Filled, Adding, Holds, Walk;
      if root != null {
        r := root;
        StartAdding(Tree(), forms, r, vals, value);
      } else {
        ghost var k := Tree();
        r := GetValuationNode(formals[0], Undef, sym, []);
        NewRoot(k, forms, r, vals, value);
      }
      k0 := Tree();
      var current := r;
      for i := 0 to |vals|
        invariant old(nodes) <= nodes && Numbered(nodes)
        invariant forall n {:trigger n in nodes} :: n in nodes ==> n in old(nodes) || fresh(n)
        invariant r in nodes && current in nodes && Adding(k0, Tree(), forms, r, vals, value, i, current)
      {
        current := Branch(current, vals[i], if i == |vals| - 1 then value else formals[i + 1], k0, forms, r, vals, value, i);
      }
      leaf := current;
      EndAdding(k0, Tree(), forms, r, vals, value, leaf);
    }

    /** The first child for a value. */
    method FindChild(current: ValuationNode, val: Atom) returns (j: nat)
      ensures j == Find(current.children, val)
    {
      ghost var cs := current.children;
      j := 0;
      while j < |current.children| && current.children[j].value != val
        invariant j <= |cs| && Find(cs, val) == j + Find(cs[j..], val)
      {
        assert cs[j..][1..] == cs[j + 1..];
        j := j + 1;
      }
    }

    /** New formal arguments, numbered on from the last ones. */
    method NewFormals(n: nat) returns (fs: seq<Atom>)
      modifies this`uniqueNum
      ensures |fs| == n && FormalsOk(fs, uniqueNum) && uniqueNum >= old(uniqueNum)
    {
      fs := [];
      for i := 0 to n
        invariant |fs| == i && uniqueNum == old(uniqueNum) + i
        invariant forall j {:trigger fs[j]} :: 0 <= j < i ==> fs[j] == Formal(old(uniqueNum) + j)
      {
        fs := fs + [Formal(uniqueNum)];
        uniqueNum := uniqueNum + 1;
      }
    }

    /** Formal arguments for a function that has none yet. */
    method Declare(sr: Sym, n: nat)
      requires Valid() && arity(sr) == n > 0
      modifies this`definitions, this`uniqueNum
      ensures sr in definitions && definitions == if sr in old(definitions) then old(definitions) else old(definitions)[sr := definitions[sr]]
      ensures uniqueNum >= old(uniqueNum) && |definitions[sr].formals| == n && FormalsOk(definitions[sr].formals, uniqueNum)
      ensures sr !in old(definitions) ==> definitions[sr].root == null
      ensures Layered(Tree(), FormalsOf(definitions)) && Filled(Tree(), FormalsOf(definitions), {})
    {
      hide Layered, Filled;
      if sr !in definitions {
        var fs := NewFormals(n);
        MoreFormals(Tree(), FormalsOf(definitions), sr, fs);
        definitions := definitions[sr := Definition(fs, null)];
        assert FormalsOf(definitions) == FormalsOf(old(definitions))[sr := fs];
      } else {
        assert DefinitionOk(Tree(), sr, definitions[sr], n, uniqueNum, table[sr]);
      }
    }

    /** Puts an entry into the tree of a function that has formal arguments. */
    method Enter(sr: Sym, vals: seq<Atom>, val: Atom, ghost k: Kids, ghost defs: map<Sym, Definition>, ghost bound: nat)
      requires k == Tree() && AllOk(k, arity, defs, bound, table) && bound <= uniqueNum && Numbered(nodes)
      requires sr in definitions && definitions == if sr in defs then defs else defs[sr := definitions[sr]]
      requires |definitions[sr].formals| == |vals| == arity(sr) > 0 && FormalsOk(definitions[sr].formals, uniqueNum)
      requires sr !in defs ==> definitions[sr].root == null
      requires Layered(k, FormalsOf(definitions)) && Filled(k, FormalsOf(definitions), {})
      modifies this`nodes, this`definitions, this`table, nodes
      ensures Valid()
      ensures table == old(table)[sr := (if sr in old(table) then old(table)[sr] else []) + [Entry(vals, val)]]
    {
      hide Layered, Filled, Adding, Holds, Walk, DefinitionOk, AllOk, FormalsOf, FormalsOk, TreeOf;
      RootsOk(k, arity, defs, bound, table, sr);
      var d := definitions[sr];
      ghost var forms := FormalsOf(definitions);
      FormalsAt(definitions, sr);
      var r, k0, leaf := AddToValuationTree(d.formals, vals, val, d.root, sr, forms);
      SameFormals(definitions, sr, r);
      definitions := definitions[sr := Definition(d.formals, r)];
      table := table[sr := (if sr in table then table[sr] else []) + [Entry(vals, val)]];
      OneGrows(k, k0, Tree(), forms, arity, defs, bound, old(table), definitions, uniqueNum, table, sr, r, vals, val, leaf);
    }

    /** Records a value; refused if the number of arguments is not the function's. */
    method AddToTheoryFunction(sr: Sym, vals: seq<Atom>, val: Atom) returns (ok: bool)
      requires Valid() && arity(sr) > 0
      modifies this`nodes, this`definitions, this`uniqueNum, this`table, nodes
      ensures Valid() && ok == (|vals| == arity(sr))
      ensures table == if ok then old(table)[sr := (if sr in old(table) then old(table)[sr] else []) + [Entry(vals, val)]] else old(table)
    {
      hide Layered, Filled, AllOk, FormalsOf, FormalsOk, TreeOf;
      ok := |vals| == arity(sr);
      if ok {
        Declare(sr, |vals|);
        Enter(sr, vals, val, Tree(), old(definitions), old(uniqueNum));
      }
    }

    /** Depth first: a node's body is made from those of its children, backwards. */
    method ValuationTreeToFunctionBody(root: ValuationNode, default: Atom, ghost formals: map<Sym, seq<Atom>>) returns (body: Body)
      requires root in nodes && Layered(Tree(), formals) && Filled(Tree(), formals, {})
      ensures body == BodyOf(Tree(), root, Depth(formals, root), default)
    {
      hide Layered, Filled, Converting, Work, Left, Depth;
      ghost var k := Tree();
      var bodies: map<ValuationNode, Body> := map[];
      var stack := [QPair(root, 0)];
      ConvertingStart(k, formals, root, default);
      while stack != []
        invariant Converting(k, formals, root, default, stack, bodies)
        decreases Work(k, formals, stack)
      {
        var top := |stack| - 1;
        var e := stack[top];
        assert stack == stack[..top] + [e];
        TopOk(k, formals, root, default, stack[..top], e, bodies);
        if e.nextChild < |e.node.children| {
          var child := e.node.children[e.nextChild];
          NextChild(k, formals, root, default, stack[..top], e, bodies);
          stack := stack[..top] + [QPair(e.node, e.nextChild + 1)] + (if child in bodies then [] else [QPair(child, 0)]);
          continue;
        }
        var formula := Combine(e.node, bodies, default, formals);
        Finished(k, formals, root, default, stack[..top], e, bodies);
        bodies := bodies[e.node := formula];
        stack := stack[..top];
      }
      ConvertingEnd(k, formals, root, default, bodies);
      body := bodies[root];
    }

    /** The last child's test is the innermost. */
    method Combine(node: ValuationNode, bodies: map<ValuationNode, Body>, default: Atom, ghost formals: map<Sym, seq<Atom>>) returns (formula: Body)
      requires node in nodes && Layered(Tree(), formals)
      requires forall c {:trigger c in node.children} :: c in node.children ==> c in bodies && bodies[c] == BodyOf(Tree(), c, Depth(formals, c), default)
      ensures formula == BodyOf(Tree(), node, Depth(formals, node), default)
    {
      ghost var k := Tree();
      assert NodeOk(k, formals, node);
      if node.children == [] {
        return Value(node.variable);
      }
      ghost var d := Depth(formals, node) - 1;
      formula := Value(default);
      var i := |node.children|;
      while i > 0
        invariant 0 <= i <= |node.children| && formula == Chain(k, node.variable, node.children[i..], d, default)
      {
        i := i - 1;
        var c := node.children[i];
        assert c in node.children;
        ChildDepth(k, formals, node, c);
        assert node.children[i..][0] == c && node.children[i..][1..] == node.children[i + 1..];
        formula := Ite(node.variable, c.value, bodies[c], formula);
      }
      assert node.children[0..] == node.children;
    }

    /** Every function gets a body that gives, for all arguments, the first value recorded for them, or else the
        default. */
    method Build() returns (built: map<Sym, TemplateFunction>)
      requires Valid()
      ensures built.Keys == table.Keys
      ensures forall s {:trigger built[s]} :: s in built ==> |built[s].formals| == arity(s)
      ensures forall s, t {:trigger Eval(built[s].body, built[s].formals, t)} :: s in built && |t| == |built[s].formals| ==>
                Eval(built[s].body, built[s].formals, t) == Or(First(table[s], t), default(s))
    {
      hide Layered, Filled, Holds, FormalsOk;
      built := map[];
      var left := definitions.Keys;
      while left != {}
        invariant left <= definitions.Keys && built.Keys == definitions.Keys - left
        invariant forall s {:trigger built[s]} :: s in built ==> BuiltRight(built[s], s)
      {
        var s :| s in left;
        assert DefinitionOk(Tree(), s, definitions[s], arity(s), uniqueNum, table[s]);
        var d := definitions[s];
        var body := ValuationTreeToFunctionBody(d.root, default(s), FormalsOf(definitions));
        BodyRight(s, body);
        built := built[s := TemplateFunction(d.formals, body)];
        left := left - {s};
      }
      forall s | s in built ensures BuiltRight(built[s], s) { }
    }

    ghost predicate BuiltRight(f: TemplateFunction, s: Sym)
      reads this
    {
      && s in table && |f.formals| == arity(s)
      && forall t {:trigger Eval(f.body, f.formals, t)} :: |t| == |f.formals| ==> Eval(f.body, f.formals, t) == Or(First(table[s], t), default(s))
    }

    lemma BodyRight(s: Sym, body: Body)
      requires Valid() && s in definitions && s in table && definitions[s].root != null
      requires body == BodyOf(Tree(), definitions[s].root, Depth(FormalsOf(definitions), definitions[s].root), default(s))
      ensures BuiltRight(TemplateFunction(definitions[s].formals, body), s)
    {
      hide Layered, Filled, Holds;
      var d := definitions[s];
      assert DefinitionOk(Tree(), s, d, arity(s), uniqueNum, table[s]);
      forall t | |t| == |d.formals| ensures Eval(body, d.formals, t) == Or(First(table[s], t), default(s)) {
        BodyHolds(Tree(), FormalsOf(definitions), d.root, default(s), table[s], t);
      }
    }
  }
}
