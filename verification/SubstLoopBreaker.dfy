/** The loop breaker as an object: it builds the graph, finds and breaks loops until there are none, and
    returns the substitutions that kept their edges. */
module SubstLoopBreakers {
  import opened Terms
  import opened Dfs
  import opened Digraphs
  import opened Tarjan
  import opened TarjanRuns
  import opened LoopBreakers
  import Rewriters

  // ---------------------------------------------------------------------------
  // The variables of a term

  lemma SubtermsDescend(t: Term)
    ensures Descending(Children, Size, Subterms(t)) && t in Subterms(t)
  {
    forall x, y {:trigger y in Children(x)} | x in Subterms(t) && y in Children(x)
      ensures y in Subterms(t) && Size(y) < Size(x)
    {
      SubtermsClosed(t, x, y);
      ChildIsSmaller(x, y);
    }
  }

  function NotDone(ts: seq<Term>, proc: set<Term>): seq<Term> {
    if ts == [] then [] else (if ts[0] in proc then [] else [ts[0]]) + NotDone(ts[1..], proc)
  }

  lemma {:induction false} NotDoneElems(ts: seq<Term>, proc: set<Term>, t: Term)
    ensures t in NotDone(ts, proc) <==> t in ts && t !in proc
  {
    if ts != [] {
      NotDoneElems(ts[1..], proc, t);
      assert ts == [ts[0]] + ts[1..];
    }
  }

  lemma NotDonePushed(t: Term, proc: set<Term>)
    ensures Pushed(Children, t, proc, NotDone(Children(t), proc))
    ensures NotDone(Children(t), proc) == [] ==> forall y {:trigger y in Children(t)} :: y in Children(t) ==> y in proc
  {
    forall y ensures y in NotDone(Children(t), proc) <==> y in Children(t) && y !in proc {
      NotDoneElems(Children(t), proc, y);
    }
  }

  /** The variables met so far. */
  ghost predicate VarsOf(done: set<Term>, vars: seq<Term>) {
    && (forall i, j :: 0 <= i < j < |vars| ==> vars[i] != vars[j])
    && forall x {:trigger x in vars} :: x in vars <==> x in done && x.Var?
  }

  lemma VarsMore(done: set<Term>, vars: seq<Term>, t: Term)
    requires VarsOf(done, vars) && t !in done
    ensures VarsOf(done + {t}, if t.Var? then vars + [t] else vars)
  {
    assert t !in vars;
    assert forall i {:trigger vars[i]} :: 0 <= i < |vars| ==> vars[i] in vars;
  }

  /** All variables of a term, none twice. */
  method GetVars(term: Term) returns (vars: seq<Term>)
    ensures VarsAre(term, vars)
  {
    hide Walking, Descending, Work, Pushed, Subterms, Size, NotDone;
    vars := [];
    var proc: set<Term> := {};
    var queue := [term];
    ghost var univ := Subterms(term);
    ghost var bits, open: set<Term> := [false], {};
    SubtermsDescend(term);
    Start(Children, Size, univ, term);
    while queue != []
      invariant Walking(Children, Size, univ, term, queue, bits, open, proc) && VarsOf(proc, vars)
      decreases Work<Term>(univ, open, proc), |queue|
    {
      var top := |queue| - 1;
      var tr := queue[top];
      Top(Children, Size, univ, term, queue, bits, open, proc);
      Apart(Children, Size, univ, term, queue, bits, open, proc);
      if tr in proc {
        Pop(Children, Size, univ, term, queue, bits, open, proc);
        queue, bits := queue[..top], bits[..top];
        continue;
      }
      WorkShrinks<Term>(univ, open, proc, tr);
      NotDonePushed(tr, proc);
      var unprocessed := NotDone(Children(tr), proc);
      if unprocessed != [] {
        OpenHasNothingLeft(tr, open, proc);
        Expand(Children, Size, univ, term, queue, bits, open, proc, unprocessed);
        queue, bits := queue + unprocessed, bits[top := true] + seq(|unprocessed|, i => false);
        open := open + {tr};
        continue;
      }
      Finish(Children, Size, univ, term, queue, bits, open, proc);
      queue, bits := queue[..top], bits[..top];
      VarsMore(proc, vars, tr);
      if tr.Var? {
        vars := vars + [tr];
      }
      open, proc := open - {tr}, proc + {tr};
    }
    Finished(Children, Size, univ, term, bits, open, proc);
    SubtermsLeast(term, proc);
  }

  lemma OpenHasNothingLeft(t: Term, open: set<Term>, proc: set<Term>)
    requires forall y {:trigger y in Children(t)} :: y in Children(t) ==> (t in open ==> y in proc)
    requires NotDone(Children(t), proc) != []
    ensures t !in open
  {
    var y := NotDone(Children(t), proc)[0];
    NotDoneElems(Children(t), proc, y);
    assert y in NotDone(Children(t), proc);
  }

  // ---------------------------------------------------------------------------
  // Building the graph

  /** The terms that can get a node. */
  ghost function Universe(keys: seq<Subst>): set<Term> {
    (set i | 0 <= i < |keys| :: keys[i].key) + set i, v | 0 <= i < |keys| && v in Subterms(keys[i].target) && v.Var? :: v
  }

  /** A node whose term is seen has its children's nodes, another one has none yet. */
  ghost predicate NodeOk(nodes: seq<Term>, childTerms: seq<seq<Term>>, g: Digraph, seen: set<Term>, n: Node)
    requires n < |nodes| && |childTerms| == |nodes| && |g| == |nodes|
  {
    if nodes[n] in seen then
      |g[n]| == |childTerms[n]| && forall j {:trigger g[n][j]} {:trigger childTerms[n][j]} :: 0 <= j < |g[n]| ==> g[n][j] < |nodes| && nodes[g[n][j]] == childTerms[n][j]
    else g[n] == []
  }

  ghost predicate Labelled(keys: seq<Subst>, nodes: seq<Term>, number: map<Term, Node>, childTerms: seq<seq<Term>>) {
    && Numbered(nodes, number) && |childTerms| == |nodes| && |keys| <= |nodes|
    && (forall i {:trigger keys[i]} :: 0 <= i < |keys| ==> nodes[i] == keys[i].key && VarsAre(keys[i].target, childTerms[i]))
    && (forall i: Node {:trigger childTerms[i]} :: |keys| <= i < |nodes| ==> childTerms[i] == [])
    && (forall i: Node {:trigger nodes[i]} :: i < |nodes| ==> nodes[i] in Universe(keys))
  }

  /** What is seen, or waits, is covered by the roots; nothing that should be looked at is forgotten. */
  ghost predicate Building(keys: seq<Subst>, nodes: seq<Term>, number: map<Term, Node>, childTerms: seq<seq<Term>>, g: Digraph,
                           seen: set<Term>, roots: seq<Node>, queue: seq<Node>) {
    && Labelled(keys, nodes, number, childTerms) && |g| == |nodes|
    && (forall n: Node {:trigger NodeOk(nodes, childTerms, g, seen, n)} :: n < |nodes| ==> NodeOk(nodes, childTerms, g, seen, n))
    && (forall n: Node {:trigger n in queue} :: n in queue ==> n < |nodes|)
    && (forall n: Node {:trigger n in roots} :: n in roots ==> n < |nodes|)
    && (forall n: Node {:trigger CoveredAt(g, roots, n)} :: n < |nodes| && (nodes[n] in seen || n in queue) ==> CoveredAt(g, roots, n))
    && (forall n: Node {:trigger nodes[n]} :: |keys| <= n < |nodes| ==> nodes[n] in seen || n in queue)
  }

  lemma ReachMore(g: Digraph, h: Digraph, x: Node, y: Node)
    requires Reach(g, x, y) && forall a: Node, b: Node {:trigger Edge(g, a, b)} :: Edge(g, a, b) ==> Edge(h, a, b)
    ensures Reach(h, x, y)
  {
    var p :| IsPath(g, p, x, y);
    assert IsPath(h, p, x, y);
  }

  lemma CoveredMore(g: Digraph, h: Digraph, roots: seq<Node>, n: Node)
    requires CoveredAt(g, roots, n) && forall a: Node, b: Node {:trigger Edge(g, a, b)} :: Edge(g, a, b) ==> Edge(h, a, b)
    ensures CoveredAt(h, roots, n)
  {
    var s :| s in roots && Reach(g, s, n);
    ReachMore(g, h, s, n);
  }

  lemma CoveredChild(g: Digraph, roots: seq<Node>, n: Node, c: Node)
    requires CoveredAt(g, roots, n) && Edge(g, n, c)
    ensures CoveredAt(g, roots, c)
  {
    var s :| s in roots && Reach(g, s, n);
    ReachEdge(g, n, c);
    ReachOn(g, s, n, c);
  }

  /** New leaf nodes for children of `n` have been appended; `cs` are the nodes of the first children. */
  ghost predicate Appending(keys: seq<Subst>, nodes0: seq<Term>, childTerms0: seq<seq<Term>>, g0: Digraph,
                            nodes: seq<Term>, number: map<Term, Node>, childTerms: seq<seq<Term>>, g: Digraph, n: Node, cs: seq<Node>) {
    && n < |nodes0| == |childTerms0| == |g0| && nodes0 <= nodes && childTerms0 <= childTerms && g0 <= g
    && Numbered(nodes, number) && |childTerms| == |g| == |nodes|
    && (forall i: Node {:trigger childTerms[i]} {:trigger g[i]} :: |nodes0| <= i < |nodes| ==> childTerms[i] == [] && g[i] == [] && i in cs)
    && |cs| <= |childTerms0[n]|
    && (forall j {:trigger cs[j]} :: 0 <= j < |cs| ==> cs[j] < |nodes| && nodes[cs[j]] == childTerms0[n][j])
  }

  lemma AppendStart(keys: seq<Subst>, nodes: seq<Term>, number: map<Term, Node>, childTerms: seq<seq<Term>>, g: Digraph,
                    seen: set<Term>, roots: seq<Node>, queue: seq<Node>, n: Node)
    requires Building(keys, nodes, number, childTerms, g, seen, roots, queue) && n in queue
    ensures Appending(keys, nodes, childTerms, g, nodes, number, childTerms, g, n, []) && n < |nodes|
  {
  }

  /** Children are variables of the target, so new nodes stay within the universe. */
  lemma ChildInUniverse(keys: seq<Subst>, nodes: seq<Term>, number: map<Term, Node>, childTerms: seq<seq<Term>>, n: Node, t: Term)
    requires Labelled(keys, nodes, number, childTerms) && n < |nodes| && t in childTerms[n]
    ensures t in Universe(keys) && n < |keys|
  {
    var x := childTerms[n];
    assert n < |keys|;
    assert VarsAre(keys[n].target, childTerms[n]);
  }

  lemma LinkLabelled(keys: seq<Subst>, nodes0: seq<Term>, number0: map<Term, Node>, childTerms0: seq<seq<Term>>, g0: Digraph,
                  nodes: seq<Term>, number: map<Term, Node>, childTerms: seq<seq<Term>>, g: Digraph, n: Node, cs: seq<Node>)
    requires Labelled(keys, nodes0, number0, childTerms0)
    requires Appending(keys, nodes0, childTerms0, g0, nodes, number, childTerms, g, n, cs)
    ensures Labelled(keys, nodes, number, childTerms)
  {
    forall i {:trigger keys[i]} | 0 <= i < |keys| ensures nodes[i] == keys[i].key && VarsAre(keys[i].target, childTerms[i]) {
      assert nodes[i] == nodes0[i] && childTerms[i] == childTerms0[i];
    }
    forall i: Node {:trigger childTerms[i]} | |keys| <= i < |nodes| ensures childTerms[i] == [] {
      if i < |nodes0| { assert childTerms[i] == childTerms0[i]; }
    }
    forall i: Node {:trigger nodes[i]} | i < |nodes| ensures nodes[i] in Universe(keys) {
      if i < |nodes0| {
        assert nodes[i] == nodes0[i];
      } else {
        var x := childTerms[i];
        var j :| 0 <= j < |cs| && cs[j] == i;
        ChildInUniverse(keys, nodes0, number0, childTerms0, n, childTerms0[n][j]);
      }
    }
  }

  /** Linking a node to its children: it counts as seen, the children wait. */
  lemma LinkKeeps(keys: seq<Subst>, nodes0: seq<Term>, number0: map<Term, Node>, childTerms0: seq<seq<Term>>, g0: Digraph, seen: set<Term>, roots: seq<Node>,
                  queue: seq<Node>, nodes: seq<Term>, number: map<Term, Node>, childTerms: seq<seq<Term>>, g: Digraph, n: Node, cs: seq<Node>, rest: seq<Node>)
    requires Building(keys, nodes0, number0, childTerms0, g0, seen, roots, queue) && n in queue && n < |nodes0| && nodes0[n] !in seen
    requires forall m {:trigger m in queue} :: m in queue ==> m == n || m in rest
    requires forall m {:trigger m in rest} :: m in rest ==> m in queue
    requires Appending(keys, nodes0, childTerms0, g0, nodes, number, childTerms, g, n, cs) && |cs| == |childTerms0[n]|
    ensures Building(keys, nodes, number, childTerms, g[n := cs], seen + {nodes0[n]}, roots, rest + cs)
  {
    hide Universe, Reach, VarsAre;
    var h := g[n := cs];
    var seen' := seen + {nodes0[n]};
    LinkLabelled(keys, nodes0, number0, childTerms0, g0, nodes, number, childTerms, g, n, cs);
    assert NodeOk(nodes0, childTerms0, g0, seen, n);
    LinkEdges(keys, nodes0, childTerms0, g0, nodes, number, childTerms, g, n, cs);
    forall m: Node | m < |nodes| ensures NodeOk(nodes, childTerms, h, seen', m) {
      LinkNode(keys, nodes0, number0, childTerms0, g0, seen, roots, queue, nodes, number, childTerms, g, n, cs, m);
    }
    forall m: Node | m < |nodes| && (nodes[m] in seen' || m in rest + cs) ensures CoveredAt(h, roots, m) {
      if m in cs {
        assert CoveredAt(g0, roots, n);
        CoveredMore(g0, h, roots, n);
        CoveredChild(h, roots, n, m);
      } else {
        LinkOld(keys, nodes0, number0, childTerms0, g0, nodes, number, childTerms, g, n, cs, m, seen);
        assert CoveredAt(g0, roots, m);
        CoveredMore(g0, h, roots, m);
      }
    }
    forall m: Node {:trigger nodes[m]} | |keys| <= m < |nodes| ensures nodes[m] in seen' || m in rest + cs {
      if m < |nodes0| {
        assert nodes[m] == nodes0[m];
        assert nodes0[m] in seen || m in queue;
      } else {
        var x := childTerms[m];
      }
    }
  }

  lemma LinkEdges(keys: seq<Subst>, nodes0: seq<Term>, childTerms0: seq<seq<Term>>, g0: Digraph,
                  nodes: seq<Term>, number: map<Term, Node>, childTerms: seq<seq<Term>>, g: Digraph, n: Node, cs: seq<Node>)
    requires Appending(keys, nodes0, childTerms0, g0, nodes, number, childTerms, g, n, cs) && g0[n] == []
    ensures forall a: Node, b: Node {:trigger Edge(g0, a, b)} :: Edge(g0, a, b) ==> Edge(g[n := cs], a, b)
    ensures forall c {:trigger c in cs} :: c in cs ==> c < |nodes| && Edge(g[n := cs], n, c)
  {
    forall a: Node, b: Node | Edge(g0, a, b) ensures Edge(g[n := cs], a, b) {
      assert g[a] == g0[a] && a != n;
    }
  }

  /** A node that is seen now, and no new child, was there before. */
  lemma LinkOld(keys: seq<Subst>, nodes0: seq<Term>, number0: map<Term, Node>, childTerms0: seq<seq<Term>>, g0: Digraph,
                nodes: seq<Term>, number: map<Term, Node>, childTerms: seq<seq<Term>>, g: Digraph, n: Node, cs: seq<Node>, m: Node, seen: set<Term>)
    requires Appending(keys, nodes0, childTerms0, g0, nodes, number, childTerms, g, n, cs) && m < |nodes| && m !in cs
    ensures m < |nodes0| && nodes[m] == nodes0[m] && (nodes[m] == nodes0[n] ==> m == n)
  {
    var x := childTerms[m];
    assert nodes[m] == nodes0[m] && nodes[n] == nodes0[n];
  }

  lemma LinkNode(keys: seq<Subst>, nodes0: seq<Term>, number0: map<Term, Node>, childTerms0: seq<seq<Term>>, g0: Digraph, seen: set<Term>, roots: seq<Node>,
                 queue: seq<Node>, nodes: seq<Term>, number: map<Term, Node>, childTerms: seq<seq<Term>>, g: Digraph, n: Node, cs: seq<Node>, m: Node)
    requires Building(keys, nodes0, number0, childTerms0, g0, seen, roots, queue) && n < |nodes0| && nodes0[n] !in seen && m < |nodes|
    requires Appending(keys, nodes0, childTerms0, g0, nodes, number, childTerms, g, n, cs) && |cs| == |childTerms0[n]|
    ensures NodeOk(nodes, childTerms, g[n := cs], seen + {nodes0[n]}, m)
  {
    hide Universe, Reach, VarsAre, CoveredAt;
    var h := g[n := cs];
    if m == n {
      assert nodes[n] == nodes0[n] && childTerms[n] == childTerms0[n];
    } else if m < |nodes0| {
      assert NodeOk(nodes0, childTerms0, g0, seen, m);
      assert nodes[m] == nodes0[m] && nodes[n] == nodes0[n] && childTerms[m] == childTerms0[m] && g[m] == g0[m];
      assert nodes[m] != nodes[n];
      forall j | 0 <= j < |h[m]| && nodes[m] in seen ensures h[m][j] < |nodes| && nodes[h[m][j]] == childTerms[m][j] {
        assert h[m][j] == g0[m][j];
        assert nodes[h[m][j]] == nodes0[h[m][j]];
      }
    } else {
      assert childTerms[m] == [] && g[m] == [];
    }
  }

  lemma AppendingNumbered(keys: seq<Subst>, nodes0: seq<Term>, childTerms0: seq<seq<Term>>, g0: Digraph,
                          nodes: seq<Term>, number: map<Term, Node>, childTerms: seq<seq<Term>>, g: Digraph, n: Node, cs: seq<Node>)
    requires Appending(keys, nodes0, childTerms0, g0, nodes, number, childTerms, g, n, cs)
    ensures Numbered(nodes, number) && |childTerms| == |g| == |nodes| && n < |childTerms0| <= |g|
  {
  }

  /** One more child: its node was there, or is appended as a leaf. */
  lemma AppendOne(keys: seq<Subst>, nodes0: seq<Term>, childTerms0: seq<seq<Term>>, g0: Digraph,
                  nodes1: seq<Term>, number1: map<Term, Node>, childTerms1: seq<seq<Term>>, g1: Digraph,
                  nodes: seq<Term>, number: map<Term, Node>, childTerms: seq<seq<Term>>, g: Digraph, n: Node, cs: seq<Node>, c: Node)
    requires Appending(keys, nodes0, childTerms0, g0, nodes1, number1, childTerms1, g1, n, cs)
    requires n < |childTerms0| && |cs| < |childTerms0[n]| && Numbered(nodes, number)
    requires childTerms0[n][|cs|] in number && c == number[childTerms0[n][|cs|]]
    requires (nodes == nodes1 && childTerms == childTerms1 && g == g1)
          || (c == |nodes1| && nodes == nodes1 + [childTerms0[n][|cs|]] && childTerms == childTerms1 + [[]] && g == g1 + [[]])
    ensures Appending(keys, nodes0, childTerms0, g0, nodes, number, childTerms, g, n, cs + [c])
  {
    var cs' := cs + [c];
    assert c in cs';
    forall i: Node {:trigger childTerms[i]} {:trigger g[i]} | |nodes0| <= i < |nodes| ensures childTerms[i] == [] && g[i] == [] && i in cs' {
      if i < |nodes1| { assert childTerms1[i] == [] && i in cs; }
    }
    forall j {:trigger cs'[j]} | 0 <= j < |cs'| ensures cs'[j] < |nodes| && nodes[cs'[j]] == childTerms0[n][j] {
      if j < |cs| { assert nodes1[cs[j]] == childTerms0[n][j]; }
    }
  }

  /** The enabled substitutions, in order. */
  ghost predicate KeysOf(substs: seq<Subst>, keys: seq<Subst>) {
    (forall x {:trigger x in keys} :: x in keys <==> x in substs && x.enabled) && |keys| <= |substs|
    && (forall i, j :: 0 <= i < j < |keys| ==> Before(substs, keys[i], keys[j]))
  }

  ghost predicate Before(substs: seq<Subst>, x: Subst, y: Subst) {
    exists p, q :: 0 <= p < q < |substs| && substs[p] == x && substs[q] == y
  }

  lemma NoKeys(substs: seq<Subst>)
    ensures KeysOf(substs[..0], []) && Labelled([], [], map[], [])
  {
  }

  lemma LabelledKeys(keys: seq<Subst>, nodes: seq<Term>, number: map<Term, Node>, childTerms: seq<seq<Term>>)
    requires Labelled(keys, nodes, number, childTerms)
    ensures |childTerms| == |nodes|
    ensures forall i {:trigger keys[i]} :: 0 <= i < |keys| ==> i < |nodes| && nodes[i] == keys[i].key && VarsAre(keys[i].target, childTerms[i])
  {
  }

  lemma KeysSnoc(substs: seq<Subst>, i: nat, keys: seq<Subst>)
    requires i < |substs| && KeysOf(substs[..i], keys)
    ensures KeysOf(substs[..i + 1], if substs[i].enabled then keys + [substs[i]] else keys)
  {
    var more := substs[..i + 1];
    assert more == substs[..i] + [substs[i]];
    var keys' := if substs[i].enabled then keys + [substs[i]] else keys;
    assert forall x {:trigger x in more} {:trigger x in substs[..i]} :: x in more <==> x in substs[..i] || x == substs[i];
    assert forall x {:trigger x in keys'} :: x in keys' <==> x in keys || (substs[i].enabled && x == substs[i]);
    forall a, b | 0 <= a < b < |keys'| ensures Before(more, keys'[a], keys'[b]) {
      if b < |keys| {
        assert Before(substs[..i], keys[a], keys[b]);
        var p, q :| 0 <= p < q < i && substs[..i][p] == keys[a] && substs[..i][q] == keys[b];
        assert more[p] == keys'[a] && more[q] == keys'[b];
      } else {
        assert keys[a] in keys;
        var p :| 0 <= p < i && substs[..i][p] == keys[a];
        assert more[p] == keys'[a] && more[i] == keys'[b];
      }
    }
  }

  lemma KeysDistinct(substs: seq<Subst>, keys: seq<Subst>)
    requires DistinctKeys(substs) && KeysOf(substs, keys)
    ensures DistinctKeys(keys)
  {
    forall i, j | 0 <= i < j < |keys| ensures keys[i].key != keys[j].key {
      assert Before(substs, keys[i], keys[j]);
      var p, q :| 0 <= p < q < |substs| && substs[p] == keys[i] && substs[q] == keys[j];
    }
  }

  /** The next enabled key has no node yet. */
  lemma NewKey(substs: seq<Subst>, i: nat, keys: seq<Subst>, nodes: seq<Term>, number: map<Term, Node>, childTerms: seq<seq<Term>>)
    requires DistinctKeys(substs) && i < |substs| && KeysOf(substs[..i], keys) && Labelled(keys, nodes, number, childTerms) && |nodes| == |keys|
    ensures substs[i].key !in number && Numbered(nodes, number)
  {
    hide KeysOf, DistinctKeys, Universe, VarsAre;
    forall n: Node | n < |nodes| ensures nodes[n] != substs[i].key {
      KeyDiffers(substs, i, keys, n);
      var k := keys[n];
    }
  }

  lemma KeyDiffers(substs: seq<Subst>, i: nat, keys: seq<Subst>, k: nat)
    requires DistinctKeys(substs) && i < |substs| && KeysOf(substs[..i], keys) && k < |keys|
    ensures keys[k].key != substs[i].key
  {
    assert keys[k] in keys && keys[k] in substs[..i];
    var p :| 0 <= p < i && substs[..i][p] == keys[k];
    assert substs[p].key != substs[i].key;
  }

  lemma LabelledMore(keys0: seq<Subst>, nodes0: seq<Term>, childTerms0: seq<seq<Term>>,
                  keys: seq<Subst>, nodes: seq<Term>, number: map<Term, Node>, childTerms: seq<seq<Term>>)
    requires |keys| == |keys0| + 1 == |nodes| == |childTerms| && keys[..|keys0|] == keys0 && |nodes0| == |childTerms0| == |keys0|
    requires Numbered(nodes, number) && nodes == nodes0 + [keys[|keys0|].key] && childTerms == childTerms0 + [childTerms[|keys0|]]
    requires VarsAre(keys[|keys0|].target, childTerms[|keys0|])
    requires forall i {:trigger keys0[i]} :: 0 <= i < |keys0| ==> nodes0[i] == keys0[i].key && VarsAre(keys0[i].target, childTerms0[i])
    ensures Labelled(keys, nodes, number, childTerms)
  {
    forall i {:trigger keys[i]} | 0 <= i < |keys| ensures nodes[i] == keys[i].key && VarsAre(keys[i].target, childTerms[i]) {
      if i < |keys0| { assert keys[i] == keys0[i]; }
    }
    forall i: Node {:trigger nodes[i]} | i < |nodes| ensures nodes[i] in Universe(keys) {
      var x := keys[i];
    }
  }

  lemma StartBuilding(keys: seq<Subst>, nodes: seq<Term>, number: map<Term, Node>, childTerms: seq<seq<Term>>, g: Digraph)
    requires Labelled(keys, nodes, number, childTerms) && |nodes| == |keys| == |g|
    requires forall n: Node {:trigger g[n]} :: n < |g| ==> g[n] == []
    ensures Building(keys, nodes, number, childTerms, g, {}, [], []) && |keys| <= |nodes|
  {
  }

  lemma AddRoot(keys: seq<Subst>, nodes: seq<Term>, number: map<Term, Node>, childTerms: seq<seq<Term>>, g: Digraph, seen: set<Term>, roots: seq<Node>, i: Node)
    requires Building(keys, nodes, number, childTerms, g, seen, roots, []) && i < |nodes|
    ensures Building(keys, nodes, number, childTerms, g, seen, roots + [i], [i])
  {
    hide Universe, VarsAre, Reach;
    forall n: Node | n < |nodes| && (nodes[n] in seen || n in [i]) ensures CoveredAt(g, roots + [i], n) {
      if n == i {
        ReachSelf(g, i);
        assert i in roots + [i];
      } else {
        assert CoveredAt(g, roots, n);
        var s :| s in roots && Reach(g, s, n);
        assert s in roots + [i];
      }
    }
  }

  lemma QueueTop(keys: seq<Subst>, nodes: seq<Term>, number: map<Term, Node>, childTerms: seq<seq<Term>>, g: Digraph, seen: set<Term>, roots: seq<Node>, queue: seq<Node>)
    requires Building(keys, nodes, number, childTerms, g, seen, roots, queue) && queue != []
    ensures var n, rest := queue[|queue| - 1], queue[..|queue| - 1];
            && n in queue && n < |nodes| && nodes[n] in Universe(keys)
            && (forall m {:trigger m in queue} :: m in queue ==> m == n || m in rest)
            && (forall m {:trigger m in rest} :: m in rest ==> m in queue)
  {
    assert queue == queue[..|queue| - 1] + [queue[|queue| - 1]];
  }

  lemma KeysStay(keys: seq<Subst>, nodes: seq<Term>, number: map<Term, Node>, childTerms: seq<seq<Term>>, g: Digraph, seen: set<Term>, roots: seq<Node>, queue: seq<Node>)
    requires Building(keys, nodes, number, childTerms, g, seen, roots, queue)
    ensures |keys| <= |nodes| && forall k {:trigger keys[k]} :: 0 <= k < |keys| ==> nodes[k] == keys[k].key
  {
  }

  lemma DropSeen(keys: seq<Subst>, nodes: seq<Term>, number: map<Term, Node>, childTerms: seq<seq<Term>>, g: Digraph, seen: set<Term>, roots: seq<Node>, queue: seq<Node>)
    requires Building(keys, nodes, number, childTerms, g, seen, roots, queue) && queue != []
    requires queue[|queue| - 1] < |nodes| && nodes[queue[|queue| - 1]] in seen
    ensures Building(keys, nodes, number, childTerms, g, seen, roots, queue[..|queue| - 1])
  {
    hide Universe, VarsAre, Reach;
    QueueTop(keys, nodes, number, childTerms, g, seen, roots, queue);
  }

  lemma GraphBuilt(keys: seq<Subst>, nodes: seq<Term>, number: map<Term, Node>, childTerms: seq<seq<Term>>, g: Digraph, seen: set<Term>, roots: seq<Node>)
    requires Building(keys, nodes, number, childTerms, g, seen, roots, []) && forall k {:trigger keys[k]} :: 0 <= k < |keys| ==> keys[k].key in seen
    ensures GraphOf(keys, nodes, g) && Covered(g, roots) && Numbered(nodes, number) && |g| == |nodes| && |keys| <= |nodes|
    ensures forall r {:trigger r in roots} :: r in roots ==> r < |g|
  {
    hide Universe, Reach;
    forall n: Node | n < |nodes| ensures nodes[n] in seen && NodeOk(nodes, childTerms, g, seen, n) {
      if n < |keys| { assert keys[n].key in seen; }
    }
    forall n: Node, c: Node | n < |g| && c in g[n] ensures c < |g| {
      assert NodeOk(nodes, childTerms, g, seen, n);
    }
    forall n: Node | n < |g| ensures CoveredAt(g, roots, n) {
      assert nodes[n] in seen;
    }
    forall i, v: Term | 0 <= i < |keys| ensures HasVarChild(nodes, g, i, v) <==> v in Subterms(keys[i].target) && v.Var? {
      BuiltChildren(keys, nodes, number, childTerms, g, seen, i, v);
    }
    forall i: Node {:trigger g[i]} | |keys| <= i < |nodes| ensures g[i] == [] {
      assert NodeOk(nodes, childTerms, g, seen, i) && childTerms[i] == [];
    }
    forall i, j | 0 <= i < j < |nodes| ensures nodes[i] != nodes[j] {
      assert number[nodes[i]] == i && number[nodes[j]] == j;
    }
  }

  lemma BuiltChildren(keys: seq<Subst>, nodes: seq<Term>, number: map<Term, Node>, childTerms: seq<seq<Term>>, g: Digraph, seen: set<Term>, i: nat, v: Term)
    requires Labelled(keys, nodes, number, childTerms) && |g| == |nodes| && i < |keys| && nodes[i] in seen && NodeOk(nodes, childTerms, g, seen, i)
    ensures HasVarChild(nodes, g, i, v) <==> v in Subterms(keys[i].target) && v.Var?
  {
    assert VarsAre(keys[i].target, childTerms[i]);
    if HasVarChild(nodes, g, i, v) {
      var c: Node :| c in g[i] && c < |nodes| && nodes[c] == v;
      var j :| 0 <= j < |g[i]| && g[i][j] == c;
      assert childTerms[i][j] in childTerms[i];
    }
    if v in childTerms[i] {
      var j :| 0 <= j < |childTerms[i]| && childTerms[i][j] == v;
      assert g[i][j] in g[i];
    }
  }

  /** Exactly the keys whose node kept its edges. */
  ghost predicate LooplessOf(keys: seq<Subst>, swiped: set<Node>, result: map<Term, Term>) {
    && (forall k {:trigger k in result} :: k in result <==> exists j :: 0 <= j < |keys| && j !in swiped && keys[j].key == k)
    && (forall j {:trigger keys[j]} :: 0 <= j < |keys| && j !in swiped ==> keys[j].key in result && result[keys[j].key] == keys[j].target)
  }

  lemma GraphFacts(keys: seq<Subst>, nodes: seq<Term>, g: Digraph)
    requires GraphOf(keys, nodes, g)
    ensures WellFormed(g) && |g| == |nodes| && |keys| <= |nodes|
  {
  }

  lemma NoKeyInItself(substs: seq<Subst>, keys: seq<Subst>, nodes: seq<Term>, g: Digraph)
    requires KeysOf(substs, keys) && GraphOf(keys, nodes, g)
    requires forall i {:trigger substs[i]} :: 0 <= i < |substs| && substs[i].enabled && substs[i].key.Var? ==> substs[i].key !in Subterms(substs[i].target)
    ensures NoSelfLoops(g)
  {
    forall x: Node ensures !Edge(g, x, x) {
      if x < |keys| {
        assert keys[x] in keys;
        var i :| 0 <= i < |substs| && substs[i] == keys[x];
        assert substs[i].enabled && nodes[x] == keys[x].key;
        var k := keys[x];
        assert HasVarChild(nodes, g, x, k.key) ==> k.key.Var? && k.key in Subterms(k.target);
        assert x in g[x] ==> HasVarChild(nodes, g, x, k.key);
      } else if x < |g| {
        assert g[x] == [];
      }
    }
  }

  lemma SwipedMore(g: Digraph, before: Digraph, after: Digraph, swiped: set<Node>, more: set<Node>)
    requires Swiped(g, before, swiped) && Swiped(before, after, more)
    requires forall n {:trigger n in more} :: n in more ==> n < |before| && OnCycle(before, n)
    ensures Swiped(g, after, swiped + more)
    ensures forall n {:trigger n in more} :: n in more ==> n < |g| && OnCycle(g, n)
  {
    forall n: Node {:trigger after[n]} {:trigger g[n]} | n < |g| ensures after[n] == if n in swiped + more then [] else g[n] {
      assert after[n] == (if n in more then [] else before[n]) && before[n] == (if n in swiped then [] else g[n]);
    }
    SwipedEdges(g, before, swiped);
    forall n | n in more ensures n < |g| && OnCycle(g, n) {
      var y: Node :| y != n && Mutual(before, n, y);
      ReachMore(before, g, n, y);
      ReachMore(before, g, y, n);
      assert Mutual(g, n, y);
    }
  }

  lemma SwipedEdges(g: Digraph, h: Digraph, swiped: set<Node>)
    requires Swiped(g, h, swiped)
    ensures forall a: Node, b: Node {:trigger Edge(h, a, b)} :: Edge(h, a, b) ==> Edge(g, a, b)
  {
    forall a: Node, b: Node | Edge(h, a, b) ensures Edge(g, a, b) {
      assert h[a] == if a in swiped then [] else g[a];
    }
  }

  lemma NoLoopsLeft(g: Digraph, h: Digraph, swiped: set<Node>, starts: seq<Node>)
    requires NoSelfLoops(g) && Swiped(g, h, swiped) && Covered(h, starts) && LoopsAre(h, starts, [])
    ensures Acyclic(h)
  {
    SwipedEdges(g, h, swiped);
    forall v: Node | v < |h| ensures !OnCycle(h, v) {
      assert CoveredAt(h, starts, v);
      var s :| s in starts && Reach(h, s, v);
    }
    NoCyclesAcyclic(h);
  }

  lemma ResultRanked(keys: seq<Subst>, nodes: seq<Term>, number: map<Term, Node>, g: Digraph, h: Digraph, swiped: set<Node>, result: map<Term, Term>, rank: map<Term, nat>)
    requires GraphOf(keys, nodes, g) && Numbered(nodes, number) && Swiped(g, h, swiped) && WellFormed(h) && Acyclic(h) && LooplessOf(keys, swiped, result)
    requires rank.Keys == number.Keys && forall t {:trigger rank[t]} :: t in rank ==> rank[t] == |ReachSet(h, number[t])|
    ensures Rewriters.RankedBy(result, rank)
  {
    hide Reach, Acyclic;
    forall k | k in result ensures k in rank {
      var j :| 0 <= j < |keys| && j !in swiped && keys[j].key == k;
      var x := nodes[j];
    }
    forall k, v | k in result && v in result && v.Var? && v in Subterms(result[k]) ensures rank[v] < rank[k] {
      var j :| 0 <= j < |keys| && j !in swiped && keys[j].key == k;
      var x := keys[j];
      assert nodes[j] == k && number[nodes[j]] == j;
      assert HasVarChild(nodes, g, j, v);
      var c: Node :| c in g[j] && c < |nodes| && nodes[c] == v;
      assert h[j] == g[j] && number[nodes[c]] == c;
      assert Edge(h, j, c);
      AcyclicRank(h, j, c);
    }
  }

  class SubstLoopBreaker {
    var nodes: seq<Term>
    var number: map<Term, Node>
    var childTerms: seq<seq<Term>>
    var children: Digraph

    constructor ()
      ensures nodes == [] && number == map[] && childTerms == [] && children == []
    {
      nodes, number, childTerms, children := [], map[], [], [];
    }

    /** The node of a term; a new one has the variables of the target as children, if there is a target. */
    method Alloc(tr: Term, vars: seq<Term>) returns (n: Node)
      requires Numbered(nodes, number) && |childTerms| == |children| == |nodes|
      modifies this
      ensures Numbered(nodes, number) && |childTerms| == |children| == |nodes|
      ensures tr in number && n == number[tr]
      ensures tr in old(number) ==> nodes == old(nodes) && number == old(number) && childTerms == old(childTerms) && children == old(children)
      ensures tr !in old(number) ==> n == |old(nodes)| && nodes == old(nodes) + [tr] && childTerms == old(childTerms) + [vars] && children == old(children) + [[]]
    {
      if tr in number {
        n := number[tr];
        return;
      }
      n := |nodes|;
      nodes, childTerms, children := nodes + [tr], childTerms + [vars], children + [[]];
      number := number[tr := n];
    }

    /** Resolves the children of one node; terms without a substitution get a node now. */
    method LinkChildren(ghost keys: seq<Subst>, ghost seen: set<Term>, ghost roots: seq<Node>, ghost queue: seq<Node>, n: Node, ghost rest: seq<Node>) returns (cs: seq<Node>)
      requires Building(keys, nodes, number, childTerms, children, seen, roots, queue) && n in queue && n < |nodes| && nodes[n] !in seen
      requires forall m {:trigger m in queue} :: m in queue ==> m == n || m in rest
      requires forall m {:trigger m in rest} :: m in rest ==> m in queue
      modifies this
      ensures Building(keys, nodes, number, childTerms, children, seen + {old(nodes)[n]}, roots, rest + cs)
    {
      hide Building, Numbered, Appending;
      ghost var nodes0, number0, childTerms0, g0 := nodes, number, childTerms, children;
      AppendStart(keys, nodes, number, childTerms, children, seen, roots, queue, n);
      var wanted := childTerms[n];
      cs := [];
      for j := 0 to |wanted|
        invariant Appending(keys, nodes0, childTerms0, g0, nodes, number, childTerms, children, n, cs) && |cs| == j
      {
        ghost var nodes1, number1, childTerms1, g1 := nodes, number, childTerms, children;
        AppendingNumbered(keys, nodes0, childTerms0, g0, nodes, number, childTerms, children, n, cs);
        var cn := Alloc(wanted[j], []);
        AppendOne(keys, nodes0, childTerms0, g0, nodes1, number1, childTerms1, g1, nodes, number, childTerms, children, n, cs, cn);
        cs := cs + [cn];
      }
      AppendingNumbered(keys, nodes0, childTerms0, g0, nodes, number, childTerms, children, n, cs);
      LinkKeeps(keys, nodes0, number0, childTerms0, g0, seen, roots, queue, nodes, number, childTerms, children, n, cs, rest);
      children := children[n := cs];
    }

    /** One node for every enabled substitution, in order. */
    method AllocKeys(substs: seq<Subst>) returns (keys: seq<Subst>)
      requires DistinctKeys(substs) && nodes == [] && number == map[] && childTerms == [] && children == []
      modifies this
      ensures KeysOf(substs, keys) && DistinctKeys(keys) && Labelled(keys, nodes, number, childTerms) && |nodes| == |keys| == |children|
      ensures forall n: Node {:trigger children[n]} :: n < |children| ==> children[n] == []
    {
      hide KeysOf, Labelled, Numbered, DistinctKeys, VarsAre;
      keys := [];
      NoKeys(substs);
      for i := 0 to |substs|
        invariant KeysOf(substs[..i], keys) && Labelled(keys, nodes, number, childTerms) && |nodes| == |keys| == |children|
        invariant forall n: Node {:trigger children[n]} :: n < |children| ==> children[n] == []
      {
        KeysSnoc(substs, i, keys);
        if substs[i].enabled {
          NewKey(substs, i, keys, nodes, number, childTerms);
          LabelledKeys(keys, nodes, number, childTerms);
          var vars := GetVars(substs[i].target);
          ghost var keys0, nodes0, childTerms0 := keys, nodes, childTerms;
          var n := Alloc(substs[i].key, vars);
          keys := keys + [substs[i]];
          LabelledMore(keys0, nodes0, childTerms0, keys, nodes, number, childTerms);
        }
      }
      assert substs[..|substs|] == substs;
      KeysDistinct(substs, keys);
    }

    /** Builds the graph; every node is covered by the roots. */
    method ConstructSubstitutionGraph(substs: seq<Subst>) returns (keys: seq<Subst>, roots: seq<Node>)
      requires DistinctKeys(substs) && nodes == [] && number == map[] && childTerms == [] && children == []
      modifies this
      ensures KeysOf(substs, keys) && DistinctKeys(keys) && GraphOf(keys, nodes, children) && Covered(children, roots) && Numbered(nodes, number)
      ensures forall r {:trigger r in roots} :: r in roots ==> r < |children|
    {
      hide Building, Labelled, Covered, CoveredAt, GraphOf, KeysOf, Numbered, Universe;
      keys := AllocKeys(substs);
      roots := [];
      var seen: set<Term> := {};
      StartBuilding(keys, nodes, number, childTerms, children);
      for i := 0 to |keys|
        invariant Building(keys, nodes, number, childTerms, children, seen, roots, []) && seen <= Universe(keys) && |keys| <= |nodes|
        invariant forall k {:trigger keys[k]} :: 0 <= k < i ==> keys[k].key in seen
      {
        KeysStay(keys, nodes, number, childTerms, children, seen, roots, []);
        var k := keys[i];
        if nodes[i] !in seen {
          var queue: seq<Node> := [i];
          AddRoot(keys, nodes, number, childTerms, children, seen, roots, i);
          roots := roots + [i];
          while queue != []
            invariant Building(keys, nodes, number, childTerms, children, seen, roots, queue) && seen <= Universe(keys) && |keys| <= |nodes|
            invariant keys[i].key in seen || i in queue
            invariant forall k {:trigger keys[k]} :: 0 <= k < i ==> keys[k].key in seen
            decreases |Universe(keys) - seen|, |queue|
          {
            var n := queue[|queue| - 1];
            ghost var queue0 := queue;
            queue := queue[..|queue| - 1];
            QueueTop(keys, nodes, number, childTerms, children, seen, roots, queue0);
            KeysStay(keys, nodes, number, childTerms, children, seen, roots, queue0);
            var tr := nodes[n];
            if tr !in seen {
              var cs := LinkChildren(keys, seen, roots, queue0, n, queue);
              KeysStay(keys, nodes, number, childTerms, children, seen + {tr}, roots, queue + cs);
              assert Universe(keys) - (seen + {tr}) == (Universe(keys) - seen) - {tr};
              seen := seen + {tr};
              queue := queue + cs;
            } else {
              DropSeen(keys, nodes, number, childTerms, children, seen, roots, queue0);
            }
          }
        }
      }
      GraphBuilt(keys, nodes, number, childTerms, children, seen, roots);
    }

    /** The substitutions that keep their edges: those on no loop, and all but one of every loop that was
        broken. They do not depend on each other in circles. */
    method Run(substs: seq<Subst>) returns (order: seq<Term>, result: map<Term, Term>, ghost keys: seq<Subst>, ghost g: Digraph, ghost rank: map<Term, nat>)
      requires DistinctKeys(substs) && nodes == [] && number == map[] && childTerms == [] && children == []
      requires forall i {:trigger substs[i]} :: 0 <= i < |substs| && substs[i].enabled && substs[i].key.Var? ==> substs[i].key !in Subterms(substs[i].target)
      modifies this
      ensures KeysOf(substs, keys) && GraphOf(keys, nodes, g)
      ensures (forall i, j {:trigger order[i], order[j]} :: 0 <= i < j < |order| ==> order[i] != order[j]) && forall k {:trigger k in order} {:trigger k in result} :: k in order <==> k in result
      ensures forall k {:trigger k in result} :: k in result ==> exists i :: 0 <= i < |keys| && keys[i].key == k && keys[i].target == result[k]
      ensures forall i {:trigger keys[i]} :: 0 <= i < |keys| && keys[i].key !in result ==> OnCycle(g, i)
      ensures Rewriters.RankedBy(result, rank)
    {
      hide GraphOf, Covered, Reach, OnCycle, KeysOf, Numbered, LoopsAre, NoSelfLoops, Acyclic;
      var keyed, roots := ConstructSubstitutionGraph(substs);
      var startNodes: seq<Node> := roots;
      keys, g := keyed, children;
      GraphFacts(keys, nodes, g);
      NoKeyInItself(substs, keys, nodes, g);
      ghost var nodes0, number0 := nodes, number;
      var swiped: set<Node> := {};
      var loops := FindLoops(children, startNodes);
      while loops != []
        invariant nodes == nodes0 && number == number0
        invariant WellFormed(children) && Swiped(g, children, swiped) && Covered(children, startNodes) && LoopsAre(children, startNodes, loops)
        invariant forall s {:trigger s in startNodes} :: s in startNodes ==> s < |children|
        invariant forall n {:trigger n in swiped} :: n in swiped ==> n < |g| && OnCycle(g, n)
        decreases Inner(children)
      {
        ghost var before := children;
        var broken, orphans, more := BreakLoops(children, loops, startNodes);
        children := broken;
        SwipedMore(g, before, children, swiped, more);
        swiped := swiped + more;
        startNodes := startNodes + orphans;
        loops := FindLoops(children, startNodes);
      }
      NoLoopsLeft(g, children, swiped, startNodes);
      order, result := ConstructLooplessSubstitution(keyed, swiped);
      rank := map t | t in number :: |ReachSet(children, number[t])|;
      ResultRanked(keys, nodes, number, g, children, swiped, result, rank);
    }

    method ConstructLooplessSubstitution(keys: seq<Subst>, swiped: set<Node>) returns (order: seq<Term>, result: map<Term, Term>)
      requires DistinctKeys(keys)
      ensures LooplessOf(keys, swiped, result)
      ensures (forall i, j {:trigger order[i], order[j]} :: 0 <= i < j < |order| ==> order[i] != order[j]) && forall k {:trigger k in order} {:trigger k in result} :: k in order <==> k in result
    {
      order, result := [], map[];
      for i := 0 to |keys|
        invariant (forall a, b {:trigger order[a], order[b]} :: 0 <= a < b < |order| ==> order[a] != order[b]) && forall k {:trigger k in order} {:trigger k in result} :: k in order <==> k in result
        invariant forall k {:trigger k in result} :: k in result <==> exists j :: 0 <= j < i && j !in swiped && keys[j].key == k
        invariant forall j {:trigger keys[j]} :: 0 <= j < i && j !in swiped ==> keys[j].key in result && result[keys[j].key] == keys[j].target
      {
        if i !in swiped {
          assert keys[i].key !in result;
          assert forall a {:trigger order[a]} :: 0 <= a < |order| ==> order[a] in order;
          order := order + [keys[i].key];
          result := result[keys[i].key := keys[i].target];
        }
      }
    }
  }
}
