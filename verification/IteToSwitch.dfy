/** From a term with if-then-elses to one switch per top-level if-then-else: the conjunction, over the
    values it can take, of "the path condition implies that it equals the value". */
module IteToSwitches {
  import opened Terms
  import opened Dfs
  import opened IteDags
  import opened PathConditions

  // ---------------------------------------------------------------------------
  // Which if-then-elses get a switch

  /** The if-then-elses one term puts at the top level: those among a non-ite's children, and the
      condition of an ite. */
  function Exposed(t: Term): set<Term> {
    if t.Ite? then (if t.cond.Ite? then {t.cond} else {})
    else set c | c in Children(t) && c.Ite?
  }

  ghost function TopsOf(root: Term, seen: set<Term>): set<Term> {
    (if root.Ite? then {root} else {}) + set s, u | s in seen && u in Exposed(s) :: u
  }

  ghost function TopLevels(root: Term): set<Term> {
    TopsOf(root, Subterms(root))
  }

  lemma TermsDescend(root: Term)
    ensures Descending(Children, Size, Subterms(root)) && root in Subterms(root)
  {
    forall x, y {:trigger y in Children(x)} | x in Subterms(root) && y in Children(x)
      ensures y in Subterms(root) && Size(y) < Size(x)
    {
      SubtermsClosed(root, x, y);
      ChildIsSmaller(x, y);
    }
  }

  // ---------------------------------------------------------------------------
  // Building the graph

  ghost predicate FlagsFit(flags: map<Term, Mark>, open: set<Term>, done: set<Term>) {
    forall t {:trigger t in flags} :: (t in flags <==> t in open + done) && (t in flags ==> (flags[t] == Black <==> t in done) && (flags[t] == Gray <==> t in open))
  }

  function Unflagged(ts: seq<Term>, flags: map<Term, Mark>): seq<Term> {
    if ts == [] then [] else (if ts[0] in flags then [] else [ts[0]]) + Unflagged(ts[1..], flags)
  }

  lemma {:induction false} UnflaggedElems(ts: seq<Term>, flags: map<Term, Mark>, t: Term)
    ensures t in Unflagged(ts, flags) <==> t in ts && t !in flags
  {
    if ts != [] {
      UnflaggedElems(ts[1..], flags, t);
      assert ts == [ts[0]] + ts[1..];
    }
  }

  lemma UnflaggedPushed(t: Term, flags: map<Term, Mark>, open: set<Term>, done: set<Term>)
    requires FlagsFit(flags, open, done) && t !in Children(t)
    requires forall y {:trigger y in Children(t)} :: y in Children(t) ==> y !in open
    ensures Pushed(Children, t, done, Unflagged(Children(t), flags[t := Gray]))
    ensures Unflagged(Children(t), flags[t := Gray]) == [] ==> forall y {:trigger y in Children(t)} :: y in Children(t) ==> y in done
  {
    forall y ensures y in Unflagged(Children(t), flags[t := Gray]) <==> y in Children(t) && y !in flags[t := Gray] {
      UnflaggedElems(Children(t), flags[t := Gray], y);
    }
  }

  /** What the graph holds after the terms of `done`. */
  ghost predicate Gathered(root: Term, done: set<Term>, nodes: map<Term, NodeRef>, tops: seq<Term>) {
    && nodes.Keys <= done && (forall t {:trigger t in nodes} :: t in done && t.Ite? ==> t in nodes)
    && (forall i, j :: 0 <= i < j < |tops| ==> tops[i] != tops[j])
    && (forall t {:trigger t in tops} :: t in tops <==> t in TopsOf(root, done))
  }

  lemma GatherOne(root: Term, done: set<Term>, nodes: map<Term, NodeRef>, tops: seq<Term>, t: Term, nodes': map<Term, NodeRef>, tops': seq<Term>)
    requires Gathered(root, done, nodes, tops)
    requires nodes'.Keys == nodes.Keys + if t.Ite? then {t.tt, t.ff, t} else {}
    requires t.Ite? ==> t.tt in done && t.ff in done
    requires forall i, j :: 0 <= i < j < |tops'| ==> tops'[i] != tops'[j]
    requires forall u {:trigger u in tops'} :: u in tops' <==> u in tops || u in Exposed(t)
    ensures Gathered(root, done + {t}, nodes', tops')
  {
    assert forall u :: u in TopsOf(root, done + {t}) <==> u in TopsOf(root, done) || u in Exposed(t);
  }

  /** Adds the if-then-elses a finished term exposes. */
  method AddExposed(dag: Dag, t: Term)
    requires forall i, j :: 0 <= i < j < |dag.topLevelItes| ==> dag.topLevelItes[i] != dag.topLevelItes[j]
    modifies dag`topLevelItes
    ensures forall i, j :: 0 <= i < j < |dag.topLevelItes| ==> dag.topLevelItes[i] != dag.topLevelItes[j]
    ensures forall u {:trigger u in dag.topLevelItes} :: u in dag.topLevelItes <==> u in old(dag.topLevelItes) || u in Exposed(t)
  {
    if t.Ite? {
      if t.cond.Ite? {
        dag.AddTopLevelIte(t.cond);
      }
    } else {
      var children := Children(t);
      for k := 0 to |children|
        invariant forall i, j :: 0 <= i < j < |dag.topLevelItes| ==> dag.topLevelItes[i] != dag.topLevelItes[j]
        invariant forall u {:trigger u in dag.topLevelItes} :: u in dag.topLevelItes <==> u in old(dag.topLevelItes) || (u in children[..k] && u.Ite?)
      {
        assert children[..k + 1] == children[..k] + [children[k]];
        if children[k].Ite? {
          dag.AddTopLevelIte(children[k]);
        }
      }
      assert children[..|children|] == children;
    }
  }

  lemma GatherStart(root: Term, tops: seq<Term>)
    requires tops == if root.Ite? then [root] else []
    ensures Gathered(root, {}, map[], tops) && FlagsFit(map[], {}, {})
  {
  }

  lemma FlagOf(flags: map<Term, Mark>, open: set<Term>, done: set<Term>, t: Term)
    requires FlagsFit(flags, open, done)
    ensures (t in flags && flags[t] == Black) <==> t in done
    ensures t !in done ==> (t in flags <==> t in open)
  {
  }

  lemma FlagDone(flags: map<Term, Mark>, open: set<Term>, done: set<Term>, t: Term)
    requires FlagsFit(flags, open, done)
    ensures FlagsFit(flags[t := Black], open - {t}, done + {t})
    ensures FlagsFit(flags[t := Gray], open + {t}, done - {t})
    ensures flags[t := Gray][t := Black] == flags[t := Black]
  {
  }

  lemma NotItsOwnChild(t: Term)
    ensures t !in Children(t)
  {
    if t in Children(t) { ChildIsSmaller(t, t); }
  }

  /** Processes a term whose children are done. */
  method GatherNode(dag: Dag, ghost root: Term, ghost done: set<Term>, tr: Term)
    requires dag.Valid() && Gathered(root, done, dag.nodes, dag.topLevelItes) && tr !in done
    requires forall y {:trigger y in Children(tr)} :: y in Children(tr) ==> y in done
    modifies dag`arena, dag`nodes, dag`topLevelItes
    ensures dag.Valid() && Gathered(root, done + {tr}, dag.nodes, dag.topLevelItes)
  {
    ghost var nodes0, tops0 := dag.nodes, dag.topLevelItes;
    if tr.Ite? {
      assert tr.cond in Children(tr) && tr.tt in Children(tr) && tr.ff in Children(tr);
      dag.AddIte(tr, tr.cond, tr.tt, tr.ff);
    }
    AddExposed(dag, tr);
    GatherOne(root, done, nodes0, tops0, tr, dag.nodes, dag.topLevelItes);
  }

  lemma GatherEnd(root: Term, bits: seq<bool>, open: set<Term>, done: set<Term>)
    requires Walking(Children, Size, Subterms(root), root, [], bits, open, done)
    ensures done == Subterms(root)
  {
    Finished(Children, Size, Subterms(root), root, bits, open, done);
    SubtermsLeast(root, done);
  }

  /** Depth first over all subterms: every if-then-else becomes a node after its branches. */
  method ConstructIteDag(root: Term) returns (dag: Dag)
    ensures fresh(dag) && dag.Valid() && dag.leaves == {} && dag.parents == map[]
    ensures Gathered(root, Subterms(root), dag.nodes, dag.topLevelItes)
  {
    hide Built, Walking, Descending, Work, FlagsFit, Gathered, Pushed, TopsOf, Subterms, Size, Exposed, Unflagged;
    dag := new Dag();
    var flags: map<Term, Mark> := map[];
    if root.Ite? {
      dag.AddTopLevelIte(root);
    }
    GatherStart(root, dag.topLevelItes);
    var stack := [root];
    ghost var univ := Subterms(root);
    ghost var bits, open: set<Term>, done: set<Term> := [false], {}, {};
    TermsDescend(root);
    Start(Children, Size, univ, root);
    while stack != []
      invariant dag.Valid() && dag.leaves == {} && dag.parents == map[]
      invariant Walking(Children, Size, univ, root, stack, bits, open, done) && FlagsFit(flags, open, done)
      invariant Gathered(root, done, dag.nodes, dag.topLevelItes)
      decreases Work<Term>(univ, open, done), |stack|
    {
      var top := |stack| - 1;
      var tr := stack[top];
      Top(Children, Size, univ, root, stack, bits, open, done);
      Apart(Children, Size, univ, root, stack, bits, open, done);
      FlagOf(flags, open, done, tr);
      FlagDone(flags, open, done, tr);
      if tr in flags && flags[tr] == Black {
        Pop(Children, Size, univ, root, stack, bits, open, done);
        stack, bits := stack[..top], bits[..top];
        continue;
      }
      assert done - {tr} == done;
      WorkShrinks<Term>(univ, open, done, tr);
      if tr !in flags {
        NotItsOwnChild(tr);
        UnflaggedPushed(tr, flags, open, done);
        flags := flags[tr := Gray];
        var unprocessed := Unflagged(Children(tr), flags);
        if unprocessed != [] {
          Expand(Children, Size, univ, root, stack, bits, open, done, unprocessed);
          stack, bits := stack + unprocessed, bits[top := true] + seq(|unprocessed|, i => false);
          open := open + {tr};
          continue;
        }
      }
      Finish(Children, Size, univ, root, stack, bits, open, done);
      flags := flags[tr := Black];
      stack, bits := stack[..top], bits[..top];
      GatherNode(dag, root, done, tr);
      open, done := open - {tr}, done + {tr};
    }
    GatherEnd(root, bits, open, done);
  }

  // ---------------------------------------------------------------------------
  // Switches

  /** The value term a model selects. */
  ghost function Select(m: Model, t: Term): Term {
    if t.Ite? then Select(m, if Holds(m, t.cond) then t.tt else t.ff) else t
  }

  /** The switch of `root` says, in every model, that it equals the value term the model selects. */
  ghost predicate IsSwitch(root: Term, switch: Term) {
    forall m: Model {:trigger Holds(m, switch)} :: Holds(m, switch) <==> Eval(m, root) == Eval(m, Select(m, root))
  }

  lemma {:induction false} FinalIsSelected(arena: seq<Node>, nodes: map<Term, NodeRef>, m: Model, i: NodeRef)
    requires Built(arena, nodes) && i < |arena|
    ensures arena[Final(arena, nodes, m, i)].term == Select(m, arena[i].term)
    decreases i
  {
    PlacedAt(arena, nodes, i);
    if arena[i].Inner? {
      FinalIsSelected(arena, nodes, m, Chosen(arena, m, i));
    }
  }

  function CasesOf(root: Term, pairs: seq<CondValPair>): (cases: seq<Term>)
    ensures |cases| == |pairs|
    ensures forall j {:trigger cases[j]} {:trigger pairs[j]} :: 0 <= j < |pairs| ==> cases[j] == Implies(pairs[j].cond, Eq(root, pairs[j].val))
  {
    seq(|pairs|, j requires 0 <= j < |pairs| => Implies(pairs[j].cond, Eq(root, pairs[j].val)))
  }

  lemma CaseHolds(m: Model, root: Term, p: CondValPair)
    ensures Holds(m, Implies(p.cond, Eq(root, p.val))) <==> (Holds(m, p.cond) ==> Eval(m, root) == Eval(m, p.val))
  {
    OpsHold(m, root, p.val);
    OpsHold(m, p.cond, Eq(root, p.val));
  }

  /** The conjunction of the cases is a switch. */
  lemma CasesMakeSwitch(arena: seq<Node>, nodes: map<Term, NodeRef>, root: Term, pairs: seq<CondValPair>, refs: seq<NodeRef>)
    requires Built(arena, nodes) && root in nodes && nodes[root] < |arena| && Separates(arena, nodes, nodes[root], pairs, refs)
    ensures IsSwitch(root, And(CasesOf(root, pairs)))
  {
    NodeOf(arena, nodes, root);
    hide Built;
    var cases := CasesOf(root, pairs);
    forall m: Model ensures Holds(m, And(cases)) <==> Eval(m, root) == Eval(m, Select(m, root)) {
      AndHolds(m, cases);
      FinalIsSelected(arena, nodes, m, nodes[root]);
      var n := Final(arena, nodes, m, nodes[root]);
      assert n in refs;
      var k :| 0 <= k < |refs| && refs[k] == n;
      var p := pairs[k];
      assert Holds(m, pairs[k].cond);
      CaseHolds(m, root, pairs[k]);
      assert cases[k] in cases;
      if Eval(m, root) == Eval(m, Select(m, root)) {
        forall t | t in cases ensures Holds(m, t) {
          var j :| 0 <= j < |cases| && cases[j] == t;
          assert Holds(m, pairs[j].cond) ==> refs[j] == n;
          CaseHolds(m, root, pairs[j]);
        }
      }
    }
  }

  /** The switch of one top-level if-then-else. */
  method MakeSwitch(iteDag: Dag, root: Term) returns (switch: Term)
    requires iteDag.Valid() && root in iteDag.nodes && root.Ite?
    ensures IsSwitch(root, switch)
  {
    var dag := iteDag.GetReachableSubGraph(root);
    RootIsBranch(root);
    dag.AnnotateWithParentInfo(root);
    var rootSwitches, refs := GetCondValPairs(dag, dag.nodes[root]);
    var cases: seq<Term> := [];
    for i := 0 to |rootSwitches|
      invariant cases == CasesOf(root, rootSwitches[..i])
    {
      cases := cases + [Implies(rootSwitches[i].cond, Eq(root, rootSwitches[i].val))];
    }
    assert rootSwitches[..|rootSwitches|] == rootSwitches;
    CasesMakeSwitch(dag.arena, dag.nodes, root, rootSwitches, refs);
    switch := And(cases);
  }

  lemma RootIsBranch(t: Term)
    ensures t in Branches(t)
  {
  }

  /** One switch for every top-level if-then-else, in the order they were found. */
  method ConstructSwitches(iteDag: Dag, root: Term) returns (switches: seq<Term>)
    requires iteDag.Valid() && Gathered(root, Subterms(root), iteDag.nodes, iteDag.topLevelItes)
    ensures SwitchesFor(root, iteDag.topLevelItes, switches)
  {
    switches := [];
    ghost var tops := iteDag.topLevelItes;
    for i := 0 to |iteDag.topLevelItes|
      invariant |switches| == i
      invariant forall k {:trigger switches[k]} :: 0 <= k < i ==> IsSwitch(tops[k], switches[k])
    {
      TopIsNode(root, iteDag.nodes, tops, i);
      var switch := MakeSwitch(iteDag, iteDag.topLevelItes[i]);
      switches := switches + [switch];
    }
  }

  lemma TopIsNode(root: Term, nodes: map<Term, NodeRef>, tops: seq<Term>, i: nat)
    requires Gathered(root, Subterms(root), nodes, tops) && i < |tops|
    ensures tops[i].Ite? && tops[i] in nodes
  {
    assert tops[i] in tops;
    var t := tops[i];
    if t != root || !root.Ite? {
      var s, u :| s in Subterms(root) && u in Exposed(s) && u == t;
      assert u in Children(s);
      SubtermsClosed(root, s, u);
    }
  }

  /** `switches` holds a switch for each top-level if-then-else of `root`, and each only once. */
  ghost predicate SwitchesFor(root: Term, tops: seq<Term>, switches: seq<Term>) {
    && (forall i, j :: 0 <= i < j < |tops| ==> tops[i] != tops[j])
    && (forall t {:trigger t in tops} :: t in tops <==> t in TopLevels(root))
    && |switches| == |tops| && forall k {:trigger switches[k]} :: 0 <= k < |switches| ==> IsSwitch(tops[k], switches[k])
  }

  /** The term with its switches added. */
  function Conjoin(root: Term, switches: seq<Term>): Term {
    if switches == [] then root else And([root, And(switches)])
  }
}
