/** The interpolation engine: it walks the proof graph from the leaves to the root and keeps, for
    every node, the colours of its shared variables and its partial interpolant. */
module InterpolationContexts {
  import opened Clauses
  import opened Proofs
  import opened Rules
  import opened Formulas
  import opened Interpolation
  import opened ProofGraphs
  import opened GraphWalks
  import opened Unfolding
  import opened Normalization
  import opened Strength

  /** One node's record: its two bit masks and its partial interpolant, once computed. */
  datatype NodeData = NodeData(bits: Bits, partial: Fla)

  /** A pivot's colour, or that it is an assumption variable. */
  datatype PivotColour = Colour(c: Colour) | Assumed

  /** The records agree with the derivations. */
  ghost predicate Recorded(s: Problem, g: Graph, rank: map<Id, nat>, data: seq<NodeData>, n: Id) {
    && Ranked(g, rank) && n in g && n < |data|
    && data[n].bits == BitsOf(s, Unfold(g, rank, n)) && data[n].partial == Itp(s, Unfold(g, rank, n))
  }

  lemma LeafBitsNext(s: Problem, id: Id, c: seq<Lit>, i: nat)
    requires i < |c|
    ensures var v := c[i].v;
            var old_, new_ := LeafBits(s, id, c[..i]), LeafBits(s, id, c[..i + 1]);
            && (VarClass(s, v) != AB ==> new_ == old_)
            && (VarClass(s, v) == AB ==>
                  new_ == match s.labels(id, v)
                          case A => Bits(old_.a + {v}, old_.b - {v})
                          case B => Bits(old_.a - {v}, old_.b + {v})
                          case AB => Bits(old_.a + {v}, old_.b + {v}))
  {
    hide VarClass;
    assert c[..i + 1] == c[..i] + [c[i]];
    var v := c[i].v;
    var old_, new_ := LeafBits(s, id, c[..i]), LeafBits(s, id, c[..i + 1]);
    assert Vars(c[..i + 1]) == Vars(c[..i]) + {v} by {
      forall x | x in Vars(c[..i]) ensures x in Vars(c[..i + 1]) {
        var l :| l in c[..i] && l.v == x;
        assert l in c[..i + 1];
      }
      assert c[i] in c[..i + 1];
    }
  }

  /** One run: the proof graph is only read, the records are filled in. */
  class SingleInterpolationContext {
    const proofGraph: ProofGraph
    const problem: Problem
    var nodeData: seq<NodeData>

    constructor (pg: ProofGraph, s: Problem)
      ensures proofGraph == pg && problem == s && |nodeData| == |pg.graph|
    {
      proofGraph, problem := pg, s;
      nodeData := seq(|pg.graph|, i => NodeData(Bits({}, {}), True));
    }

    // -------------------------------------------------------------------------
    // Leaves

    /** Colours the shared variables of a leaf; the labelling says which colour each one gets. */
    method LabelLeaf(id: Id, clause: seq<Lit>)
      requires id < |nodeData|
      modifies this`nodeData
      ensures nodeData == old(nodeData)[id := NodeData(LeafBits(problem, id, clause), old(nodeData)[id].partial)]
    {
      var bits := Bits({}, {});
      for i := 0 to |clause|
        invariant nodeData == old(nodeData) && bits == LeafBits(problem, id, clause[..i])
      {
        LeafBitsNext(problem, id, clause, i);
        var v := clause[i].v;
        if VarClass(problem, v) == AB {
          match problem.labels(id, v)
          case A => bits := Bits(bits.a + {v}, bits.b - {v});
          case B => bits := Bits(bits.a - {v}, bits.b + {v});
          case AB => bits := Bits(bits.a + {v}, bits.b + {v});
        }
      }
      assert clause[..|clause|] == clause;
      nodeData := nodeData[id := nodeData[id].(bits := bits)];
    }

    /** The literals of a leaf in the given colour, without those whose negation is assumed. */
    method GetRestrictedNodeClause(id: Id, clause: seq<Lit>, wantB: bool) returns (restricted: seq<Lit>)
      requires id < |nodeData|
      ensures restricted == Restricted(problem, nodeData[id].bits, clause, wantB)
    {
      hide ColouredA, ColouredB, Restricted;
      restricted := [];
      NoneRestricted(problem, nodeData[id].bits, clause, wantB);
      var bits := nodeData[id].bits;
      for i := 0 to |clause|
        invariant restricted + Restricted(problem, bits, clause[i..], wantB) == Restricted(problem, bits, clause, wantB)
      {
        var l := clause[i];
        RestrictedStep(problem, bits, clause, wantB, i, restricted);
        if Negate(l) !in problem.assumed {
          var a, b := ColouredA(problem, bits, l.v), ColouredB(problem, bits, l.v);
          if a == !wantB && b == wantB {
            restricted := restricted + [l];
          }
        }
      }
    }

    method GetInterpolantForOriginalClause(id: Id, clause: seq<Lit>, clauseIsA: bool) returns (itp: Fla)
      requires id < |nodeData|
      ensures itp == ClauseItp(problem, nodeData[id].bits, clause, clauseIsA)
    {
      var restricted := GetRestrictedNodeClause(id, clause, clauseIsA);
      if restricted == [] {
        return if clauseIsA then False else True;
      }
      var args: seq<Fla> := [];
      for i := 0 to |restricted|
        invariant args == (if clauseIsA then LitFlas(restricted[..i]) else NegatedFlas(restricted[..i]))
      {
        var l := restricted[i];
        LitFlasSnoc(restricted, i);
        args := args + [if l.neg == clauseIsA then MkNot(Atom(l.v)) else Atom(l.v)];
      }
      assert restricted[..|restricted|] == restricted;
      itp := if clauseIsA then MkOr(args) else MkAnd(args);
    }

    // -------------------------------------------------------------------------
    // Inner nodes

    /** Joins the antecedents' colours into the node, reads the pivot's colour off them, and removes a
        shared pivot from the node. */
    method GetPivotColor(n: ProofNode) returns (colour: PivotColour)
      requires n.ant1 != null && n.ant2 != null
      requires n.id < |nodeData| && n.ant1.id < |nodeData| && n.ant2.id < |nodeData|
      requires var joined := Join(nodeData[n.ant1.id].bits, nodeData[n.ant2.id].bits);
               ColouredA(problem, joined, n.pivot) || ColouredB(problem, joined, n.pivot)
      modifies this`nodeData
      ensures var joined := Join(old(nodeData)[n.ant1.id].bits, old(nodeData)[n.ant2.id].bits);
              && nodeData == old(nodeData)[n.id := NodeData(if VarClass(problem, n.pivot) == AB then Clear(joined, n.pivot) else joined,
                                                            old(nodeData)[n.id].partial)]
              && (colour == Assumed <==> IsAssumedVar(problem, n.pivot))
              && (colour.Colour? ==>
                    && (colour.c != B <==> ColouredA(problem, joined, n.pivot))
                    && (colour.c != A <==> ColouredB(problem, joined, n.pivot)))
    {
      var joined := Join(nodeData[n.ant1.id].bits, nodeData[n.ant2.id].bits);
      nodeData := nodeData[n.id := nodeData[n.id].(bits := joined)];
      var v := n.pivot;
      var c := VarClass(problem, v);
      if c == AB {
        var bits := nodeData[n.id].bits;
        c := if v in bits.a && v !in bits.b then A else if v !in bits.a && v in bits.b then B else AB;
        nodeData := nodeData[n.id := nodeData[n.id].(bits := Clear(bits, v))];
      }
      colour := if IsAssumedVar(problem, v) then Assumed else Colour(c);
    }

    method CompInterpLabelingInner(n: ProofNode) returns (itp: Fla)
      requires n.ant1 != null && n.ant2 != null
      requires n.id < |nodeData| && n.ant1.id < |nodeData| && n.ant2.id < |nodeData|
      requires var joined := Join(nodeData[n.ant1.id].bits, nodeData[n.ant2.id].bits);
               ColouredA(problem, joined, n.pivot) || ColouredB(problem, joined, n.pivot)
      modifies this`nodeData
      ensures var d1, d2 := old(nodeData)[n.ant1.id], old(nodeData)[n.ant2.id];
              var joined := Join(d1.bits, d2.bits);
              && itp == Combine(problem, joined, n.pivot, d1.partial, d2.partial)
              && nodeData == old(nodeData)[n.id := NodeData(if VarClass(problem, n.pivot) == AB then Clear(joined, n.pivot) else joined,
                                                            old(nodeData)[n.id].partial)]
    {
      var i1, i2 := nodeData[n.ant1.id].partial, nodeData[n.ant2.id].partial;
      var p := n.pivot;
      var colour := GetPivotColor(n);
      match colour
      case Assumed =>
        itp := if Lit(p, false) in problem.assumed then i2 else i1;
      case Colour(c) =>
        if c == A {
          itp := MkOr([i1, i2]);
        } else if c == B {
          itp := MkAnd([i1, i2]);
        } else if problem.alt && PreferAlternative(i1, i2) {
          itp := MkOr([MkAnd([i1, MkNot(Atom(p))]), MkAnd([i2, Atom(p)])]);
        } else {
          itp := MkAnd([MkOr([i1, Atom(p)]), MkOr([i2, MkNot(Atom(p))])]);
        }
    }

    /** Labels a leaf and computes its partial interpolant. */
    method ProcessLeaf(id: Id, clause: seq<Lit>, ty: ClauseType) returns (partial: Fla)
      requires id < |nodeData| && IsLeafType(ty) && ty != Split
      modifies this`nodeData
      ensures partial == Itp(problem, Leaf(id, clause, ty))
      ensures nodeData == old(nodeData)[id := NodeData(BitsOf(problem, Leaf(id, clause, ty)), old(nodeData)[id].partial)]
    {
      hide ClauseItp, LeafBits, LeafInA;
      LabelLeaf(id, clause);
      if ty == Orig {
        partial := GetInterpolantForOriginalClause(id, clause, LeafInA(problem, id));
      } else if ty == Theory {
        partial := problem.theory(id);
      } else {
        partial := True;
      }
    }

    /** Fills in the record of one node, given those of its antecedents. */
    method ProcessNode(n: ProofNode, ghost g: Graph, ghost root: Id, ghost rank: map<Id, nat>)
      requires ValidExcept(g, root, rank, {}) && PosFirst(g, n.id)
      requires n.id in g && g[n.id] == n.View() && (n.ant1 != null <==> n.ant2 != null)
      requires n.id < |nodeData| && n.ty != Split
      requires forall a {:trigger IsAnt(g[n.id], a)} :: IsAnt(g[n.id], a) ==> Recorded(problem, g, rank, nodeData, a)
      modifies this`nodeData
      ensures |nodeData| == |old(nodeData)|
      ensures nodeData == old(nodeData)[n.id := nodeData[n.id]]
      ensures Recorded(problem, g, rank, nodeData, n.id)
    {
      hide ValidExcept, Linked, Ranked, Recorded, PosFirst, Combine, Itp, BitsOf, VarClass;
      ValidIsRanked(g, root, rank);
      var partial: Fla;
      if n.ant1 == null {
        LeafNode(problem, g, root, rank, n.id);
        partial := ProcessLeaf(n.id, n.clause, n.ty);
      } else {
        assert g[n.id].links == Ants(n.pivot, n.ant1.id, n.ant2.id);
        assert IsAnt(g[n.id], n.ant1.id) && IsAnt(g[n.id], n.ant2.id);
        InnerNode(problem, g, root, rank, nodeData, n.id);
        RecordedBound(problem, g, rank, nodeData, n.ant1.id);
        RecordedBound(problem, g, rank, nodeData, n.ant2.id);
        partial := CompInterpLabelingInner(n);
      }
      nodeData := nodeData[n.id := nodeData[n.id].(partial := partial)];
      Record(problem, g, rank, nodeData, n.id);
    }

    /** Every node of the walk is processed after its antecedents; the root's partial interpolant is
        the interpolant. */
    method ProduceSingleInterpolant(ghost rank: map<Id, nat>) returns (itp: Fla)
      requires proofGraph.Valid() && |nodeData| == |proofGraph.graph|
      requires ValidExcept(proofGraph.View(), proofGraph.root, rank, {}) && Normalized(proofGraph.View(), proofGraph.root)
      requires forall n {:trigger proofGraph.View()[n].ty} :: n in proofGraph.View() ==> proofGraph.View()[n].ty != Split
      modifies this`nodeData
      ensures ValidExcept(proofGraph.View(), proofGraph.root, rank, {})
      ensures itp == Itp(problem, Unfold(proofGraph.View(), rank, proofGraph.root))
    {
      hide ValidExcept, Linked, Ranked, Recorded, Normalized, TopologicalOrder, Itp, Unfold, Reachable, proofGraph.Valid;
      ghost var g := proofGraph.View();
      ValidIsRanked(g, proofGraph.root, rank);
      var order := TopolSortingTopDown(proofGraph, rank);
      for i := 0 to |order|
        invariant |nodeData| == |proofGraph.graph|
        invariant forall k {:trigger order[k]} :: 0 <= k < i ==> Recorded(problem, g, rank, nodeData, order[k])
      {
        ghost var before := nodeData;
        OrderFacts(g, proofGraph.root, order, i);
        NormalizedAt(g, proofGraph.root, order[i]);
        var n := proofGraph.GetNode(order[i]);
        forall a {:trigger IsAnt(g[n.id], a)} | IsAnt(g[n.id], a) ensures Recorded(problem, g, rank, nodeData, a) {
          assert a in order[..i];
          var k :| 0 <= k < i && order[k] == a;
        }
        ProcessNode(n, g, proofGraph.root, rank);
        forall k | 0 <= k < i ensures Recorded(problem, g, rank, nodeData, order[k]) {
          RecordNode(problem, g, rank, before, nodeData, n.id, order[k]);
        }
      }
      RootListed(g, proofGraph.root, order);
      var k :| 0 <= k < |order| && order[k] == proofGraph.root;
      RecordedBound(problem, g, rank, nodeData, order[k]);
      itp := nodeData[proofGraph.root].partial;
    }
  }

  lemma NoneRestricted(s: Problem, bits: Bits, clause: seq<Lit>, wantB: bool)
    ensures clause[0..] == clause && Restricted(s, bits, [], wantB) == [] && clause[|clause|..] == []
  {
  }

  /** Taking the next literal, or leaving it out. */
  lemma RestrictedStep(s: Problem, bits: Bits, clause: seq<Lit>, wantB: bool, i: nat, before: seq<Lit>)
    requires i < |clause|
    ensures var l := clause[i];
            var taken := if Negate(l) !in s.assumed && ColouredA(s, bits, l.v) == !wantB && ColouredB(s, bits, l.v) == wantB then [l] else [];
            before + Restricted(s, bits, clause[i..], wantB) == before + taken + Restricted(s, bits, clause[i + 1..], wantB)
  {
    hide ColouredA, ColouredB;
    assert clause[i..][0] == clause[i] && clause[i..][1..] == clause[i + 1..];
  }

  /** What is known about an inner node whose antecedents are recorded. */
  lemma InnerNode(s: Problem, g: Graph, root: Id, rank: map<Id, nat>, data: seq<NodeData>, n: Id)
    requires ValidExcept(g, root, rank, {}) && PosFirst(g, n) && g[n].links.Ants?
    requires Recorded(s, g, rank, data, g[n].links.ant1) && Recorded(s, g, rank, data, g[n].links.ant2)
    ensures var d1, d2 := data[g[n].links.ant1], data[g[n].links.ant2];
            var joined, p := Join(d1.bits, d2.bits), g[n].links.pivot;
            && (ColouredA(s, joined, p) || ColouredB(s, joined, p))
            && BitsOf(s, Unfold(g, rank, n)) == (if VarClass(s, p) == AB then Clear(joined, p) else joined)
            && Itp(s, Unfold(g, rank, n)) == Combine(s, joined, p, d1.partial, d2.partial)
  {
    hide ValidExcept, Combine, VarClass, Ranked;
    var a1, a2 := g[n].links.ant1, g[n].links.ant2;
    assert Ranked(g, rank) by { ValidIsRanked(g, root, rank); }
    NodeSigns(g, root, rank, n);
    assert PosAnt(g, rank, n) == a1 && NegAnt(g, rank, n) == a2;
    UnfoldValid(g, root, rank, n);
    UnfoldValid(g, root, rank, a1);
    EveryoneColoured(s, Unfold(g, rank, a1), Lit(g[n].links.pivot, false));
  }

  lemma ValidIsRanked(g: Graph, root: Id, rank: map<Id, nat>)
    requires ValidExcept(g, root, rank, {})
    ensures Ranked(g, rank) && Linked(g) && root in g
  {
  }

  lemma LeafNode(s: Problem, g: Graph, root: Id, rank: map<Id, nat>, n: Id)
    requires ValidExcept(g, root, rank, {}) && n in g && g[n].links.NoAnts?
    ensures Ranked(g, rank) && Unfold(g, rank, n) == Leaf(n, g[n].clause, g[n].ty) && IsLeafType(g[n].ty)
  {
    assert WellFormed(g[n]);
  }

  lemma RecordedBound(s: Problem, g: Graph, rank: map<Id, nat>, data: seq<NodeData>, n: Id)
    requires Recorded(s, g, rank, data, n)
    ensures Ranked(g, rank) && n in g && n < |data| && data[n].partial == Itp(s, Unfold(g, rank, n))
  {
  }

  lemma Record(s: Problem, g: Graph, rank: map<Id, nat>, data: seq<NodeData>, n: Id)
    requires Ranked(g, rank) && n in g && n < |data|
    requires data[n].bits == BitsOf(s, Unfold(g, rank, n)) && data[n].partial == Itp(s, Unfold(g, rank, n))
    ensures Recorded(s, g, rank, data, n)
  {
  }

  lemma OrderFacts(g: Graph, root: Id, order: seq<Id>, i: nat)
    requires TopologicalOrder(g, root, order) && i < |order|
    ensures order[i] in g && Reachable(g, root, order[i])
    ensures forall a {:trigger IsAnt(g[order[i]], a)} :: IsAnt(g[order[i]], a) ==> a in order[..i]
    ensures forall k {:trigger order[k]} :: 0 <= k < i ==> order[k] != order[i]
  {
    assert order[i] in order;
    var path :| PathToRoot(g, root, order[i], path);
  }

  lemma NormalizedAt(g: Graph, root: Id, n: Id)
    requires Normalized(g, root) && Reachable(g, root, n)
    ensures PosFirst(g, n)
  {
  }

  lemma RootListed(g: Graph, root: Id, order: seq<Id>)
    requires TopologicalOrder(g, root, order) && root in g
    ensures root in order
  {
    RootReachable(g, root);
  }

  /** Recording a node leaves the records of the others. */
  lemma RecordNode(s: Problem, g: Graph, rank: map<Id, nat>, data: seq<NodeData>, data': seq<NodeData>, n: Id, m: Id)
    requires Recorded(s, g, rank, data, m) && m != n && n < |data| == |data'| && data' == data[n := data'[n]]
    ensures Recorded(s, g, rank, data', m)
  {
  }

  lemma {:induction false} LitFlasSnoc(c: seq<Lit>, i: nat)
    requires i < |c|
    ensures LitFlas(c[..i + 1]) == LitFlas(c[..i]) + [LitFla(c[i])]
    ensures NegatedFlas(c[..i + 1]) == NegatedFlas(c[..i]) + [LitFla(Negate(c[i]))]
  {
    if i > 0 {
      LitFlasSnoc(c[1..], i - 1);
      assert c[1..][..i] == c[..i + 1][1..] && c[1..][..i - 1] == c[..i][1..];
    }
  }

  // ---------------------------------------------------------------------------
  // Single and path interpolants

  /** `itp` follows from A, contradicts B and uses shared variables only. */
  ghost predicate IsInterpolant(s: Problem, t: Tree, itp: Fla) {
    && SharedAtoms(s, Atoms(itp))
    && forall val {:trigger Eval(itp, val)} :: Admissible(s, t, val) ==>
         && (SideHolds(s, t, val, true) ==> Eval(itp, val))
         && (SideHolds(s, t, val, false) ==> !Eval(itp, val))
  }

  /** The first interpolant and the partitions that change sides imply the second. */
  ghost predicate PathStep(s: Problem, t: Tree, a1: set<nat>, a2: set<nat>, i1: Fla, i2: Fla) {
    forall val {:trigger Eval(i1, val)} {:trigger Eval(i2, val)} ::
      AssumptionsHold(s, val) && PartitionsHold(s, t, a2 - a1, val) && Eval(i1, val) ==> Eval(i2, val)
  }

  lemma RootInterpolates(s: Problem, g: Graph, root: Id, rank: map<Id, nat>)
    requires Refutation(g, root, rank) && Sound(s, Unfold(g, rank, root))
    ensures IsInterpolant(s, Unfold(g, rank, root), Itp(s, Unfold(g, rank, root)))
  {
    hide Itp, Unfold, SharedAtoms, Sound, Linked, Ranked;
    UnfoldValid(g, root, rank, root);
    var t := Unfold(g, rank, root);
    SomeInterpolant(s, t);
    forall val | Admissible(s, t, val)
      ensures (SideHolds(s, t, val, true) ==> Eval(Itp(s, t), val)) && (SideHolds(s, t, val, false) ==> !Eval(Itp(s, t), val))
    {
      RootIsCraigInterpolant(s, t, val);
    }
  }

  lemma SomeInterpolant(s: Problem, t: Tree)
    requires ValidTree(t) && Sound(s, t)
    ensures SharedAtoms(s, Atoms(Itp(s, t)))
  {
    OnlySharedVariables(s, t);
  }

  lemma RootsFollow(s: Problem, g: Graph, root: Id, rank: map<Id, nat>, a1: set<nat>, a2: set<nat>)
    requires Refutation(g, root, rank) && Propositional(Unfold(g, rank, root)) && a1 <= a2
    ensures var t := Unfold(g, rank, root);
            PathStep(s, t, a1, a2, Itp(s.(aMask := a1), t), Itp(s.(aMask := a2), t))
  {
    hide Itp, Unfold, Linked, Ranked;
    UnfoldValid(g, root, rank, root);
    var t := Unfold(g, rank, root);
    forall val | AssumptionsHold(s, val) && PartitionsHold(s, t, a2 - a1, val) && Eval(Itp(s.(aMask := a1), t), val)
      ensures Eval(Itp(s.(aMask := a2), t), val)
    {
      PathInterpolation(s, a1, a2, t, val);
    }
  }

  /** Every mask contains its predecessor. */
  ghost predicate Nested(masks: seq<set<nat>>) {
    forall i {:trigger masks[i]} :: 0 <= i < |masks| - 1 ==> masks[i] <= masks[i + 1]
  }

  lemma NestedAt(masks: seq<set<nat>>, i: nat)
    requires Nested(masks) && i + 1 < |masks|
    ensures masks[i] <= masks[i + 1]
  {
  }

  class InterpolationContext {
    const proofGraph: ProofGraph
    const problem: Problem

    constructor (pg: ProofGraph, s: Problem)
      ensures proofGraph == pg && problem == s
    {
      proofGraph, problem := pg, s;
    }

    /** The proof is a refutation in interpolation order, without split clauses. */
    ghost predicate Ready(rank: map<Id, nat>)
      reads proofGraph, proofGraph.graph
    {
      && proofGraph.Valid() && Refutation(proofGraph.View(), proofGraph.root, rank)
      && Normalized(proofGraph.View(), proofGraph.root)
      && forall n {:trigger proofGraph.View()[n].ty} :: n in proofGraph.View() ==> proofGraph.View()[n].ty != Split
    }

    ghost function Proof(rank: map<Id, nat>): Tree
      requires Ready(rank)
      reads proofGraph, proofGraph.graph
    {
      Unfold(proofGraph.View(), rank, proofGraph.root)
    }

    /** The interpolant for the partitions of `aMask` as A. */
    method GetSingleInterpolant(aMask: set<nat>, ghost rank: map<Id, nat>) returns (itp: Fla)
      requires Ready(rank)
      ensures itp == Itp(problem.(aMask := aMask), Proof(rank))
      ensures Sound(problem.(aMask := aMask), Proof(rank)) ==> IsInterpolant(problem.(aMask := aMask), Proof(rank), itp)
    {
      hide Itp, Unfold, Linked, Ranked, Normalized, IsInterpolant, Sound;
      var context := new SingleInterpolationContext(proofGraph, problem.(aMask := aMask));
      itp := context.ProduceSingleInterpolant(rank);
      if Sound(problem.(aMask := aMask), Proof(rank)) {
        RootInterpolates(problem.(aMask := aMask), proofGraph.View(), proofGraph.root, rank);
      }
    }

    /** One interpolant per mask, each following from its predecessor and the moved partitions. */
    method GetPathInterpolants(aMasks: seq<set<nat>>, ghost rank: map<Id, nat>) returns (interpolants: seq<Fla>)
      requires Ready(rank)
      requires Nested(aMasks)
      ensures |interpolants| == |aMasks|
      ensures forall i {:trigger interpolants[i]} :: 0 <= i < |aMasks| && Sound(problem.(aMask := aMasks[i]), Proof(rank)) ==>
                IsInterpolant(problem.(aMask := aMasks[i]), Proof(rank), interpolants[i])
      ensures Propositional(Proof(rank)) ==> forall i {:trigger interpolants[i + 1]} :: 0 <= i < |aMasks| - 1 ==>
                PathStep(problem, Proof(rank), aMasks[i], aMasks[i + 1], interpolants[i], interpolants[i + 1])
    {
      hide Itp, Unfold, Linked, Ranked, Normalized, IsInterpolant, Sound, PathStep, Propositional, ValidExcept;
      interpolants := [];
      for i := 0 to |aMasks|
        invariant |interpolants| == i
        invariant forall k {:trigger interpolants[k]} :: 0 <= k < i ==> interpolants[k] == Itp(problem.(aMask := aMasks[k]), Proof(rank))
        invariant forall k {:trigger interpolants[k]} :: 0 <= k < i && Sound(problem.(aMask := aMasks[k]), Proof(rank)) ==>
                    IsInterpolant(problem.(aMask := aMasks[k]), Proof(rank), interpolants[k])
        invariant Propositional(Proof(rank)) ==> forall k {:trigger interpolants[k + 1]} :: 0 <= k < i - 1 ==>
                    PathStep(problem, Proof(rank), aMasks[k], aMasks[k + 1], interpolants[k], interpolants[k + 1])
      {
        var itp := GetSingleInterpolant(aMasks[i], rank);
        if i > 0 && Propositional(Proof(rank)) {
          NestedAt(aMasks, i - 1);
          RootsFollow(problem, proofGraph.View(), proofGraph.root, rank, aMasks[i - 1], aMasks[i]);
        }
        interpolants := interpolants + [itp];
      }
    }
  }
}
