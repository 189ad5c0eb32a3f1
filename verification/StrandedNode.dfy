/** A refutation in which B3 is enabled although it deletes v3 before it looks v3 up: nothing but w keeps the
    other nodes that derive from v3. */
module StrandedNodes {
  import opened Clauses
  import opened Proofs
  import opened Rules
  import opened Cuts

  function Pos(v: Var): Lit { Lit(v, false) }
  function Neg(v: Var): Lit { Lit(v, true) }

  /** Variables 0 and 1 are the pivots of w and v; nodes 1, 6, 7, 8 and 9 are v3, v1, v2, w and v. */
  function NodeAt(n: Id): Node
    requires n < 14
  {
    match n
    case 0 => Node([Pos(1), Pos(2)], NoAnts, {2}, Orig)
    case 1 => Node([Neg(0), Neg(1)], NoAnts, {2, 9}, Orig)
    case 2 => Node([Neg(0), Pos(2)], Ants(1, 0, 1), {4}, DerivedClause)
    case 3 => Node([Pos(0), Pos(3)], NoAnts, {4}, Orig)
    case 4 => Node([Pos(2), Pos(3)], Ants(0, 3, 2), {6}, DerivedClause)
    case 5 => Node([Pos(0), Pos(1), Neg(2)], NoAnts, {6}, Orig)
    case 6 => Node([Pos(0), Pos(1), Pos(3)], Ants(2, 4, 5), {8}, DerivedClause)
    case 7 => Node([Neg(0)], NoAnts, {8}, Orig)
    case 8 => Node([Pos(1), Pos(3)], Ants(0, 6, 7), {9}, DerivedClause)
    case 9 => Node([Neg(0), Pos(3)], Ants(1, 8, 1), {11}, DerivedClause)
    case 10 => Node([Pos(0)], NoAnts, {11}, Orig)
    case 11 => Node([Pos(3)], Ants(0, 10, 9), {13}, DerivedClause)
    case 12 => Node([Neg(3)], NoAnts, {13}, Orig)
    case 13 => Node([], Ants(3, 11, 12), {}, DerivedClause)
  }

  function Example(): Graph { map n | 0 <= n < 14 :: NodeAt(n) }
  function ExampleRank(): map<Id, nat> { map n: Id | n in Example() :: n }
  const EXAMPLE_CONTEXT := Context(B3, 6, 7, 8, 1, 9)

  lemma ResolventsOf(a: Id)
    requires a < 14
    ensures forall r: Id {:trigger r in NodeAt(a).res} :: r in NodeAt(a).res ==> r < 14 && IsAnt(NodeAt(r), a)
  {
  }

  lemma AntecedentsOf(r: Id)
    requires r < 14
    ensures forall a: Id {:trigger IsAnt(NodeAt(r), a)} :: IsAnt(NodeAt(r), a) ==> a < r && r in NodeAt(a).res
  {
  }

  lemma ExampleLinked()
    ensures Linked(Example())
  {
    hide NodeAt, IsAnt;
    var g := Example();
    forall a: Id, r: Id | a in g && r in g[a].res ensures r in g && IsAnt(g[r], a) {
      ResolventsOf(a);
      assert r in NodeAt(a).res;
    }
    forall a: Id, r: Id | r in g && IsAnt(g[r], a) ensures a in g && r in g[a].res {
      AntecedentsOf(r);
      assert IsAnt(NodeAt(r), a);
    }
  }

  lemma ExampleRanked()
    ensures Ranked(Example(), ExampleRank())
  {
    hide NodeAt;
    var g := Example();
    forall n | n in g ensures RankedAt(g, ExampleRank(), n) {
      AntecedentsOf(n);
      assert NodeAt(n).links.Ants? ==> IsAnt(NodeAt(n), NodeAt(n).links.ant1) && IsAnt(NodeAt(n), NodeAt(n).links.ant2);
    }
  }

  lemma ExampleFormed(n: Id)
    requires n < 14
    ensures WellFormed(Example()[n])
  {
    assert Example()[n] == NodeAt(n);
  }

  lemma ResolvesOn(c: seq<Lit>, a: seq<Lit>, b: seq<Lit>, p: Var)
    requires Pos(p) in a && Neg(p) in b
    requires forall l: Lit {:trigger l in c} {:trigger l in a} {:trigger l in b} :: l in c <==> (l in a || l in b) && l.v != p
    ensures Resolves(Lits(c), Lits(a), Lits(b), p)
  {
  }

  lemma ExampleDerived(n: Id)
    requires n < 14
    ensures WellDerived(Example(), n)
  {
    var g := Example();
    assert g[n] == NodeAt(n);
    match n
    case 2 => ResolvesOn([Neg(0), Pos(2)], [Pos(1), Pos(2)], [Neg(0), Neg(1)], 1);
    case 4 => ResolvesOn([Pos(2), Pos(3)], [Pos(0), Pos(3)], [Neg(0), Pos(2)], 0);
    case 6 => ResolvesOn([Pos(0), Pos(1), Pos(3)], [Pos(2), Pos(3)], [Pos(0), Pos(1), Neg(2)], 2);
    case 8 => ResolvesOn([Pos(1), Pos(3)], [Pos(0), Pos(1), Pos(3)], [Neg(0)], 0);
    case 9 => ResolvesOn([Neg(0), Pos(3)], [Pos(1), Pos(3)], [Neg(0), Neg(1)], 1);
    case 11 => ResolvesOn([Pos(3)], [Pos(0)], [Neg(0), Pos(3)], 0);
    case 13 => ResolvesOn([], [Pos(3)], [Neg(3)], 3);
    case _ =>
  }

  lemma ExampleRefutes()
    ensures Refutation(Example(), 13, ExampleRank())
  {
    hide Linked, Ranked, WellFormed, WellDerived;
    ExampleLinked();
    ExampleRanked();
    forall n | n in Example() ensures WellFormed(Example()[n]) && WellDerived(Example(), n) {
      ExampleFormed(n);
      ExampleDerived(n);
    }
    assert Example()[13] == NodeAt(13);
  }

  lemma ExampleEnabled()
    ensures Enabled(Example(), EXAMPLE_CONTEXT) && Example()[9].res != {}
  {
    var g := Example();
    assert g[1] == NodeAt(1) && g[6] == NodeAt(6) && g[7] == NodeAt(7) && g[8] == NodeAt(8) && g[9] == NodeAt(9);
    var c1, c2, c3 := g[6].clause, g[7].clause, g[1].clause;
    assert c1[1] == Pos(1) && c1[0] == Pos(0) && c3[0] == Neg(0);
  }

  lemma OnlyStep(g: Graph, first: Id, n: Id, path: seq<Id>, i: nat, x: Id, y: Id)
    requires Escapes(g, first, n, path) && i < |path| && path[i] == x && x in g && g[x].res == {y}
    ensures i + 1 < |path| && path[i + 1] == y
  {
  }

  /** The only chain of resolvents from v3 runs into w. */
  lemma NoWayOut(path: seq<Id>)
    ensures !Escapes(Replaced(Example(), 9, 7), 8, 1, path)
  {
    ExampleEnabled();
    var h := Replaced(Example(), 9, 7);
    assert h[1].res == {2} && h[2].res == {4} && h[4].res == {6} && h[6].res == {8};
    if Escapes(h, 8, 1, path) {
      OnlyStep(h, 8, 1, path, 0, 1, 2);
      OnlyStep(h, 8, 1, path, 1, 2, 4);
      OnlyStep(h, 8, 1, path, 2, 4, 6);
      OnlyStep(h, 8, 1, path, 3, 6, 8);
    }
  }

  /** B3 is enabled in this refutation, and v3 does not survive the clean-up of w. */
  lemma V3CanBeLost()
    ensures Refutation(Example(), 13, ExampleRank()) && Enabled(Example(), EXAMPLE_CONTEXT) && EXAMPLE_CONTEXT.ty == B3
    ensures Example()[EXAMPLE_CONTEXT.v].res != {} && !V3Survives(Example(), EXAMPLE_CONTEXT)
    ensures forall mid {:trigger B3Middle(Example(), EXAMPLE_CONTEXT, mid)} :: B3Middle(Example(), EXAMPLE_CONTEXT, mid) ==> EXAMPLE_CONTEXT.v3 !in mid
  {
    hide Refutation, Enabled, Escapes, Replaced;
    ExampleRefutes();
    ExampleEnabled();
    EnabledShape();
    forall path ensures !Escapes(Replaced(Example(), 9, 7), 8, 1, path) {
      NoWayOut(path);
    }
    forall mid | B3Middle(Example(), EXAMPLE_CONTEXT, mid) ensures EXAMPLE_CONTEXT.v3 !in mid {
      V3SurvivesExactly(Example(), 13, ExampleRank(), EXAMPLE_CONTEXT, mid);
    }
  }

  lemma EnabledShape()
    ensures Shape(Example(), EXAMPLE_CONTEXT) && Example()[8].res == {9}
  {
    ExampleEnabled();
    assert Example()[8] == NodeAt(8);
  }
}
