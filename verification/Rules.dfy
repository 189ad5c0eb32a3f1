/** The rewriting rules on proof graphs. Swap rules keep a valid refutation; cut rules leave a
    correctly derived clause that subsumes the old one. */
module Rules {
  import opened Clauses
  import opened Proofs
  import opened LocalSteps

  // ---------------------------------------------------------------------------
  // What a context of a valid graph looks like

  ghost function C(g: Graph, n: Id): set<Lit>
    requires n in g
  {
    Lits(g[n].clause)
  }

  lemma NodeNonTaut(g: Graph, n: Id)
    requires n in g && WellFormed(g[n])
    ensures NonTaut(C(g, n)) && SortedLits(g[n].clause)
  {
    SortedVarsFacts(g[n].clause);
  }

  /** Merging two nodes' clauses: the resolvent, sorted by variable unless it is a tautology. */
  lemma MergedClause(g: Graph, a: Id, b: Id, p: Var)
    requires a in g && b in g && WellFormed(g[a]) && WellFormed(g[b])
    ensures Lits(Merge(g[a].clause, g[b].clause, p)) == Resolvent(C(g, a), C(g, b), p)
    ensures NonTaut(Resolvent(C(g, a), C(g, b), p)) ==> SortedVars(Merge(g[a].clause, g[b].clause, p))
  {
    NodeNonTaut(g, a);
    NodeNonTaut(g, b);
    MergeIsResolvent(g[a].clause, g[b].clause, p);
    if NonTaut(Resolvent(C(g, a), C(g, b), p)) {
      SortedNonTaut(Merge(g[a].clause, g[b].clause, p));
    }
  }

  lemma PivotSigns(c: set<Lit>, a: set<Lit>, b: set<Lit>, p: Var) returns (s: bool)
    requires NonTaut(a) && NonTaut(b) && (Resolves(c, a, b, p) || Resolves(c, b, a, p))
    ensures Lit(p, s) in a && Lit(p, !s) in b && Lit(p, !s) !in a && Lit(p, s) !in b
    ensures !Mentions(c, p) && c == Resolvent(a, b, p)
  {
    s := Lit(p, true) in a;
    MentionsSign(a, p, s);
    MentionsSign(b, p, !s);
  }

  /** The clauses of a context have the textbook shape. */
  lemma ContextFacts(g: Graph, root: Id, rank: map<Id, nat>, c: Context) returns (s0: bool, s1: bool)
    requires ValidExcept(g, root, rank, {}) && Shape(g, c)
    requires Mentions(C(g, c.v1), T1(g, c))
    ensures Local(C(g, c.v1), C(g, c.v2), C(g, c.v3), C(g, c.w), C(g, c.v), T0(g, c), T1(g, c), s0, s1)
    ensures Mentions(C(g, c.v2), T1(g, c)) ==> Lit(T1(g, c), s1) in C(g, c.v2)
    ensures Lit(T1(g, c), s1) !in C(g, c.v3)
    ensures c.v2 != c.v3
  {
    NodeNonTaut(g, c.v1);
    NodeNonTaut(g, c.v2);
    NodeNonTaut(g, c.v3);
    NodeNonTaut(g, c.w);
    NodeNonTaut(g, c.v);
    assert WellDerived(g, c.w) && WellDerived(g, c.v);
    s0 := PivotSigns(C(g, c.w), C(g, c.v1), C(g, c.v2), T0(g, c));
    s1 := PivotSigns(C(g, c.v), C(g, c.w), C(g, c.v3), T1(g, c));
    var t1 := T1(g, c);
    assert Lit(t1, s1) in C(g, c.v1) by {
      assert t1 != T0(g, c);
      MentionsSign(C(g, c.w), t1, s1);
      assert Lit(t1, !s1) !in C(g, c.w);
    }
    if Mentions(C(g, c.v2), t1) {
      SharedSign(C(g, c.v1), C(g, c.v2), C(g, c.w), T0(g, c), t1, s1);
    }
  }

  predicate Distinct(c: Context) {
    && c.v1 != c.v2 && c.v1 != c.v3 && c.v2 != c.v3
    && c.w !in {c.v1, c.v2, c.v3} && c.v !in {c.v1, c.v2, c.v3, c.w}
  }

  ghost predicate Ordered(c: Context, rank: map<Id, nat>) {
    && c.v1 in rank && c.v2 in rank && c.w in rank && c.v3 in rank && c.v in rank
    && rank[c.v1] < rank[c.w] && rank[c.v2] < rank[c.w] && rank[c.w] < rank[c.v] && rank[c.v3] < rank[c.v]
  }

  /** The five nodes of a context are distinct. */
  lemma ContextDistinct(g: Graph, root: Id, rank: map<Id, nat>, c: Context)
    requires ValidExcept(g, root, rank, {}) && Shape(g, c)
    requires Mentions(C(g, c.v1), T1(g, c))
    ensures Distinct(c)
    ensures Ordered(c, rank)
  {
    var s0, s1 := ContextFacts(g, root, rank, c);
    assert RankedAt(g, rank, c.v) && RankedAt(g, rank, c.w);
    MentionsSign(C(g, c.v1), T0(g, c), s0);
    MentionsSign(C(g, c.w), T1(g, c), s1) by { assert Lit(T1(g, c), s1) in C(g, c.w); }
    MentionsSign(C(g, c.v3), T1(g, c), !s1);
  }

  // ---------------------------------------------------------------------------
  // Elementary changes

  function SetAnt(g: Graph, n: Id, from: Id, to: Id): Graph
    requires n in g && g[n].links.Ants?
  {
    g[n := g[n].(links := Redirect(g[n].links, from, to))]
  }

  function GainRes(g: Graph, n: Id, r: Id): Graph
    requires n in g
  {
    g[n := g[n].(res := g[n].res + {r})]
  }

  function LoseRes(g: Graph, n: Id, r: Id): Graph
    requires n in g
  {
    g[n := g[n].(res := g[n].res - {r})]
  }

  function SetPivot(g: Graph, n: Id, pivot: Var): Graph
    requires n in g && g[n].links.Ants?
  {
    g[n := g[n].(links := g[n].links.(pivot := pivot))]
  }

  function SetClause(g: Graph, n: Id, clause: seq<Lit>): Graph
    requires n in g
  {
    g[n := g[n].(clause := clause)]
  }

  /** Node `r` gives up antecedent `from` for `to`; both resolvent sets follow. */
  function Rewire(g: Graph, r: Id, from: Id, to: Id): Graph
    requires r in g && from in g && to in g && g[r].links.Ants?
  {
    GainRes(LoseRes(SetAnt(g, r, from, to), from, r), to, r)
  }

  /** w and v swap their pivots. */
  function TradePivots(g: Graph, w: Id, v: Id): Graph
    requires w in g && v in g && g[w].links.Ants? && g[v].links.Ants?
  {
    SetPivot(SetPivot(g, w, g[v].links.pivot), v, g[w].links.pivot)
  }

  /** Node `n` lists its antecedents in the order `a`, `b`. */
  function Reorder(g: Graph, n: Id, a: Id, b: Id): Graph
    requires n in g && g[n].links.Ants?
  {
    g[n := g[n].(links := Ants(g[n].links.pivot, a, b))]
  }

  /** A new node deriving from `a` and `b`. */
  function AddNode(g: Graph, y: Id, clause: seq<Lit>, pivot: Var, a: Id, b: Id): Graph
    requires a in g && b in g
  {
    g[a := g[a].(res := g[a].res + {y})]
     [b := g[b].(res := g[b].res + {y})]
     [y := Node(clause, Ants(pivot, a, b), {}, DerivedClause)]
  }

  ghost predicate CanRewire(g: Graph, r: Id, from: Id, to: Id) {
    && r in g && from in g && to in g && g[r].links.Ants?
    && IsAnt(g[r], from) && !IsAnt(g[r], to) && g[r].links.ant1 != g[r].links.ant2
    && r != from && r != to
  }

  lemma RewireAt(g: Graph, r: Id, from: Id, to: Id, n: Id)
    requires CanRewire(g, r, from, to) && n in g
    ensures n in Rewire(g, r, from, to)
    ensures Rewire(g, r, from, to)[n] ==
            g[n].(links := if n == r then Redirect(g[r].links, from, to) else g[n].links,
                  res := if n == from then g[n].res - {r} else if n == to then g[n].res + {r} else g[n].res)
  {
  }

  lemma RewireLinked(g: Graph, r: Id, from: Id, to: Id)
    requires Linked(g) && CanRewire(g, r, from, to)
    ensures Linked(Rewire(g, r, from, to))
  {
    var h := Rewire(g, r, from, to);
    assert h.Keys == g.Keys;
    forall a, x | a in h && x in h[a].res ensures x in h && IsAnt(h[x], a) {
      RewireAt(g, r, from, to, a);
      assert x in g[a].res || (a == to && x == r);
      RewireAt(g, r, from, to, x);
    }
    forall a, x | x in h && IsAnt(h[x], a) ensures a in h && x in h[a].res {
      RewireAt(g, r, from, to, x);
      assert IsAnt(g[x], a) || (x == r && a == to);
      RewireAt(g, r, from, to, a);
    }
  }

  /** Clauses and pivots do not matter for the links. */
  lemma SameEdgesLinked(g: Graph, h: Graph)
    requires Linked(g) && h.Keys == g.Keys
    requires forall n {:trigger h[n]} :: n in g ==> h[n].res == g[n].res && forall a :: IsAnt(h[n], a) <==> IsAnt(g[n], a)
    ensures Linked(h)
  {
    forall a, x | a in h && x in h[a].res ensures x in h && IsAnt(h[x], a) {
      assert a in g && x in g[a].res;
    }
    forall a, x | x in h && IsAnt(h[x], a) ensures a in h && x in h[a].res {
      assert x in g && IsAnt(g[x], a);
    }
  }

  lemma AddNodeLinked(g: Graph, y: Id, clause: seq<Lit>, pivot: Var, a: Id, b: Id)
    requires Linked(g) && y !in g && a in g && b in g && a != b
    ensures Linked(AddNode(g, y, clause, pivot, a, b))
  {
    var h := AddNode(g, y, clause, pivot, a, b);
    forall m, x | m in h && x in h[m].res ensures x in h && IsAnt(h[x], m) {
      assert m in g && (x in g[m].res || x == y);
    }
    forall m, x | x in h && IsAnt(h[x], m) ensures m in h && x in h[m].res {
      assert x == y || (x in g && IsAnt(g[x], m));
    }
  }

  /** The order of the two antecedents is irrelevant for a derivation. */
  lemma DerivedFrom(h: Graph, n: Id, a: Id, b: Id)
    requires n in h && a in h && b in h && Antecedents(h[n], a, b)
    requires Resolves(C(h, n), C(h, a), C(h, b), h[n].links.pivot)
    ensures WellDerived(h, n)
  {
    assert C(h, a) + C(h, b) == C(h, b) + C(h, a);
  }

  /** A node whose antecedents keep their clauses stays well derived. */
  lemma DerivedFrame(g: Graph, h: Graph, n: Id)
    requires n in g && n in h && WellDerived(g, n) && g[n].links == h[n].links && g[n].clause == h[n].clause
    requires forall a :: IsAnt(g[n], a) && a in g ==> a in h && h[a].clause == g[a].clause
    ensures WellDerived(h, n)
  {
    if g[n].links.Ants? {
      assert IsAnt(g[n], g[n].links.ant1) && IsAnt(g[n], g[n].links.ant2);
    }
  }

  lemma RankedFrom(h: Graph, rank: map<Id, nat>, n: Id, a: Id, b: Id)
    requires n in h && a in h && b in h && Antecedents(h[n], a, b)
    requires n in rank && a in rank && b in rank && rank[a] < rank[n] && rank[b] < rank[n]
    ensures RankedAt(h, rank, n)
  {
  }

  // ---------------------------------------------------------------------------
  // The rotation behind A2, B2 and A1': w takes `x` for v2, and v takes v2 for v3

  function Rotate(g: Graph, c: Context, x: Id, vClause: seq<Lit>): Graph
    requires Shape(g, c) && x in g
  {
    var wClause := Merge(g[c.v1].clause, g[x].clause, T1(g, c));
    var g2 := Rewire(Rewire(g, c.w, c.v2, x), c.v, c.v3, c.v2);
    SetClause(TradePivots(SetClause(g2, c.w, wClause), c.w, c.v), c.v, vClause)
  }

  /** w moves just below v. */
  ghost function SwapRank(g: Graph, c: Context, rank: map<Id, nat>): map<Id, nat>
    requires Shape(g, c) && Ranked(g, rank)
  {
    map n | n in g :: if n != c.w then 2 * rank[n] else if rank[c.v] > 0 then 2 * rank[c.v] - 1 else 0
  }

  /** The parts of a context that a rotation relies on. */
  ghost predicate CanRotate(g: Graph, root: Id, rank: map<Id, nat>, c: Context, x: Id) {
    && ValidExcept(g, root, rank, {}) && Shape(g, c) && Distinct(c) && Ordered(c, rank)
    && g[c.w].res == {c.v}
    && x in g && x !in {c.v1, c.v2, c.w, c.v} && rank[x] < rank[c.v]
  }

  lemma RotateAt(g: Graph, c: Context, x: Id, vClause: seq<Lit>, n: Id)
    requires Shape(g, c) && Distinct(c) && n in g && x in g && x !in {c.v1, c.v2, c.w, c.v}
    ensures Rotate(g, c, x, vClause).Keys == g.Keys
    ensures var h := Rotate(g, c, x, vClause)[n];
            && h.ty == g[n].ty
            && h.clause == (if n == c.w then Merge(g[c.v1].clause, g[x].clause, T1(g, c))
                            else if n == c.v then vClause else g[n].clause)
            && (if n == c.w then Antecedents(h, c.v1, x) && h.links.pivot == T1(g, c)
                else if n == c.v then Antecedents(h, c.w, c.v2) && h.links.pivot == T0(g, c)
                else h.links == g[n].links)
  {
    var g1 := Rewire(g, c.w, c.v2, x);
    RewireAt(g, c.w, c.v2, x, n);
    RewireAt(g, c.w, c.v2, x, c.v);
    RewireAt(g1, c.v, c.v3, c.v2, n);
  }

  /** A rotation node by node: the field values the in-place version has to produce. */
  lemma RotateFields(g: Graph, c: Context, x: Id, vClause: seq<Lit>, n: Id)
    requires Shape(g, c) && Distinct(c) && n in g && x in g && x !in {c.v1, c.v2, c.w, c.v}
    ensures Rotate(g, c, x, vClause).Keys == g.Keys
    ensures var h := Rotate(g, c, x, vClause)[n];
            && (n == c.w ==> h == Node(Merge(g[c.v1].clause, g[x].clause, T1(g, c)),
                                       Redirect(g[n].links, c.v2, x).(pivot := T1(g, c)), g[n].res, g[n].ty))
            && (n == c.v ==> h == Node(vClause, Redirect(g[n].links, c.v3, c.v2).(pivot := T0(g, c)),
                                       g[n].res, g[n].ty))
            && (n == c.v2 ==> h == g[n].(res := g[n].res - {c.w} + {c.v}))
            && (n == x == c.v3 ==> h == g[n].(res := g[n].res + {c.w} - {c.v}))
            && (n == x != c.v3 ==> h == g[n].(res := g[n].res + {c.w}))
            && (n == c.v3 != x ==> h == g[n].(res := g[n].res - {c.v}))
            && (n !in {c.w, c.v, c.v2, x, c.v3} ==> h == g[n])
  {
    var g1 := Rewire(g, c.w, c.v2, x);
    RewireAt(g, c.w, c.v2, x, n);
    RewireAt(g, c.w, c.v2, x, c.v);
    RewireAt(g1, c.v, c.v3, c.v2, n);
  }

  lemma RotateLinked(g: Graph, c: Context, x: Id, vClause: seq<Lit>)
    requires Linked(g) && Shape(g, c) && Distinct(c) && x in g && x !in {c.v1, c.v2, c.w, c.v}
    ensures Linked(Rotate(g, c, x, vClause))
  {
    var g1 := Rewire(g, c.w, c.v2, x);
    RewireLinked(g, c.w, c.v2, x);
    RewireAt(g, c.w, c.v2, x, c.v);
    var g2 := Rewire(g1, c.v, c.v3, c.v2);
    RewireLinked(g1, c.v, c.v3, c.v2);
    hide Rewire, Linked, Merge;
    SameEdgesLinked(g2, Rotate(g, c, x, vClause));
  }

  /** No node but v derives from w. */
  lemma OnlyChild(g: Graph, c: Context, n: Id)
    requires Linked(g) && Shape(g, c) && g[c.w].res == {c.v} && n in g && n != c.v
    ensures !IsAnt(g[n], c.w)
  {
  }

  lemma RotateRankedAt(g: Graph, root: Id, rank: map<Id, nat>, c: Context, x: Id, vClause: seq<Lit>, n: Id)
    requires CanRotate(g, root, rank, c, x) && n in g
    ensures n in Rotate(g, c, x, vClause) && RankedAt(Rotate(g, c, x, vClause), SwapRank(g, c, rank), n)
  {
    var h, rank' := Rotate(g, c, x, vClause), SwapRank(g, c, rank);
    RotateAt(g, c, x, vClause, n);
    hide Rotate, Linked;
    if n == c.w {
      RankedFrom(h, rank', n, c.v1, x);
    } else if n == c.v {
      RankedFrom(h, rank', n, c.w, c.v2);
    } else {
      assert RankedAt(g, rank, n);
      OnlyChild(g, c, n);
    }
  }

  /** What a rotation leaves behind, given that the new clause of v follows from the new w and v2. */
  lemma RotateValid(g: Graph, root: Id, rank: map<Id, nat>, c: Context, x: Id, vClause: seq<Lit>, stale: set<Id>)
    requires CanRotate(g, root, rank, c, x)
    requires RotatedClauses(g, c, x, vClause)
    requires vClause == g[c.v].clause || stale == g[c.v].res
    ensures ValidExcept(Rotate(g, c, x, vClause), root, SwapRank(g, c, rank), stale)
  {
    hide Linked, Ranked, Rotate, RotatedClauses, Distinct, Ordered;
    var h := Rotate(g, c, x, vClause);
    RotateLinked(g, c, x, vClause);
    RotateAt(g, c, x, vClause, root);
    forall n | n in h
      ensures WellFormed(h[n]) && RankedAt(h, SwapRank(g, c, rank), n)
    {
      RotateWellFormed(g, root, rank, c, x, vClause, n);
      RotateRankedAt(g, root, rank, c, x, vClause, n);
    }
    RankedByAll(h, SwapRank(g, c, rank));
    forall n | n in h && n !in stale ensures WellDerived(h, n) {
      RotateDerived(g, root, rank, c, x, vClause, stale, n);
    }
  }

  lemma RankedByAll(h: Graph, rank: map<Id, nat>)
    requires h.Keys <= rank.Keys && forall n {:trigger RankedAt(h, rank, n)} :: n in h ==> RankedAt(h, rank, n)
    ensures Ranked(h, rank)
  {
  }

  lemma RotateWellFormed(g: Graph, root: Id, rank: map<Id, nat>, c: Context, x: Id, vClause: seq<Lit>, n: Id)
    requires CanRotate(g, root, rank, c, x) && RotatedClauses(g, c, x, vClause) && n in g
    ensures n in Rotate(g, c, x, vClause) && WellFormed(Rotate(g, c, x, vClause)[n])
  {
    RotateAt(g, c, x, vClause, n);
    assert WellFormed(g[c.v1]) && WellFormed(g[x]) && WellFormed(g[n]);
    MergedClause(g, c.v1, x, T1(g, c));
  }

  /** The resolution steps a rotation needs: v1 with `x` on t1, then with v2 on t0. */
  ghost predicate RotatedClauses(g: Graph, c: Context, x: Id, vClause: seq<Lit>)
    requires Shape(g, c) && x in g
  {
    var w' := Resolvent(C(g, c.v1), C(g, x), T1(g, c));
    && Resolves(w', C(g, c.v1), C(g, x), T1(g, c)) && NonTaut(w')
    && SortedVars(vClause) && Resolves(Lits(vClause), w', C(g, c.v2), T0(g, c))
  }

  lemma RotateDerived(g: Graph, root: Id, rank: map<Id, nat>, c: Context, x: Id, vClause: seq<Lit>, stale: set<Id>, n: Id)
    requires CanRotate(g, root, rank, c, x) && RotatedClauses(g, c, x, vClause) && n in g && n !in stale
    requires vClause == g[c.v].clause || stale == g[c.v].res
    ensures n in Rotate(g, c, x, vClause) && WellDerived(Rotate(g, c, x, vClause), n)
  {
    assert WellFormed(g[c.v1]) && WellFormed(g[x]);
    MergedClause(g, c.v1, x, T1(g, c));
    var h := Rotate(g, c, x, vClause);
    RotateAt(g, c, x, vClause, n);
    if n == c.v {
      RotateAt(g, c, x, vClause, c.w);
      RotateAt(g, c, x, vClause, c.v2);
      DerivedFrom(h, n, c.w, c.v2);
    } else if n == c.w {
      RotateAt(g, c, x, vClause, c.v1);
      RotateAt(g, c, x, vClause, x);
      DerivedFrom(h, n, c.v1, x);
    } else {
      assert WellDerived(g, n);
      forall a | IsAnt(g[n], a) && a in g ensures a in h && h[a].clause == g[a].clause {
        OnlyChild(g, c, n);
        assert n in g[a].res;
        RotateAt(g, c, x, vClause, a);
      }
      DerivedFrame(g, h, n);
    }
  }

  // ---------------------------------------------------------------------------
  // A2 and B2: v2 and v3 change places

  function ApplyA2(g: Graph, c: Context): Graph
    requires Shape(g, c)
  {
    Rotate(g, c, c.v3, g[c.v].clause)
  }

  function ApplyB2(g: Graph, c: Context): Graph
    requires Shape(g, c)
  {
    Rotate(g, c, c.v3, Merge(Merge(g[c.v1].clause, g[c.v3].clause, T1(g, c)), g[c.v2].clause, T0(g, c)))
  }

  /** A2 on a context whose w has no other resolvent keeps a valid refutation and v's clause. */
  lemma A2Preserves(g: Graph, root: Id, rank: map<Id, nat>, c: Context)
    requires Refutation(g, root, rank) && Applicable(g, c) && IsA2(c.ty) && g[c.w].res == {c.v}
    ensures Refutation(ApplyA2(g, c), root, SwapRank(g, c, rank))
    ensures ApplyA2(g, c)[c.v].clause == g[c.v].clause
  {
    var s0, s1 := ContextFacts(g, root, rank, c);
    SwapClauses(C(g, c.v1), C(g, c.v2), C(g, c.v3), C(g, c.w), C(g, c.v), T0(g, c), T1(g, c), s0, s1);
    ContextDistinct(g, root, rank, c);
    assert WellFormed(g[c.v]);
    RotateValid(g, root, rank, c, c.v3, g[c.v].clause, {});
    RotateAt(g, c, c.v3, g[c.v].clause, root);
    assert Lit(T1(g, c), s1) in C(g, c.w);
  }

  /** On a B2 context v is a unit clause, and resolving it the other way round leaves nothing. */
  lemma B2Clauses(g: Graph, root: Id, rank: map<Id, nat>, c: Context)
    requires ValidExcept(g, root, rank, {}) && Enabled(g, c) && c.ty == B2
    ensures var w' := Resolvent(C(g, c.v1), C(g, c.v3), T1(g, c));
            && Resolves(w', C(g, c.v1), C(g, c.v3), T1(g, c)) && NonTaut(w')
            && Resolves({}, w', C(g, c.v2), T0(g, c))
  {
    var s0, s1 := ContextFacts(g, root, rank, c);
    var c1, c2, c3 := C(g, c.v1), C(g, c.v2), C(g, c.v3);
    var t0 := T0(g, c);
    MentionsSign(c1, t0, s0);
    MentionsSign(c3, t0, s0);
    SwapClauses(c1, c2, c3, C(g, c.w), C(g, c.v), t0, T1(g, c), s0, s1);
    UnitClause(g[c.v].clause, Lit(t0, s0));
  }

  lemma UnitClause(c: seq<Lit>, l: Lit)
    requires |c| == 1 && l in Lits(c)
    ensures Lits(c) == {l}
  {
    assert c == [l];
  }

  lemma B2Merge(g: Graph, root: Id, rank: map<Id, nat>, c: Context)
    requires ValidExcept(g, root, rank, {}) && Enabled(g, c) && c.ty == B2
    ensures Merge(Merge(g[c.v1].clause, g[c.v3].clause, T1(g, c)), g[c.v2].clause, T0(g, c)) == []
  {
    B2Clauses(g, root, rank, c);
    MergedClause(g, c.v1, c.v3, T1(g, c));
    NodeNonTaut(g, c.v2);
    var wc := Merge(g[c.v1].clause, g[c.v3].clause, T1(g, c));
    SortedVarsFacts(wc);
    MergeIsResolvent(wc, g[c.v2].clause, T0(g, c));
    HeadLit(Merge(wc, g[c.v2].clause, T0(g, c)));
  }

  /** B2 turns the unit clause at v into the empty clause, correctly derived; only the nodes that
      derive from v have to be recomputed. */
  lemma B2Subsumes(g: Graph, root: Id, rank: map<Id, nat>, c: Context)
    requires ValidExcept(g, root, rank, {}) && Enabled(g, c) && c.ty == B2 && g[c.w].res == {c.v}
    ensures ValidExcept(ApplyB2(g, c), root, SwapRank(g, c, rank), g[c.v].res)
    ensures c.v !in g[c.v].res
    ensures c.v in ApplyB2(g, c) && WellDerived(ApplyB2(g, c), c.v)
    ensures ApplyB2(g, c)[c.v].clause == [] && |g[c.v].clause| == 1
    ensures g[root].clause == [] ==> ApplyB2(g, c)[root].clause == []
  {
    ContextDistinct(g, root, rank, c);
    B2Clauses(g, root, rank, c);
    B2Merge(g, root, rank, c);
    RotateValid(g, root, rank, c, c.v3, [], g[c.v].res);
    RotateAt(g, c, c.v3, [], c.v);
    RotateAt(g, c, c.v3, [], root);
    assert C(g, c.w) != {} by { assert WellDerived(g, c.v); }
    assert WellDerived(ApplyB2(g, c), c.v);
  }

  // ---------------------------------------------------------------------------
  // A1: v1 and v2 are each resolved with v3 on t1, and the results on t0

  function ApplyA1(g: Graph, c: Context, y: Id): Graph
    requires Shape(g, c) && y !in g
  {
    var t1 := T1(g, c);
    var g1 := AddNode(g, y, Merge(g[c.v2].clause, g[c.v3].clause, t1), t1, c.v2, c.v3);
    var g2 := Rewire(Rewire(g1, c.w, c.v2, c.v3), c.v, c.v3, y);
    TradePivots(SetClause(g2, c.w, Merge(g[c.v1].clause, g[c.v3].clause, t1)), c.w, c.v)
  }

  ghost function A1Rank(g: Graph, c: Context, rank: map<Id, nat>, y: Id): map<Id, nat>
    requires Shape(g, c) && Ranked(g, rank)
  {
    var below := SwapRank(g, c, rank);
    below[y := below[c.w]]
  }

  /** What A1 does to node `n`. */
  ghost predicate A1At(g: Graph, c: Context, y: Id, h: Graph, n: Id)
    requires Shape(g, c)
  {
    var t1 := T1(g, c);
    && n in h && (n == y || n in g)
    && h[n].ty == (if n == y then DerivedClause else g[n].ty)
    && h[n].clause == (if n == c.w then Merge(g[c.v1].clause, g[c.v3].clause, t1)
                       else if n == y then Merge(g[c.v2].clause, g[c.v3].clause, t1)
                       else g[n].clause)
    && (if n == c.w then Antecedents(h[n], c.v1, c.v3) && h[n].links.pivot == t1
        else if n == c.v then Antecedents(h[n], c.w, y) && h[n].links.pivot == T0(g, c)
        else if n == y then h[n].links == Ants(t1, c.v2, c.v3)
        else h[n].links == g[n].links)
  }

  lemma A1Pointwise(g: Graph, c: Context, y: Id, n: Id)
    requires Shape(g, c) && Distinct(c) && y !in g && (n in g || n == y)
    ensures ApplyA1(g, c, y).Keys == g.Keys + {y}
    ensures A1At(g, c, y, ApplyA1(g, c, y), n)
  {
    var g1 := AddNode(g, y, Merge(g[c.v2].clause, g[c.v3].clause, T1(g, c)), T1(g, c), c.v2, c.v3);
    var g2 := Rewire(g1, c.w, c.v2, c.v3);
    RewireAt(g1, c.w, c.v2, c.v3, n);
    RewireAt(g1, c.w, c.v2, c.v3, c.v);
    RewireAt(g2, c.v, c.v3, y, n);
  }

  lemma A1Linked(g: Graph, c: Context, y: Id)
    requires Linked(g) && Shape(g, c) && Distinct(c) && y !in g
    ensures Linked(ApplyA1(g, c, y))
  {
    var t1 := T1(g, c);
    var yc := Merge(g[c.v2].clause, g[c.v3].clause, t1);
    var g1 := AddNode(g, y, yc, t1, c.v2, c.v3);
    AddNodeLinked(g, y, yc, t1, c.v2, c.v3);
    RewireLinked(g1, c.w, c.v2, c.v3);
    RewireAt(g1, c.w, c.v2, c.v3, c.v);
    var g2 := Rewire(g1, c.w, c.v2, c.v3);
    RewireLinked(g2, c.v, c.v3, y);
    var g3 := Rewire(g2, c.v, c.v3, y);
    hide Rewire, AddNode, Linked, Merge;
    SameEdgesLinked(g3, ApplyA1(g, c, y));
  }

  /** A graph that looks like the result of A1, with its links in order. */
  ghost predicate A1Result(g: Graph, c: Context, y: Id, h: Graph) {
    && Linked(g) && Shape(g, c) && Distinct(c) && y !in g && g[c.w].res == {c.v}
    && Linked(h) && h.Keys == g.Keys + {y} && forall n :: n in h ==> A1At(g, c, y, h, n)
  }

  lemma A1Ranked(g: Graph, rank: map<Id, nat>, c: Context, y: Id, h: Graph)
    requires Ranked(g, rank) && A1Result(g, c, y, h)
    requires Ordered(c, rank)
    ensures Ranked(h, A1Rank(g, c, rank, y))
  {
    hide Merge;
    var rank' := A1Rank(g, c, rank, y);
    forall n | n in h ensures RankedAt(h, rank', n) {
      assert A1At(g, c, y, h, n);
      if n == c.w {
        RankedFrom(h, rank', n, c.v1, c.v3);
      } else if n == c.v {
        RankedFrom(h, rank', n, c.w, y);
      } else if n == y {
        RankedFrom(h, rank', n, c.v2, c.v3);
      } else {
        assert RankedAt(g, rank, n);
        OnlyChild(g, c, n);
      }
    }
  }

  lemma A1Derived(g: Graph, c: Context, y: Id, h: Graph, n: Id)
    requires A1Result(g, c, y, h) && n in h && (n in g ==> WellDerived(g, n))
    requires var wc := Lits(Merge(g[c.v1].clause, g[c.v3].clause, T1(g, c)));
             var yc := Lits(Merge(g[c.v2].clause, g[c.v3].clause, T1(g, c)));
             && Resolves(wc, C(g, c.v1), C(g, c.v3), T1(g, c))
             && Resolves(yc, C(g, c.v2), C(g, c.v3), T1(g, c))
             && Resolves(C(g, c.v), wc, yc, T0(g, c))
    ensures WellDerived(h, n)
  {
    assert A1At(g, c, y, h, n) && A1At(g, c, y, h, c.v3);
    if n == c.v {
      assert A1At(g, c, y, h, c.w) && A1At(g, c, y, h, y);
      DerivedFrom(h, n, c.w, y);
    } else if n == c.w {
      assert A1At(g, c, y, h, c.v1);
      DerivedFrom(h, n, c.v1, c.v3);
    } else if n == y {
      assert A1At(g, c, y, h, c.v2);
      DerivedFrom(h, n, c.v2, c.v3);
    } else {
      OnlyChild(g, c, n);
      forall a | IsAnt(g[n], a) && a in g ensures a in h && h[a].clause == g[a].clause {
        assert A1At(g, c, y, h, a);
      }
      DerivedFrame(g, h, n);
    }
  }

  /** A1 on a context whose w has no other resolvent keeps a valid refutation and v's clause. */
  lemma A1Preserves(g: Graph, root: Id, rank: map<Id, nat>, c: Context, y: Id)
    requires Refutation(g, root, rank) && Enabled(g, c) && IsA1(c.ty) && g[c.w].res == {c.v} && y !in g
    ensures Refutation(ApplyA1(g, c, y), root, A1Rank(g, c, rank, y))
    ensures ApplyA1(g, c, y)[c.v].clause == g[c.v].clause
  {
    hide Linked, Ranked, Local, SortedVars, ApplyA1;
    A1Facts(g, root, rank, c);
    A1Linked(g, c, y);
    forall n | n in g || n == y ensures A1At(g, c, y, ApplyA1(g, c, y), n) {
      A1Pointwise(g, c, y, n);
    }
    A1Pointwise(g, c, y, y);
    A1Valid(g, root, rank, c, y, ApplyA1(g, c, y));
  }

  lemma A1Valid(g: Graph, root: Id, rank: map<Id, nat>, c: Context, y: Id, h: Graph)
    requires Refutation(g, root, rank) && Enabled(g, c) && IsA1(c.ty) && A1Result(g, c, y, h)
    ensures Refutation(h, root, A1Rank(g, c, rank, y)) && h[c.v].clause == g[c.v].clause
  {
    hide Linked, Ranked, SortedVars, Resolves;
    A1Facts(g, root, rank, c);
    ContextDistinct(g, root, rank, c);
    A1Ranked(g, rank, c, y, h);
    forall n | n in h ensures WellFormed(h[n]) && WellDerived(h, n) {
      A1WellFormed(g, c, y, h, n);
      A1Derived(g, c, y, h, n);
    }
    assert A1At(g, c, y, h, root) && A1At(g, c, y, h, c.v);
  }

  lemma A1WellFormed(g: Graph, c: Context, y: Id, h: Graph, n: Id)
    requires Shape(g, c) && n in h && A1At(g, c, y, h, n) && (n in g ==> WellFormed(g[n]))
    requires SortedVars(Merge(g[c.v1].clause, g[c.v3].clause, T1(g, c)))
    requires SortedVars(Merge(g[c.v2].clause, g[c.v3].clause, T1(g, c)))
    ensures WellFormed(h[n])
  {
  }

  lemma A1Facts(g: Graph, root: Id, rank: map<Id, nat>, c: Context)
    requires ValidExcept(g, root, rank, {}) && Enabled(g, c) && IsA1(c.ty)
    ensures var wc, yc := Merge(g[c.v1].clause, g[c.v3].clause, T1(g, c)), Merge(g[c.v2].clause, g[c.v3].clause, T1(g, c));
            && SortedVars(wc) && Resolves(Lits(wc), C(g, c.v1), C(g, c.v3), T1(g, c))
            && SortedVars(yc) && Resolves(Lits(yc), C(g, c.v2), C(g, c.v3), T1(g, c))
            && Resolves(C(g, c.v), Lits(wc), Lits(yc), T0(g, c))
    ensures Distinct(c) && g[c.w].clause != []
  {
    var s0, s1 := ContextFacts(g, root, rank, c);
    ContextDistinct(g, root, rank, c);
    DistributeClauses(C(g, c.v1), C(g, c.v2), C(g, c.v3), C(g, c.w), C(g, c.v), T0(g, c), T1(g, c), s0, s1);
    MergedClause(g, c.v1, c.v3, T1(g, c));
    MergedClause(g, c.v2, c.v3, T1(g, c));
    assert Lit(T1(g, c), s1) in C(g, c.w);
  }

  // ---------------------------------------------------------------------------
  // Duplication: v gets a copy of w to itself

  function SetType(g: Graph, n: Id, ty: ClauseType): Graph
    requires n in g
  {
    g[n := g[n].(ty := ty)]
  }

  function Duplicated(g: Graph, c: Context, y: Id): Graph
    requires Shape(g, c) && y !in g
  {
    var w := g[c.w];
    Rewire(SetType(AddNode(g, y, w.clause, w.links.pivot, w.links.ant1, w.links.ant2), y, w.ty), c.v, c.w, y)
  }

  /** What duplication does to node `n`. */
  lemma DuplicatedAt(g: Graph, c: Context, y: Id, n: Id)
    requires Shape(g, c) && Distinct(c) && y !in g && (n in g || n == y)
    ensures Duplicated(g, c, y).Keys == g.Keys + {y}
    ensures var h := Duplicated(g, c, y);
            && (n == y ==> h[n] == g[c.w].(res := {c.v}))
            && (n == c.v ==> h[n] == g[n].(links := Redirect(g[n].links, c.w, y)))
            && (n == c.w ==> h[n] == g[n].(res := g[n].res - {c.v}))
            && (n in {c.v1, c.v2} ==> h[n] == g[n].(res := g[n].res + {y}))
            && (n !in {y, c.v, c.w, c.v1, c.v2} ==> h[n] == g[n])
  {
    var w := g[c.w];
    var g1 := SetType(AddNode(g, y, w.clause, w.links.pivot, w.links.ant1, w.links.ant2), y, w.ty);
    RewireAt(g1, c.v, c.w, y, n);
  }

  lemma DuplicatedLinked(g: Graph, c: Context, y: Id)
    requires Linked(g) && Shape(g, c) && Distinct(c) && y !in g
    ensures Linked(Duplicated(g, c, y))
  {
    var w := g[c.w];
    var g1 := AddNode(g, y, w.clause, w.links.pivot, w.links.ant1, w.links.ant2);
    AddNodeLinked(g, y, w.clause, w.links.pivot, w.links.ant1, w.links.ant2);
    var g2 := SetType(g1, y, w.ty);
    SameEdgesLinked(g1, g2);
    RewireLinked(g2, c.v, c.w, y);
  }

  /** The copy stands where w stood, so a context of `g` is one of the new graph, in which the copy serves v alone. */
  lemma DuplicatedPreserves(g: Graph, root: Id, rank: map<Id, nat>, c: Context, y: Id)
    requires Refutation(g, root, rank) && Applicable(g, c) && c.ty != A1Prime && y !in g
    ensures var h, d := Duplicated(g, c, y), c.(w := y);
            && Refutation(h, root, rank[y := rank[c.w]]) && Applicable(h, d) && h[y].res == {c.v}
  {
    hide Duplicated, Linked;
    ApplicableDistinct(g, root, rank, c);
    var h, rank' := Duplicated(g, c, y), rank[y := rank[c.w]];
    DuplicatedLinked(g, c, y);
    DuplicatedAt(g, c, y, y);
    DuplicatedAt(g, c, y, root);
    assert g[c.w].clause != [] by { assert WellDerived(g, c.v); }
    forall n | n in h ensures WellFormed(h[n]) && RankedAt(h, rank', n) && WellDerived(h, n) {
      DuplicatedNode(g, root, rank, c, y, n);
    }
    RankedByAll(h, rank');
    DuplicatedContext(g, c, y);
  }

  lemma ApplicableDistinct(g: Graph, root: Id, rank: map<Id, nat>, c: Context)
    requires ValidExcept(g, root, rank, {}) && Applicable(g, c)
    ensures Shape(g, c) && Distinct(c) && Ordered(c, rank)
  {
    ContextDistinct(g, root, rank, c);
  }

  lemma DuplicatedNode(g: Graph, root: Id, rank: map<Id, nat>, c: Context, y: Id, n: Id)
    requires ValidExcept(g, root, rank, {}) && Shape(g, c) && Distinct(c) && Ordered(c, rank) && y !in g && n in Duplicated(g, c, y)
    ensures var h := Duplicated(g, c, y);
            WellFormed(h[n]) && RankedAt(h, rank[y := rank[c.w]], n) && WellDerived(h, n)
  {
    hide Duplicated, Linked;
    var h, rank' := Duplicated(g, c, y), rank[y := rank[c.w]];
    DuplicatedAt(g, c, y, y);
    DuplicatedAt(g, c, y, n);
    var m := if n == y then c.w else n;
    assert WellFormed(g[m]) && RankedAt(g, rank, m) && WellDerived(g, m);
    if g[m].links.Ants? {
      DuplicatedAt(g, c, y, g[m].links.ant1);
      DuplicatedAt(g, c, y, g[m].links.ant2);
    }
  }

  lemma DuplicatedContext(g: Graph, c: Context, y: Id)
    requires Shape(g, c) && Distinct(c) && Applicable(g, c) && c.ty != A1Prime && y !in g
    ensures Applicable(Duplicated(g, c, y), c.(w := y))
  {
    hide Duplicated;
    DuplicatedAt(g, c, y, y);
    DuplicatedAt(g, c, y, c.v);
    DuplicatedAt(g, c, y, c.v1);
    DuplicatedAt(g, c, y, c.v2);
    DuplicatedAt(g, c, y, c.v3);
  }
}
