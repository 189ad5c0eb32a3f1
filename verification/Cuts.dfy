/** Rules that drop nodes: the undo of A1, and the cut rules, which shorten a clause and delete
    what no longer contributes. */
module Cuts {
  import opened Clauses
  import opened Proofs
  import opened LocalSteps
  import opened Rules

  // ---------------------------------------------------------------------------
  // Removing nodes

  /** Node `n` without the deleted resolvents. */
  function Without(n: Node, gone: set<Id>): Node {
    n.(res := n.res - gone)
  }

  /** Deletes one node; its antecedents lose it. */
  function Drop(g: Graph, d: Id): Graph {
    map n | n in g && n != d :: Without(g[n], {d})
  }

  /** `h` is `g` after deleting `first` and then every node whose last resolvent was deleted. */
  ghost predicate Cascade(g: Graph, first: Id, h: Graph) {
    var gone := g.Keys - h.Keys;
    && first in g && first !in h && h.Keys <= g.Keys
    && (forall n {:trigger h[n]} :: n in h ==> h[n] == Without(g[n], gone))
    && (forall n {:trigger n in gone} :: n in gone ==> g[n].res <= gone)
    && (forall n {:trigger n in gone} :: n in gone && n != first ==> g[n].res != {})
    && (forall n {:trigger h[n]} :: n in h && h[n].res == {} ==> g[n].res == {})
  }

  /** Deleting an upward closed set of nodes keeps everything that is left valid. */
  lemma RemovalValid(g: Graph, root: Id, rank: map<Id, nat>, stale: set<Id>, h: Graph)
    requires ValidExcept(g, root, rank, stale)
    requires root in h && h.Keys <= g.Keys
    requires forall n {:trigger h[n]} :: n in h ==> h[n] == Without(g[n], g.Keys - h.Keys)
    requires forall n {:trigger g[n]} :: n in g && n !in h ==> g[n].res <= g.Keys - h.Keys
    ensures ValidExcept(h, root, rank, stale)
    ensures h[root].clause == g[root].clause
  {
    forall n | n in h
      ensures WellFormed(h[n]) && RankedAt(h, rank, n) && (n !in stale ==> WellDerived(h, n))
      ensures g[n].links.Ants? ==> g[n].links.ant1 in h && g[n].links.ant2 in h
    {
      assert WellFormed(g[n]) && RankedAt(g, rank, n);
      if g[n].links.Ants? {
        assert IsAnt(g[n], g[n].links.ant1) && IsAnt(g[n], g[n].links.ant2);
      }
      if n !in stale { assert WellDerived(g, n); }
    }
    forall a, r {:trigger r in h[a].res} | a in h && r in h[a].res ensures r in h && IsAnt(h[r], a) {
      assert r in g[a].res;
    }
    forall a, r {:trigger IsAnt(h[r], a)} | r in h && IsAnt(h[r], a) ensures a in h && r in h[a].res {
      assert IsAnt(g[r], a);
    }
  }

  /** The empty clause is nobody's antecedent. */
  lemma RootOnTop(g: Graph, root: Id, rank: map<Id, nat>)
    requires Refutation(g, root, rank)
    ensures g[root].res == {}
  {
    assert Lits(g[root].clause) == {};
    forall r ensures r !in g[root].res {
      assert r in g[root].res ==> IsAnt(g[r], root) && WellDerived(g, r);
    }
  }

  /** A node goes exactly if it is the first or all of its resolvents, of which it has some, go. */
  lemma CascadeMember(g: Graph, first: Id, h: Graph, n: Id)
    requires Linked(g) && Cascade(g, first, h) && n in g
    ensures n !in h <==> n == first || (g[n].res != {} && g[n].res !! h.Keys)
  {
    var gone := g.Keys - h.Keys;
    assert g[n].res <= g.Keys by {
      assert forall r :: r in g[n].res ==> r in g;
    }
    if n in h {
      assert h[n] == Without(g[n], gone);
      assert h[n].res == g[n].res * h.Keys;
    } else {
      assert n in gone;
    }
  }

  /** Everything a cascade deletes besides the first node ranks below it. */
  lemma CascadeBelow(g: Graph, rank: map<Id, nat>, first: Id, h: Graph, n: Id)
    requires Linked(g) && Ranked(g, rank) && Cascade(g, first, h)
    requires n in g && n != first && rank[n] >= rank[first]
    ensures n in h
  {
    if n !in h {
      var top := MaxRank(rank, rank.Keys);
      NotDeleted(g, rank, first, h, n, top);
    }
  }

  lemma MaxRank(rank: map<Id, nat>, s: set<Id>) returns (top: nat)
    requires s <= rank.Keys
    ensures forall m :: m in s ==> rank[m] <= top
  {
    top := 0;
    if s != {} {
      var x :| x in s;
      var rest := MaxRank(rank, s - {x});
      top := if rank[x] > rest then rank[x] else rest;
      assert forall m :: m in s ==> m == x || m in s - {x};
    }
  }

  lemma {:induction false} NotDeleted(g: Graph, rank: map<Id, nat>, first: Id, h: Graph, n: Id, top: nat)
    requires Linked(g) && Ranked(g, rank) && Cascade(g, first, h)
    requires n in g && n != first && rank[n] >= rank[first] && forall m :: m in g ==> rank[m] <= top
    ensures n in h
    decreases top - rank[n]
  {
    CascadeMember(g, first, h, n);
    forall r | r in g[n].res ensures r in h {
      assert IsAnt(g[r], n) && RankedAt(g, rank, r);
      NotDeleted(g, rank, first, h, r, top);
    }
    if r :| r in g[n].res {
      assert r in h;
    }
  }

  /** A chain of resolvents that starts at `n`, avoids `first` and ends at a node nothing derives from. */
  ghost predicate Escapes(g: Graph, first: Id, n: Id, path: seq<Id>) {
    && path != [] && path[0] == n
    && (forall i :: 0 <= i < |path| ==> path[i] in g && path[i] != first)
    && (forall i :: 0 <= i < |path| - 1 ==> path[i + 1] in g[path[i]].res)
    && g[path[|path| - 1]].res == {}
  }

  /** A node survives a cascade if it has a chain of resolvents that avoids the first node. */
  lemma {:induction false} EscapeSurvives(g: Graph, first: Id, h: Graph, n: Id, path: seq<Id>)
    requires Linked(g) && Cascade(g, first, h) && Escapes(g, first, n, path)
    ensures n in h
    decreases |path|
  {
    CascadeMember(g, first, h, n);
    if |path| > 1 {
      assert Escapes(g, first, path[1], path[1..]);
      EscapeSurvives(g, first, h, path[1], path[1..]);
      assert path[1] in g[n].res;
    }
  }

  /** ... and only then. */
  lemma {:induction false} SurvivorEscapes(g: Graph, rank: map<Id, nat>, first: Id, h: Graph, n: Id, top: nat)
    returns (path: seq<Id>)
    requires Linked(g) && Ranked(g, rank) && Cascade(g, first, h)
    requires n in h && forall m :: m in g ==> rank[m] <= top
    ensures Escapes(g, first, n, path)
    decreases top - rank[n]
  {
    CascadeMember(g, first, h, n);
    if g[n].res == {} {
      path := [n];
    } else {
      var r :| r in g[n].res && r in h.Keys;
      assert IsAnt(g[r], n) && RankedAt(g, rank, r);
      var rest := SurvivorEscapes(g, rank, first, h, r, top);
      path := [n] + rest;
    }
  }

  /** A cascade that starts at a node without resolvents keeps the rest of the graph valid. */
  lemma CascadeValid(g: Graph, root: Id, rank: map<Id, nat>, stale: set<Id>, first: Id, h: Graph)
    requires ValidExcept(g, root, rank, stale) && g[root].res == {}
    requires first != root && Cascade(g, first, h)
    ensures ValidExcept(h, root, rank, stale) && h[root].clause == g[root].clause
  {
    CascadeMember(g, first, h, root);
    assert forall n {:trigger g[n]} :: n in g && n !in h ==> n in g.Keys - h.Keys;
    RemovalValid(g, root, rank, stale, h);
  }

  /** What a cascade deletes is determined by the graph and the first node. */
  lemma {:induction false} CascadeUnique(g: Graph, rank: map<Id, nat>, first: Id, h: Graph, k: Graph, n: Id, top: nat)
    requires Linked(g) && Ranked(g, rank) && Cascade(g, first, h) && Cascade(g, first, k)
    requires n in g && forall m :: m in g ==> rank[m] <= top
    ensures n in h <==> n in k
    decreases top - rank[n]
  {
    forall r | r in g[n].res ensures r in h <==> r in k {
      assert IsAnt(g[r], n) && RankedAt(g, rank, r);
      CascadeUnique(g, rank, first, h, k, r, top);
    }
    CascadeMember(g, first, h, n);
    CascadeMember(g, first, k, n);
  }

  /** A cascade in progress: `h` is left of `g`, and the queue `q` holds every node that has just
      lost its last resolvent. */
  ghost predicate Cascading(g: Graph, first: Id, h: Graph, q: seq<Id>) {
    var gone := g.Keys - h.Keys;
    && first in g && h.Keys <= g.Keys
    && (forall n {:trigger h[n]} :: n in h ==> h[n] == Without(g[n], gone))
    && (forall n {:trigger n in gone} :: n in gone ==> g[n].res <= gone)
    && (forall n {:trigger n in gone} :: n in gone && n != first ==> g[n].res != {})
    && (forall n {:trigger h[n]} :: n in h && h[n].res == {} && g[n].res != {} ==> n in q)
    && (forall n {:trigger n in q} :: n in q ==> n in g && (n == first || g[n].res != {}))
    && (first in h ==> first in q)
  }

  /** Deleting the front of the queue. */
  lemma CascadeStep(g: Graph, first: Id, h: Graph, q: seq<Id>, rest: seq<Id>)
    requires Linked(g) && Cascading(g, first, h, q) && q != [] && q[0] in h && h[q[0]].res == {}
    requires forall a {:trigger a in rest} :: a in rest <==> a in q[1..] || IsAnt(g[q[0]], a)
    ensures Cascading(g, first, Drop(h, q[0]), rest)
  {
    var c := q[0];
    var k := Drop(h, c);
    var gone, gone' := g.Keys - h.Keys, g.Keys - k.Keys;
    assert h[c] == Without(g[c], gone);
    assert gone' == gone + {c};
    assert forall x :: x in q ==> x == c || x in q[1..];
    forall n | n in k
      ensures k[n] == Without(g[n], gone') && (k[n].res == {} && g[n].res != {} ==> n in rest)
    {
      assert h[n] == Without(g[n], gone);
      if c in g[n].res {
        assert IsAnt(g[c], n);
      } else {
        assert k[n].res == h[n].res;
      }
    }
    forall n | n in gone' ensures g[n].res <= gone' && (n != first ==> g[n].res != {}) {
      assert n in gone || n == c;
      assert c in q;
    }
    forall n | n in rest ensures n in g && (n == first || g[n].res != {}) {
      assert n in q || (IsAnt(g[c], n) && c in g[n].res);
    }
  }

  /** Passing over a queue entry that is gone already or still has resolvents. */
  lemma CascadeSkip(g: Graph, first: Id, h: Graph, q: seq<Id>)
    requires Cascading(g, first, h, q) && q != [] && (q[0] in h ==> h[q[0]].res != {}) && g[first].res == {}
    ensures Cascading(g, first, h, q[1..])
  {
    assert forall x :: x in q ==> x == q[0] || x in q[1..];
    assert forall x {:trigger x in q[1..]} :: x in q[1..] ==> x in q;
    assert q[0] in h ==> h[q[0]] == Without(g[q[0]], g.Keys - h.Keys);
  }

  lemma CascadeDone(g: Graph, first: Id, h: Graph)
    requires Cascading(g, first, h, [])
    ensures Cascade(g, first, h)
  {
  }

  // ---------------------------------------------------------------------------
  // A1': v3 resolves v2 with some other node; w takes that node for v2, v takes v2 for v3

  function Other(n: Node, a: Id): Id
    requires n.links.Ants?
  {
    if n.links.ant1 == a then n.links.ant2 else n.links.ant1
  }

  /** The graph after the turn, before v3 is looked at. */
  function Undone(g: Graph, c: Context): Graph
    requires Shape(g, c) && g[c.v3].links.Ants? && Other(g[c.v3], c.v2) in g
  {
    var x := Other(g[c.v3], c.v2);
    Reorder(Reorder(Rotate(g, c, x, g[c.v].clause), c.w, c.v1, x), c.v, c.w, c.v2)
  }

  function ApplyA1Prime(g: Graph, c: Context): Graph
    requires Shape(g, c) && g[c.v3].links.Ants? && Other(g[c.v3], c.v2) in g
  {
    var undone := Undone(g, c);
    if undone[c.v3].res == {} then Drop(undone, c.v3) else undone
  }

  /** What applyRuleA1Prime asserts before it undoes an A1. */
  ghost predicate UndoReady(g: Graph, c: Context) {
    && Linked(g) && Shape(g, c) && Distinct(c) && IsAnt(g[c.v3], c.v2)
    && var x := Other(g[c.v3], c.v2);
       && x in g && x !in {c.v1, c.v2, c.w, c.v, c.v3}
       && SortedLits(g[c.v1].clause) && SortedLits(g[x].clause)
       && Mentions(C(g, c.v1), T1(g, c)) && Mentions(C(g, x), T1(g, c))
  }

  lemma UndoneLinked(g: Graph, c: Context)
    requires UndoReady(g, c)
    ensures Linked(Undone(g, c)) && c.v3 in Undone(g, c)
  {
    hide Merge, SortedLits, Mentions;
    var x := Other(g[c.v3], c.v2);
    RotateLinked(g, c, x, g[c.v].clause);
    var turned := Rotate(g, c, x, g[c.v].clause);
    RotateAt(g, c, x, g[c.v].clause, c.w);
    RotateAt(g, c, x, g[c.v].clause, c.v);
    TurnedLinked(turned, c.w, c.v1, x, c.v, c.w, c.v2);
  }

  lemma TurnedLinked(g: Graph, n: Id, a: Id, b: Id, n': Id, a': Id, b': Id)
    requires Linked(g) && n in g && n' in g && n != n' && Antecedents(g[n], a, b) && Antecedents(g[n'], a', b')
    ensures Linked(Reorder(Reorder(g, n, a, b), n', a', b'))
  {
    SameEdgesLinked(g, Reorder(Reorder(g, n, a, b), n', a', b'));
  }

  /** An enabled A1' meets these assertions. */
  lemma A1PrimeReady(g: Graph, root: Id, rank: map<Id, nat>, c: Context)
    requires Refutation(g, root, rank) && Enabled(g, c) && c.ty == A1Prime
    ensures UndoReady(g, c) && g[c.v3].links.Ants? && Other(g[c.v3], c.v2) in g
  {
    A1PrimeFacts(g, root, rank, c);
    var x := Other(g[c.v3], c.v2);
    assert WellFormed(g[c.v1]) && WellFormed(g[x]) && RankedAt(g, rank, c.v3);
    NodeNonTaut(g, c.v1);
    NodeNonTaut(g, x);
  }

  lemma A1PrimeFacts(g: Graph, root: Id, rank: map<Id, nat>, c: Context)
    requires Refutation(g, root, rank) && Enabled(g, c) && c.ty == A1Prime
    ensures var x := Other(g[c.v3], c.v2);
            && x in g && CanRotate(g, root, rank, c, x) && RotatedClauses(g, c, x, g[c.v].clause)
    ensures C(g, c.v3) != {} && C(g, c.w) != {}
  {
    var x := Other(g[c.v3], c.v2);
    var s0, s1 := ContextFacts(g, root, rank, c);
    ContextDistinct(g, root, rank, c);
    assert WellDerived(g, c.v3) && RankedAt(g, rank, c.v3);
    assert WellFormed(g[x]) && WellFormed(g[c.v2]) && WellFormed(g[c.v]);
    NodeNonTaut(g, x);
    NodeNonTaut(g, c.v2);
    var s := PivotSigns(C(g, c.v3), C(g, c.v2), C(g, x), T0(g, c));
    FactorClauses(C(g, c.v1), C(g, c.v2), C(g, c.v3), C(g, c.w), C(g, c.v), C(g, x), T0(g, c), T1(g, c), s0, s1);
    assert Lit(T1(g, c), s1) in C(g, c.v1) && Lit(T1(g, c), !s1) in C(g, x);
    assert WellFormed(g[c.v1]);
    NodeNonTaut(g, c.v1);
    MentionsSign(C(g, c.v1), T1(g, c), s1);
    MentionsSign(C(g, c.v2), T0(g, c), !s0);
    assert Mentions(C(g, x), T0(g, c)) && !Mentions(C(g, c.w), T0(g, c));
  }

  lemma ReorderValid(g: Graph, root: Id, rank: map<Id, nat>, stale: set<Id>, n: Id, a: Id, b: Id)
    requires ValidExcept(g, root, rank, stale) && n in g && Antecedents(g[n], a, b)
    ensures ValidExcept(Reorder(g, n, a, b), root, rank, stale)
  {
    var h := Reorder(g, n, a, b);
    SameEdgesLinked(g, h);
    forall m | m in h
      ensures WellFormed(h[m]) && RankedAt(h, rank, m) && (m !in stale ==> WellDerived(h, m))
    {
      assert WellFormed(g[m]) && RankedAt(g, rank, m);
      if m !in stale {
        assert WellDerived(g, m);
        if m == n { DerivedFrom(h, n, a, b); }
      }
    }
  }

  lemma DropValid(g: Graph, root: Id, rank: map<Id, nat>, stale: set<Id>, d: Id)
    requires ValidExcept(g, root, rank, stale) && d in g && d != root && g[d].res == {}
    ensures ValidExcept(Drop(g, d), root, rank, stale) && Drop(g, d)[root].clause == g[root].clause
  {
    var h := Drop(g, d);
    assert g.Keys - h.Keys == {d};
    RemovalValid(g, root, rank, stale, h);
  }

  /** A1' keeps a valid refutation and v's clause, whether or not v3 becomes useless. */
  lemma A1PrimePreserves(g: Graph, root: Id, rank: map<Id, nat>, c: Context)
    requires Refutation(g, root, rank) && Enabled(g, c) && c.ty == A1Prime
    ensures Other(g[c.v3], c.v2) in g
    ensures Refutation(ApplyA1Prime(g, c), root, SwapRank(g, c, rank))
    ensures c.v in ApplyA1Prime(g, c) && ApplyA1Prime(g, c)[c.v].clause == g[c.v].clause
  {
    A1PrimeFacts(g, root, rank, c);
    var x := Other(g[c.v3], c.v2);
    var vClause := g[c.v].clause;
    var rank' := SwapRank(g, c, rank);
    A1PrimeTurned(g, root, rank, c, x);
    hide Rotate, CanRotate, RotatedClauses, ValidExcept;
    var turned := Rotate(g, c, x, vClause);
    ReorderValid(turned, root, rank', {}, c.w, c.v1, x);
    var o1 := Reorder(turned, c.w, c.v1, x);
    ReorderValid(o1, root, rank', {}, c.v, c.w, c.v2);
    if Undone(g, c)[c.v3].res == {} {
      DropValid(Undone(g, c), root, rank', {}, c.v3);
    }
  }

  lemma A1PrimeTurned(g: Graph, root: Id, rank: map<Id, nat>, c: Context, x: Id)
    requires CanRotate(g, root, rank, c, x) && g[root].clause == [] && RotatedClauses(g, c, x, g[c.v].clause)
    requires C(g, c.v3) != {} && C(g, c.w) != {}
    ensures var turned := Rotate(g, c, x, g[c.v].clause);
            && ValidExcept(turned, root, SwapRank(g, c, rank), {})
            && turned[root].clause == [] && root != c.v3
            && c.w in turned && Antecedents(turned[c.w], c.v1, x)
            && c.v in turned && Antecedents(turned[c.v], c.w, c.v2) && turned[c.v].clause == g[c.v].clause
            && c.v3 in turned && c.v != c.v3 && c.v != c.w
  {
    RotateValid(g, root, rank, c, x, g[c.v].clause, {});
    RotateAt(g, c, x, g[c.v].clause, root);
    RotateAt(g, c, x, g[c.v].clause, c.v);
    RotateAt(g, c, x, g[c.v].clause, c.w);
  }

  // ---------------------------------------------------------------------------
  // B1 and B2': v is derived from v1 and v3 directly

  /** v takes v1 for w, with the resolvent of v1 and v3; w is not yet cleaned up. */
  function Shortcut(g: Graph, c: Context): Graph
    requires Shape(g, c)
  {
    SetClause(Rewire(g, c.v, c.w, c.v1), c.v, Merge(g[c.v1].clause, g[c.v3].clause, T1(g, c)))
  }

  /** The result of B1 and B2': w goes, with all that only served it, once nothing derives from it. */
  ghost predicate CutResult(g: Graph, c: Context, h: Graph)
    requires Shape(g, c)
  {
    var s := Shortcut(g, c);
    if g[c.w].res == {c.v} then Cascade(s, c.w, h) else h == s
  }

  lemma ShortcutAt(g: Graph, c: Context, n: Id)
    requires Shape(g, c) && Distinct(c) && n in g
    ensures Shortcut(g, c).Keys == g.Keys
    ensures var h := Shortcut(g, c)[n];
            && h.ty == g[n].ty
            && (if n == c.v then Antecedents(h, c.v1, c.v3) && h.links.pivot == T1(g, c)
                             && h.clause == Merge(g[c.v1].clause, g[c.v3].clause, T1(g, c))
                else h.links == g[n].links && h.clause == g[n].clause)
            && h.res == (if n == c.w then g[n].res - {c.v} else if n == c.v1 then g[n].res + {c.v} else g[n].res)
  {
    RewireAt(g, c.v, c.w, c.v1, n);
  }

  lemma CutFacts(g: Graph, root: Id, rank: map<Id, nat>, c: Context)
    requires ValidExcept(g, root, rank, {}) && Enabled(g, c) && (c.ty == B1 || c.ty == B2Prime)
    ensures Distinct(c) && Ordered(c, rank)
    ensures var vc := Merge(g[c.v1].clause, g[c.v3].clause, T1(g, c));
            && SortedVars(vc) && Resolves(Lits(vc), C(g, c.v1), C(g, c.v3), T1(g, c)) && Lits(vc) <= C(g, c.v)
    ensures C(g, c.v) != {} && C(g, c.w) != {}
  {
    var s0, s1 := ContextFacts(g, root, rank, c);
    ContextDistinct(g, root, rank, c);
    MentionsSign(C(g, c.v1), T0(g, c), s0);
    CutClauses(C(g, c.v1), C(g, c.v2), C(g, c.v3), C(g, c.w), C(g, c.v), T0(g, c), T1(g, c), s0, s1);
    assert WellFormed(g[c.v1]) && WellFormed(g[c.v3]);
    MergedClause(g, c.v1, c.v3, T1(g, c));
    assert Lit(T1(g, c), s1) in C(g, c.w);
  }

  lemma ShortcutValid(g: Graph, root: Id, rank: map<Id, nat>, c: Context)
    requires Refutation(g, root, rank) && Enabled(g, c) && (c.ty == B1 || c.ty == B2Prime)
    ensures ValidExcept(Shortcut(g, c), root, rank, g[c.v].res)
    ensures Shortcut(g, c)[root].res == {} && Shortcut(g, c)[root].clause == [] && root != c.w
  {
    CutFacts(g, root, rank, c);
    RootOnTop(g, root, rank);
    var h := Shortcut(g, c);
    RewireLinked(g, c.v, c.w, c.v1);
    SameEdgesLinked(Rewire(g, c.v, c.w, c.v1), h);
    ShortcutAt(g, c, root);
    assert c.v in g[c.w].res by { assert IsAnt(g[c.v], c.w); }
    assert root !in {c.v1, c.w, c.v} by {
      assert IsAnt(g[c.w], c.v1);
    }
    hide Shortcut, Linked;
    forall n | n in h
      ensures WellFormed(h[n]) && RankedAt(h, rank, n) && (n !in g[c.v].res ==> WellDerived(h, n))
    {
      ShortcutNode(g, root, rank, c, n);
    }
  }

  lemma ShortcutNode(g: Graph, root: Id, rank: map<Id, nat>, c: Context, n: Id)
    requires Refutation(g, root, rank) && Enabled(g, c) && (c.ty == B1 || c.ty == B2Prime) && n in g
    ensures n in Shortcut(g, c) && WellFormed(Shortcut(g, c)[n]) && RankedAt(Shortcut(g, c), rank, n)
    ensures n !in g[c.v].res ==> WellDerived(Shortcut(g, c), n)
  {
    var h := Shortcut(g, c);
    CutFacts(g, root, rank, c);
    ShortcutAt(g, c, n);
    assert WellFormed(g[n]) && RankedAt(g, rank, n) && WellDerived(g, n);
    if n == c.v {
      ShortcutAt(g, c, c.v1);
      ShortcutAt(g, c, c.v3);
      RankedFrom(h, rank, n, c.v1, c.v3);
      DerivedFrom(h, n, c.v1, c.v3);
    } else if n !in g[c.v].res {
      forall a | IsAnt(g[n], a) && a in g ensures a in h && h[a].clause == g[a].clause {
        assert n in g[a].res;
        ShortcutAt(g, c, a);
      }
      DerivedFrame(g, h, n);
    }
  }

  /** B1 and B2' keep an acyclic linked graph in which only the nodes deriving from v may have to be
      recomputed, and v carries a correctly derived clause that subsumes its old one. */
  lemma CutSubsumes(g: Graph, root: Id, rank: map<Id, nat>, c: Context, h: Graph)
    requires Refutation(g, root, rank) && Enabled(g, c) && (c.ty == B1 || c.ty == B2Prime) && CutResult(g, c, h)
    ensures ValidExcept(h, root, rank, g[c.v].res) && h[root].clause == []
    ensures c.v in h && c.v !in g[c.v].res && Lits(h[c.v].clause) <= C(g, c.v) && WellDerived(h, c.v)
    ensures g[c.v].clause != []
  {
    var s := Shortcut(g, c);
    ShortcutValid(g, root, rank, c);
    CutFacts(g, root, rank, c);
    ShortcutAt(g, c, c.v);
    ShortcutAt(g, c, c.w);
    assert c.v !in g[c.v].res by { assert c.v in g[c.v].res ==> IsAnt(g[c.v], c.v); }
    if g[c.w].res == {c.v} {
      CascadeValid(s, root, rank, g[c.v].res, c.w, h);
      CascadeBelow(s, rank, c.w, h, c.v);
    }
    assert WellDerived(h, c.v);
  }

  // ---------------------------------------------------------------------------
  // B3: v2 takes the place of v

  /** Every node that derives from `a` derives from `b` instead, and `a` is gone. */
  function Replaced(g: Graph, a: Id, b: Id): Graph
    requires a in g
  {
    map n | n in g && n != a ::
      g[n].(links := if IsAnt(g[n], a) then Redirect(g[n].links, a, b) else g[n].links,
            res := g[n].res - {a} + (if n == b then g[a].res else {}))
  }

  /** What that relies on: no node has `a` for both antecedents. */
  ghost predicate Inheritable(g: Graph, a: Id, b: Id) {
    && Linked(g) && a in g && b in g && a != b && !IsAnt(g[a], a)
    && forall r {:trigger g[r]} {:trigger r in g[a].res} :: r in g[a].res ==> r in g && r !in {a, b} && IsAnt(g[r], a) && g[r].links.ant1 != g[r].links.ant2
  }

  lemma ReplacedLinked(g: Graph, a: Id, b: Id)
    requires Inheritable(g, a, b)
    ensures Linked(Replaced(g, a, b))
  {
    var h := Replaced(g, a, b);
    forall m, r {:trigger r in h[m].res} | m in h && r in h[m].res ensures r in h && IsAnt(h[r], m) {
      if r in g[m].res {
        assert IsAnt(g[r], m);
      } else {
        assert r in g[a].res && IsAnt(g[r], a) && m == b;
      }
    }
    forall m, r {:trigger IsAnt(h[r], m)} | r in h && IsAnt(h[r], m) ensures m in h && r in h[m].res {
      if IsAnt(g[r], a) {
        assert r in g[a].res;
        if m != b { assert IsAnt(g[r], m); }
      } else {
        assert IsAnt(g[r], m);
      }
    }
  }

  /** The graph after the clean-up of w and of what only served w. */
  ghost predicate B3Middle(g: Graph, c: Context, mid: Graph)
    requires Shape(g, c)
  {
    if g[c.w].res == {c.v} then Cascade(Replaced(g, c.v, c.v2), c.w, mid) else mid == Replaced(g, c.v, c.v2)
  }

  /** The final graph: v3 goes too once nothing derives from it. applyRuleB3 looks v3 up at
      this point, so it must not have been deleted with w. */
  ghost predicate B3Result(g: Graph, c: Context, mid: Graph, h: Graph)
    requires Shape(g, c)
  {
    && B3Middle(g, c, mid) && c.v3 in mid
    && if mid[c.v3].res == {} then Cascade(mid, c.v3, h) else h == mid
  }

  lemma B3Facts(g: Graph, root: Id, rank: map<Id, nat>, c: Context)
    requires Refutation(g, root, rank) && Enabled(g, c) && c.ty == B3
    ensures Distinct(c) && Ordered(c, rank)
    ensures C(g, c.v2) <= C(g, c.v) && root !in {c.v1, c.v2, c.v3, c.w, c.v}
    ensures g[root].res == {} && g[c.v].clause != []
  {
    var s0, s1 := ContextFacts(g, root, rank, c);
    ContextDistinct(g, root, rank, c);
    RootOnTop(g, root, rank);
    MentionsSign(C(g, c.v1), T0(g, c), s0);
    ReplaceClauses(C(g, c.v1), C(g, c.v2), C(g, c.v3), C(g, c.w), C(g, c.v), T0(g, c), T1(g, c), s0, s1);
    assert IsAnt(g[c.w], c.v1) && IsAnt(g[c.w], c.v2) && IsAnt(g[c.v], c.w) && IsAnt(g[c.v], c.v3);
  }

  /** A node that derives from v does not also derive from v2, whose clause is part of v's. */
  lemma B3Child(g: Graph, root: Id, rank: map<Id, nat>, c: Context, n: Id)
    requires ValidExcept(g, root, rank, {}) && Shape(g, c) && n in g && IsAnt(g[n], c.v)
    requires C(g, c.v2) <= C(g, c.v) && c.v2 != c.v
    ensures !IsAnt(g[n], c.v2) && g[n].links.ant1 != g[n].links.ant2
  {
    assert WellDerived(g, n) && WellFormed(g[c.v]);
    NodeNonTaut(g, c.v);
    var other := if g[n].links.ant1 == c.v then g[n].links.ant2 else g[n].links.ant1;
    assert WellFormed(g[other]);
    NodeNonTaut(g, other);
    var s := PivotSigns(C(g, n), C(g, c.v), C(g, other), g[n].links.pivot);
  }

  lemma B3Ready(g: Graph, root: Id, rank: map<Id, nat>, c: Context)
    requires Refutation(g, root, rank) && Enabled(g, c) && c.ty == B3
    ensures Inheritable(g, c.v, c.v2) && g[c.v].links.Ants?
  {
    B3Facts(g, root, rank, c);
    forall r | r in g[c.v].res ensures r in g && r !in {c.v, c.v2} && IsAnt(g[r], c.v) && g[r].links.ant1 != g[r].links.ant2 {
      assert IsAnt(g[r], c.v) && RankedAt(g, rank, r);
      B3Child(g, root, rank, c, r);
    }
    assert RankedAt(g, rank, c.v);
  }

  lemma ReplacedValid(g: Graph, root: Id, rank: map<Id, nat>, c: Context)
    requires Refutation(g, root, rank) && Enabled(g, c) && c.ty == B3
    ensures ValidExcept(Replaced(g, c.v, c.v2), root, rank, g[c.v].res)
    ensures Replaced(g, c.v, c.v2)[root].res == {} && Replaced(g, c.v, c.v2)[root].clause == []
    ensures Replaced(g, c.v, c.v2).Keys == g.Keys - {c.v}
  {
    B3Facts(g, root, rank, c);
    B3Ready(g, root, rank, c);
    ReplacedLinked(g, c.v, c.v2);
    var h := Replaced(g, c.v, c.v2);
    forall n | n in h
      ensures WellFormed(h[n]) && RankedAt(h, rank, n) && (n !in g[c.v].res ==> WellDerived(h, n))
    {
      assert WellFormed(g[n]) && RankedAt(g, rank, n) && WellDerived(g, n);
      if IsAnt(g[n], c.v) {
        B3Child(g, root, rank, c, n);
        assert n in g[c.v].res;
      }
    }
  }

  /** When v3 is still there after w has been cleaned up: w has another resolvent, or some chain of
      resolvents leads from v3 past w. Otherwise applyRuleB3 looks up a deleted node. */
  ghost predicate V3Survives(g: Graph, c: Context)
    requires Shape(g, c)
  {
    g[c.w].res != {c.v} || exists path :: Escapes(Replaced(g, c.v, c.v2), c.w, c.v3, path)
  }

  lemma V3SurvivesExactly(g: Graph, root: Id, rank: map<Id, nat>, c: Context, mid: Graph)
    requires Refutation(g, root, rank) && Enabled(g, c) && c.ty == B3 && B3Middle(g, c, mid)
    ensures c.v3 in mid <==> V3Survives(g, c)
  {
    ReplacedValid(g, root, rank, c);
    B3Facts(g, root, rank, c);
    var s := Replaced(g, c.v, c.v2);
    if g[c.w].res == {c.v} {
      if c.v3 in mid {
        var top := MaxRank(rank, rank.Keys);
        var path := SurvivorEscapes(s, rank, c.w, mid, c.v3, top);
      } else {
        forall path ensures !Escapes(s, c.w, c.v3, path) {
          if Escapes(s, c.w, c.v3, path) {
            EscapeSurvives(s, c.w, mid, c.v3, path);
          }
        }
      }
    }
  }

  /** B3 puts in v's place a node whose clause subsumes v's; only the nodes that derived from v may
      have to be recomputed. */
  lemma B3Subsumes(g: Graph, root: Id, rank: map<Id, nat>, c: Context, mid: Graph, h: Graph)
    requires Refutation(g, root, rank) && Enabled(g, c) && c.ty == B3 && g[c.v].res != {}
    requires B3Result(g, c, mid, h)
    ensures ValidExcept(h, root, rank, g[c.v].res) && h[root].clause == []
    ensures c.v !in h && c.v2 in h && h[c.v2].clause == g[c.v2].clause && C(g, c.v2) <= C(g, c.v)
    ensures g[c.v].clause != []
  {
    var s := Replaced(g, c.v, c.v2);
    ReplacedValid(g, root, rank, c);
    B3Facts(g, root, rank, c);
    var r :| r in g[c.v].res;
    assert IsAnt(g[r], c.v) && RankedAt(g, rank, r);
    assert r in s[c.v2].res;
    if g[c.w].res == {c.v} {
      CascadeValid(s, root, rank, g[c.v].res, c.w, mid);
      CascadeBelow(s, rank, c.w, mid, r);
      CascadeMember(s, c.w, mid, c.v2);
      assert mid[c.v2] == Without(s[c.v2], s.Keys - mid.Keys);
      assert mid[root] == Without(s[root], s.Keys - mid.Keys);
    }
    assert r in mid && c.v2 in mid && r in mid[c.v2].res && mid[root].res == {};
    if mid[c.v3].res == {} {
      CascadeValid(mid, root, rank, g[c.v].res, c.v3, h);
      CascadeBelow(mid, rank, c.v3, h, r);
      CascadeMember(mid, c.v3, h, c.v2);
      assert h[c.v2] == Without(mid[c.v2], mid.Keys - h.Keys);
    }
  }

  /** Everything the derivation of a node of `s` uses is in `s`. */
  ghost predicate Closed(g: Graph, s: set<Id>) {
    forall n, a {:trigger IsAnt(g[n], a)} :: n in g && n in s && IsAnt(g[n], a) ==> a in s
  }

  /** v3 is still there after the clean-up of w if it is not used to derive v1. */
  lemma UnusedSurvives(g: Graph, root: Id, rank: map<Id, nat>, c: Context, mid: Graph, used: set<Id>)
    requires Refutation(g, root, rank) && Enabled(g, c) && c.ty == B3 && g[c.v].res != {} && B3Middle(g, c, mid)
    requires Closed(g, used) && c.v1 in used && c.v3 !in used
    ensures c.v3 in mid
  {
    ReplacedValid(g, root, rank, c);
    B3Facts(g, root, rank, c);
    if g[c.w].res == {c.v} {
      var top := MaxRank(rank, rank.Keys);
      var s := Replaced(g, c.v, c.v2);
      var r :| r in g[c.v].res;
      assert IsAnt(g[r], c.v) && RankedAt(g, rank, r);
      CascadeBelow(s, rank, c.w, mid, r);
      CascadeMember(s, c.w, mid, c.v2);
      DeletedIsUsed(g, rank, c, mid, used, c.v3, top);
    }
  }

  lemma {:induction false} DeletedIsUsed(g: Graph, rank: map<Id, nat>, c: Context, mid: Graph, used: set<Id>, n: Id, top: nat)
    requires Shape(g, c) && Linked(Replaced(g, c.v, c.v2)) && Ranked(Replaced(g, c.v, c.v2), rank)
    requires Cascade(Replaced(g, c.v, c.v2), c.w, mid) && c.v2 in mid
    requires Closed(g, used) && c.v1 in used
    requires n in Replaced(g, c.v, c.v2) && n != c.w && forall m :: m in Replaced(g, c.v, c.v2) ==> rank[m] <= top
    ensures n in mid || n in used
    decreases top - rank[n]
  {
    var s := Replaced(g, c.v, c.v2);
    CascadeMember(s, c.w, mid, n);
    if n !in mid {
      var r :| r in s[n].res;
      assert IsAnt(s[r], n) && RankedAt(s, rank, r);
      if r != c.w {
        DeletedIsUsed(g, rank, c, mid, used, r, top);
        assert n != c.v2 ==> IsAnt(g[r], n);
      }
    }
  }
}
