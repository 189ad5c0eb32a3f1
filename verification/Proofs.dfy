/** Resolution proofs as values: a finite map from node ids to nodes, what makes it a valid
    refutation, the local contexts, and the rewriting rules as functions on the map. */
module Proofs {
  import opened Clauses

  type Id = nat

  datatype ClauseType = Orig | Learnt | Theory | DerivedClause | Assumption | Split

  predicate IsLeafType(t: ClauseType) {
    t == Orig || t == Theory || t == Assumption || t == Split
  }

  /** The antecedents and the pivot of a node; leaves have none. */
  datatype Links = NoAnts | Ants(pivot: Var, ant1: Id, ant2: Id)

  datatype Node = Node(clause: seq<Lit>, links: Links, res: set<Id>, ty: ClauseType)

  type Graph = map<Id, Node>

  predicate IsAnt(n: Node, a: Id) {
    n.links.Ants? && (n.links.ant1 == a || n.links.ant2 == a)
  }

  /** Replaces one antecedent: the first position if it holds `from`, else the second. */
  function Redirect(k: Links, from: Id, to: Id): Links
    requires k.Ants?
  {
    if k.ant1 == from then k.(ant1 := to) else k.(ant2 := to)
  }

  // ---------------------------------------------------------------------------
  // Validity

  /** Both directions of every edge are recorded. */
  ghost predicate Linked(g: Graph) {
    && (forall a, r {:trigger r in g[a].res} :: a in g && r in g[a].res ==> r in g && IsAnt(g[r], a))
    && (forall a, r {:trigger IsAnt(g[r], a)} :: r in g && IsAnt(g[r], a) ==> a in g && r in g[a].res)
  }

  /** `rank` strictly decreases from node `n` to its antecedents. */
  ghost predicate RankedAt(g: Graph, rank: map<Id, nat>, n: Id)
    requires n in g
  {
    && n in rank
    && (g[n].links.Ants? ==>
          && g[n].links.ant1 in g && g[n].links.ant1 in rank && rank[g[n].links.ant1] < rank[n]
          && g[n].links.ant2 in g && g[n].links.ant2 in rank && rank[g[n].links.ant2] < rank[n])
  }

  /** The graph has no cycle: `rank` decreases along every antecedent edge. */
  ghost predicate Ranked(g: Graph, rank: map<Id, nat>) {
    && g.Keys <= rank.Keys
    && forall n {:trigger RankedAt(g, rank, n)} :: n in g ==> RankedAt(g, rank, n)
  }

  /** `c` is the resolvent of `a` and `b` on `p`, which occurs in them with opposite signs. */
  ghost predicate Resolves(c: set<Lit>, a: set<Lit>, b: set<Lit>, p: Var) {
    && ((Lit(p, false) in a && Lit(p, true) in b) || (Lit(p, true) in a && Lit(p, false) in b))
    && c == Resolvent(a, b, p)
  }

  /** The node's clause follows from its antecedents' clauses. */
  ghost predicate WellDerived(g: Graph, n: Id)
    requires n in g
  {
    g[n].links.Ants? ==>
      && g[n].links.ant1 in g && g[n].links.ant2 in g
      && Resolves(Lits(g[n].clause), Lits(g[g[n].links.ant1].clause), Lits(g[g[n].links.ant2].clause),
                  g[n].links.pivot)
  }

  /** Sorted, without repetition or complementary pair, and typed according to its position. */
  ghost predicate WellFormed(n: Node) {
    SortedVars(n.clause) && (n.links.NoAnts? <==> IsLeafType(n.ty))
  }

  /** Everything a valid graph needs, except that the nodes of `stale` need not follow
      from their antecedents any more. */
  ghost predicate ValidExcept(g: Graph, root: Id, rank: map<Id, nat>, stale: set<Id>) {
    && root in g
    && Linked(g) && Ranked(g, rank)
    && (forall n {:trigger WellFormed(g[n])} :: n in g ==> WellFormed(g[n]))
    && (forall n {:trigger WellDerived(g, n)} :: n in g && n !in stale ==> WellDerived(g, n))
  }

  /** A refutation: a valid graph whose root carries the empty clause. */
  ghost predicate Refutation(g: Graph, root: Id, rank: map<Id, nat>) {
    ValidExcept(g, root, rank, {}) && g[root].clause == []
  }

  // ---------------------------------------------------------------------------
  // Contexts

  datatype RuleType = NoRule | A1 | A1B | A1Prime | A2 | A2B | A2U | B1 | B2 | B2Prime | B3

  predicate IsA1(t: RuleType) { t == A1 || t == A1B }
  predicate IsA2(t: RuleType) { t == A2 || t == A2B || t == A2U }

  /** Five nodes: v derives from w and v3, w derives from v1 and v2. */
  datatype Context = Context(ty: RuleType, v1: Id, v2: Id, w: Id, v3: Id, v: Id)

  predicate Antecedents(n: Node, a: Id, b: Id) {
    n.links.Ants? && ((n.links.ant1 == a && n.links.ant2 == b) || (n.links.ant1 == b && n.links.ant2 == a))
  }

  predicate Shape(g: Graph, c: Context) {
    && c.v1 in g && c.v2 in g && c.w in g && c.v3 in g && c.v in g
    && Antecedents(g[c.v], c.w, c.v3)
    && Antecedents(g[c.w], c.v1, c.v2)
  }

  function T0(g: Graph, c: Context): Var
    requires Shape(g, c)
  {
    g[c.w].links.pivot
  }

  function T1(g: Graph, c: Context): Var
    requires Shape(g, c)
  {
    g[c.v].links.pivot
  }

  /** Some literal of variable `p` is in both clauses. */
  ghost predicate SameSign(a: set<Lit>, b: set<Lit>, p: Var) {
    (Lit(p, false) in a && Lit(p, false) in b) || (Lit(p, true) in a && Lit(p, true) in b)
  }

  /** When each rule applies, in terms of where the two pivots t0 (of w) and t1 (of v) occur in the
      clauses of v1, v2 and v3. `v3OnT0` says that v3 is itself a resolvent on t0, `undo` that it
      resolves v2 and that w serves v only, and `vSize` is the size of v's clause. */
  ghost predicate RuleCondition(ty: RuleType, c1: seq<Lit>, c2: seq<Lit>, c3: seq<Lit>, t0: Var, t1: Var,
                                v3OnT0: bool, undo: bool, vSize: nat) {
    var t1InBoth := Mentions(Lits(c1), t1) && Mentions(Lits(c2), t1);
    var t0InC3 := Mentions(Lits(c3), t0);
    && Mentions(Lits(c1), t1)
    && match ty
       case NoRule => false
       case A1 => t1InBoth && !t0InC3 && !v3OnT0
       case A1B => t1InBoth && !t0InC3 && v3OnT0
       case A1Prime => !t1InBoth && !t0InC3 && undo && v3OnT0
       case A2B => !t1InBoth && !t0InC3 && !undo && v3OnT0
       case A2U => !t1InBoth && !t0InC3 && !v3OnT0 && |c2| == 1
       case A2 => !t1InBoth && !t0InC3 && !v3OnT0 && |c2| != 1
       case B1 => t1InBoth && t0InC3 && SameSign(Lits(c1), Lits(c3), t0)
       case B2 => !t1InBoth && t0InC3 && SameSign(Lits(c1), Lits(c3), t0) && vSize == 1
       case B2Prime => !t1InBoth && t0InC3 && SameSign(Lits(c1), Lits(c3), t0) && vSize != 1
       case B3 => !t1InBoth && t0InC3 && !SameSign(Lits(c1), Lits(c3), t0)
  }

  predicate OnT0(g: Graph, c: Context)
    requires Shape(g, c)
  {
    g[c.v3].links.Ants? && g[c.v3].links.pivot == T0(g, c)
  }

  ghost predicate EnabledAs(g: Graph, c: Context, undo: bool) {
    && Shape(g, c)
    && RuleCondition(c.ty, g[c.v1].clause, g[c.v2].clause, g[c.v3].clause, T0(g, c), T1(g, c), OnT0(g, c), undo, |g[c.v].clause|)
  }

  ghost predicate Enabled(g: Graph, c: Context) {
    EnabledAs(g, c, Shape(g, c) && IsAnt(g[c.v3], c.v2) && g[c.w].res == {c.v})
  }

  /** Where a rule may be applied: where it was found enabled, or, for A2, where w has been duplicated since. */
  ghost predicate Applicable(g: Graph, c: Context) {
    if IsA2(c.ty) then EnabledAs(g, c, false) else Enabled(g, c)
  }

  lemma EnabledApplies(g: Graph, c: Context)
    requires Enabled(g, c)
    ensures Applicable(g, c)
  {
  }
}
