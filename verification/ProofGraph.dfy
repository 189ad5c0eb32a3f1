/** The proof graph as the solver keeps it: nodes with antecedent pointers and resolvent sets,
    rewritten in place. Every method is tied to the value-level rules through `View`. */
module ProofGraphs {
  import opened Clauses
  import opened Proofs
  import opened Rules
  import opened Cuts
  import opened Contexts

  class ProofNode {
    var id: Id
    var clause: seq<Lit>
    var pivot: Var
    var ant1: ProofNode?
    var ant2: ProofNode?
    var resolvents: set<Id>
    var ty: ClauseType

    constructor (id: Id, clause: seq<Lit>, pivot: Var, ant1: ProofNode?, ant2: ProofNode?, ty: ClauseType)
      ensures this.id == id && this.clause == clause && this.pivot == pivot
      ensures this.ant1 == ant1 && this.ant2 == ant2 && this.ty == ty && resolvents == {}
    {
      this.id, this.clause, this.pivot, this.ty := id, clause, pivot, ty;
      this.ant1, this.ant2, this.resolvents := ant1, ant2, {};
    }

    ghost function Links(): Links
      reads this, ant1, ant2
    {
      if ant1 == null || ant2 == null then NoAnts else Ants(pivot, ant1.id, ant2.id)
    }

    ghost function View(): Node
      reads this, ant1, ant2
    {
      Node(clause, Links(), resolvents, ty)
    }
  }

  class ProofGraph {
    var graph: seq<ProofNode?>
    var root: Id
    var leaves: set<Id>

    /** Position `i` is empty or holds a node that knows its position and whose antecedents,
        if any, come as a pair of live nodes. */
    ghost predicate Slot(i: nat)
      requires i < |graph|
      reads this, graph
    {
      graph[i] != null ==>
        && graph[i].id == i
        && (graph[i].ant1 == null <==> graph[i].ant2 == null)
        && (graph[i].ant1 != null ==> graph[i].ant1 in graph && graph[i].ant2 in graph)
    }

    ghost predicate Valid()
      reads this, graph
    {
      && (forall i: nat {:trigger Slot(i)} :: i < |graph| ==> Slot(i))
      && (forall i: nat {:trigger i in leaves} :: i in leaves <==> i < |graph| && graph[i] != null && graph[i].ant1 == null)
    }

    ghost function View(): Graph
      requires Valid()
      reads this, graph
    {
      map i: nat | i < |graph| && graph[i] != null :: (assert Slot(i); graph[i].View())
    }

    lemma NodeAt(n: ProofNode)
      requires Valid() && n in graph
      ensures n.id < |graph| && graph[n.id] == n && n.id in View() && View()[n.id] == n.View()
      ensures n.ant1 != null <==> n.ant2 != null
      ensures n.ant1 != null ==> n.ant1 in graph && n.ant2 in graph
    {
      var i: nat :| i < |graph| && graph[i] == n;
      assert Slot(i);
    }

    lemma ViewBound()
      requires Valid()
      ensures forall i {:trigger View()[i]} :: i in View() ==> i < |graph|
    {
    }

    /** When the fields of one node change, its entry is what changes in the view. */
    twostate lemma OneNode(n: ProofNode)
      requires old(Valid()) && graph == old(graph) && leaves == old(leaves) && n in old(graph)
      requires forall m: ProofNode :: m in graph && m != n ==> unchanged(m)
      requires n.id == old(n.id) && (n.ant1 == null <==> old(n.ant1) == null)
      requires n.ant1 != null <==> n.ant2 != null
      requires n.ant1 != null ==> n.ant1 in graph && n.ant2 in graph
      ensures Valid() && View() == old(View())[n.id := n.View()]
    {
      assert old(View()).Keys == set i: nat | i < |graph| && graph[i] != null;
      assert n in graph;
      forall i: nat | i < |graph| ensures Slot(i) {
        assert old(Slot(i)) && (graph[i] != null ==> graph[i] in graph);
      }
      forall i: nat ensures i in leaves <==> i < |graph| && graph[i] != null && graph[i].ant1 == null {
        assert i in old(leaves) <==> i < |graph| && graph[i] != null && old(graph[i].ant1) == null;
        assert i < |graph| && graph[i] != null ==> graph[i] in graph;
      }
      assert Valid();
      NodeAt(n);
      forall i | i in View() ensures View()[i] == old(View())[n.id := n.View()][i] {
        assert Slot(i) && old(Slot(i));
        assert graph[i] in graph;
      }
    }

    /** The node with a given id. */
    function GetNode(i: Id): (n: ProofNode)
      requires Valid() && i in View()
      reads this, graph
      ensures n in graph && n.id == i && View()[i] == n.View()
      ensures n.ant1 != null <==> n.ant2 != null
    {
      assert Slot(i);
      graph[i]
    }

    /** The node with a given id, or null where it has been deleted. */
    function Find(i: Id): (n: ProofNode?)
      requires Valid()
      reads this, graph
      ensures n == null <==> i !in View()
      ensures n != null ==> n in graph && n.id == i && View()[i] == n.View() && (n.ant1 != null <==> n.ant2 != null)
    {
      if i < |graph| then assert Slot(i); graph[i] else null
    }

    // -------------------------------------------------------------------------
    // Field updates

    method SetRoot(i: Id)
      requires Valid()
      modifies this`root
      ensures Valid() && View() == old(View()) && root == i
    {
      root := i;
      assert forall k: nat {:trigger Slot(k)} :: k < |graph| ==> Slot(k) == old(Slot(k));
    }

    method AddRes(n: ProofNode, r: Id)
      requires Valid() && n in graph
      modifies n`resolvents
      ensures Valid() && n.id in old(View()) && View() == GainRes(old(View()), n.id, r)
    {
      NodeAt(n);
      n.resolvents := n.resolvents + {r};
      OneNode(n);
    }

    method RemRes(n: ProofNode, r: Id)
      requires Valid() && n in graph
      modifies n`resolvents
      ensures Valid() && n.id in old(View()) && View() == LoseRes(old(View()), n.id, r)
    {
      NodeAt(n);
      n.resolvents := n.resolvents - {r};
      OneNode(n);
    }

    /** Puts `to` in the antecedent position that holds `from`. */
    method ReplaceAnt(n: ProofNode, from: ProofNode, to: ProofNode)
      requires Valid() && n in graph && from in graph && to in graph && n.ant1 != null
      modifies n`ant1, n`ant2
      ensures Valid() && n.id in old(View()) && old(View())[n.id].links.Ants?
      ensures View() == Rules.SetAnt(old(View()), n.id, from.id, to.id)
      ensures n.ant1 != null
    {
      NodeAt(n);
      NodeAt(from);
      NodeAt(n.ant1);
      if n.ant1 == from {
        n.ant1 := to;
      } else {
        n.ant2 := to;
      }
      OneNode(n);
    }

    method PutClause(n: ProofNode, clause: seq<Lit>)
      requires Valid() && n in graph
      modifies n`clause
      ensures Valid() && n.id in old(View()) && View() == SetClause(old(View()), n.id, clause)
    {
      NodeAt(n);
      n.clause := clause;
      OneNode(n);
    }

    method PutPivot(n: ProofNode, pivot: Var)
      requires Valid() && n in graph && n.ant1 != null
      modifies n`pivot
      ensures Valid() && n.id in old(View()) && old(View())[n.id].links.Ants?
      ensures View() == SetPivot(old(View()), n.id, pivot) && n.pivot == pivot
    {
      NodeAt(n);
      n.pivot := pivot;
      OneNode(n);
    }

    // -------------------------------------------------------------------------
    // Rules

    /** Node `r` gives up antecedent `from` for `to`, and the resolvent sets follow. */
    method RewireNode(r: ProofNode, from: ProofNode, to: ProofNode)
      requires Valid() && r in graph && from in graph && to in graph && r.ant1 != null
      modifies r`ant1, r`ant2, from`resolvents, to`resolvents
      ensures Valid() && r.ant1 != null
      ensures var g := old(View());
              r.id in g && from.id in g && to.id in g && g[r.id].links.Ants? && View() == Rewire(g, r.id, from.id, to.id)
    {
      NodeAt(r);
      NodeAt(from);
      NodeAt(to);
      hide Valid, View;
      ReplaceAnt(r, from, to);
      RemRes(from, r.id);
      AddRes(to, r.id);
    }

    /** w gets its new clause, and w and v swap their pivots. */
    method Rederive(w: ProofNode, v: ProofNode, wClause: seq<Lit>)
      requires Valid() && w in graph && v in graph && w != v && w.ant1 != null && v.ant1 != null
      modifies w`clause, w`pivot, v`pivot
      ensures Valid()
      ensures var g := old(View());
              && w.id in g && v.id in g && g[w.id].links.Ants? && g[v.id].links.Ants?
              && View() == TradePivots(SetClause(g, w.id, wClause), w.id, v.id)
    {
      NodeAt(w);
      NodeAt(v);
      hide Valid;
      PutClause(w, wClause);
      var aux := w.pivot;
      PutPivot(w, v.pivot);
      PutPivot(v, aux);
    }

    /** The turn the swaps share: w takes `x` for v2 and a new clause, v takes v2 or the new node `z`
        for v3, and the pivots are swapped. */
    method Turn(w: ProofNode, v: ProofNode, v2: ProofNode, x: ProofNode, v3: ProofNode, z: ProofNode, wClause: seq<Lit>)
      requires Valid() && w in graph && v in graph && v2 in graph && x in graph && v3 in graph && z in graph
      requires w != v && w.ant1 != null && v.ant1 != null
      modifies w`ant1, w`ant2, w`clause, w`pivot, v`ant1, v`ant2, v`pivot
      modifies v2`resolvents, x`resolvents, v3`resolvents, z`resolvents
      ensures Valid() && w.ant1 != null && v.ant1 != null
      ensures var g := old(View());
              && w.id in g && v.id in g && v2.id in g && x.id in g && v3.id in g && z.id in g
              && g[w.id].links.Ants? && g[v.id].links.Ants? && w.id != v.id
              && View() == TradePivots(SetClause(Rewire(Rewire(g, w.id, v2.id, x.id), v.id, v3.id, z.id), w.id, wClause), w.id, v.id)
    {
      NodeAt(w);
      NodeAt(v);
      hide *;
      RewireNode(w, v2, x);
      RewireNode(v, v3, z);
      Rederive(w, v, wClause);
    }

    /** A new inner node at the next free id. */
    method PushNode(clause: seq<Lit>, pivot: Var, a: ProofNode, b: ProofNode) returns (y: ProofNode)
      requires Valid() && a in graph && b in graph
      modifies this`graph, a`resolvents, b`resolvents
      ensures Valid() && fresh(y) && graph == old(graph) + [y] && y.id == |old(graph)| && y.id !in old(View())
      ensures y.ant1 != null && a.id in old(View()) && b.id in old(View())
      ensures View() == AddNode(old(View()), y.id, clause, pivot, a.id, b.id)
    {
      ghost var g := View();
      NodeAt(a);
      NodeAt(b);
      assert |graph| !in g;
      y := new ProofNode(|graph|, clause, pivot, a, b, DerivedClause);
      graph := graph + [y];
      Pushed(y);
      hide Valid, View;
      AddRes(a, y.id);
      AddRes(b, y.id);
      AddNodeSteps(g, y.id, clause, pivot, a.id, b.id);
    }

    twostate lemma Pushed(new y: ProofNode)
      requires old(Valid()) && graph == old(graph) + [y] && leaves == old(leaves) && y !in old(graph)
      requires forall m: ProofNode :: m in old(graph) ==> unchanged(m)
      requires y.id == |old(graph)| && y.ant1 != null && y.ant2 != null && y.ant1 in old(graph) && y.ant2 in old(graph)
      ensures Valid() && View() == old(View())[y.id := y.View()]
    {
      forall i: nat | i < |graph| ensures Slot(i) {
        if i < |old(graph)| {
          assert old(Slot(i)) && graph[i] == old(graph)[i] && (graph[i] != null ==> graph[i] in old(graph));
        }
      }
      forall i: nat ensures i in leaves <==> i < |graph| && graph[i] != null && graph[i].ant1 == null {
        assert i in old(leaves) <==> i < |old(graph)| && old(graph)[i] != null && old(graph[i].ant1) == null;
        assert i < |old(graph)| && old(graph)[i] != null ==> old(graph)[i] in old(graph);
      }
      forall i | i in View() ensures View()[i] == old(View())[y.id := y.View()][i] {
        assert Slot(i);
        if i < |old(graph)| { assert old(Slot(i)) && graph[i] in old(graph); }
      }
    }

    method PutType(n: ProofNode, ty: ClauseType)
      requires Valid() && n in graph
      modifies n`ty
      ensures Valid() && n.id in old(View()) && View() == SetType(old(View()), n.id, ty)
    {
      NodeAt(n);
      n.ty := ty;
      OneNode(n);
    }

    /** v gets a copy of w to itself, which takes w's place in the context. */
    method DupliNode(ra: Context) returns (c: Context)
      requires Valid() && Shape(View(), ra) && Distinct(ra) && |View()[ra.w].res| > 1
      modifies this`graph, graph
      ensures Valid() && c == ra.(w := c.w) && c.w == |old(graph)| && c.w !in old(View()) && View() == Duplicated(old(View()), ra, c.w)
      ensures forall m: ProofNode {:trigger m in graph} :: m in graph ==> m in old(graph) || fresh(m)
    {
      hide Valid, View;
      var w, v := GetNode(ra.w), GetNode(ra.v);
      NodeAt(w);
      NodeAt(w.ant1);
      NodeAt(w.ant2);
      var y := PushNode(w.clause, w.pivot, w.ant1, w.ant2);
      PutType(y, w.ty);
      RewireNode(v, w, y);
      c := ra.(w := y.id);
    }

    /** A2: v2 and v3 change places; w is rederived and v keeps its clause. */
    method ApplyRuleA2(c: Context)
      requires Valid() && RuleReady(View(), c)
      modifies graph
      ensures Valid() && View() == ApplyA2(old(View()), c)
    {
      hide Merge, SortedLits, Mentions, Valid, View;
      ghost var g := View();
      var v1, v2, w, v3, v := GetNode(c.v1), GetNode(c.v2), GetNode(c.w), GetNode(c.v3), GetNode(c.v);
      assert w != v && w.ant1 != null && v.ant1 != null;
      var wClause := MergeClauses(v1.clause, v3.clause, v.pivot);
      A2Steps(g, c, wClause);
      assert View() == g;
      hide *;
      Turn(w, v, v2, v3, v3, v2, wClause);
    }

    /** B2: as A2, and v's clause is recomputed from the new w and v2. */
    method ApplyRuleB2(c: Context)
      requires Valid() && RuleReady(View(), c)
      requires var wClause := Merge(View()[c.v1].clause, View()[c.v3].clause, T1(View(), c));
               SortedLits(wClause) && Mentions(Lits(wClause), T0(View(), c))
      requires SortedLits(View()[c.v2].clause) && Mentions(Lits(View()[c.v2].clause), T0(View(), c))
      modifies graph
      ensures Valid() && View() == ApplyB2(old(View()), c)
    {
      hide Merge, SortedLits, Mentions, Valid, View, ApplyA2, ApplyB2, SetClause;
      ghost var g := View();
      ApplyRuleA2(c);
      B2Steps(g, c);
      var v2, w, v := GetNode(c.v2), GetNode(c.w), GetNode(c.v);
      var vClause := MergeClauses(w.clause, v2.clause, v.pivot);
      PutClause(v, vClause);
    }

    /** A1: the new node y resolves v2 and v3, w now resolves v1 and v3, and v the two of them. */
    method ApplyRuleA1(c: Context) returns (id: Id)
      requires Valid() && RuleReady(View(), c)
      requires SortedLits(View()[c.v2].clause) && Mentions(Lits(View()[c.v2].clause), T1(View(), c))
      modifies this`graph, graph
      ensures Valid() && id !in old(View()) && View() == ApplyA1(old(View()), c, id)
      ensures forall m: ProofNode {:trigger m in graph} :: m in graph ==> m in old(graph) || fresh(m)
    {
      hide Merge, SortedLits, Mentions, Valid, View;
      ghost var g := View();
      var v1, v2, w, v3, v := GetNode(c.v1), GetNode(c.v2), GetNode(c.w), GetNode(c.v3), GetNode(c.v);
      assert w != v && w.ant1 != null && v.ant1 != null;
      var wClause := MergeClauses(v1.clause, v3.clause, v.pivot);
      var yClause := MergeClauses(v2.clause, v3.clause, v.pivot);
      assert View() == g;
      hide *;
      var y := PushNode(yClause, v.pivot, v2, v3);
      id := y.id;
      Turn(w, v, v2, v3, v3, y, wClause);
    }

    method PutAnts(n: ProofNode, a: ProofNode, b: ProofNode)
      requires Valid() && n in graph && a in graph && b in graph && n.ant1 != null
      modifies n`ant1, n`ant2
      ensures Valid() && n.id in old(View()) && old(View())[n.id].links.Ants? && n.ant1 != null
      ensures View() == Reorder(old(View()), n.id, a.id, b.id)
    {
      NodeAt(n);
      NodeAt(a);
      NodeAt(b);
      n.ant1, n.ant2 := a, b;
      OneNode(n);
    }

    // -------------------------------------------------------------------------
    // Removing nodes

    /** Takes a node out of the graph; nothing may derive from it any more. */
    method RemoveNode(n: ProofNode)
      requires Valid() && n in graph && forall m {:trigger m in graph} :: m in graph && m != null ==> m.ant1 != n && m.ant2 != n
      modifies this`graph, this`leaves, n`ant1, n`ant2
      ensures Valid() && n.id in old(View()) && View() == old(View()) - {n.id}
      ensures |graph| == |old(graph)| && forall m: ProofNode {:trigger m in graph} :: m in graph ==> m in old(graph)
    {
      NodeAt(n);
      if n.ant1 == null {
        leaves := leaves - {n.id};
      }
      n.ant1, n.ant2 := null, null;
      graph := graph[n.id := null];
      Removed(n);
    }

    twostate lemma Removed(n: ProofNode)
      requires old(Valid()) && n in old(graph) && n.id == old(n.id) && n.id < |old(graph)| && old(graph)[n.id] == n
      requires graph == old(graph)[n.id := null]
      requires leaves == old(leaves) - {n.id} || (leaves == old(leaves) && old(n.ant1) != null)
      requires forall m: ProofNode :: m in old(graph) && m != n ==> unchanged(m) && m.ant1 != n && m.ant2 != n
      ensures Valid() && n.id in old(View()) && View() == old(View()) - {n.id}
    {
      StillThere(n);
      forall i: nat | i < |graph| ensures Slot(i) {
        assert old(Slot(i)) && (graph[i] != null ==> graph[i] == old(graph)[i] && graph[i] in old(graph));
      }
      forall i: nat ensures i in leaves <==> i < |graph| && graph[i] != null && graph[i].ant1 == null {
        assert i in old(leaves) <==> i < |old(graph)| && old(graph)[i] != null && old(graph[i].ant1) == null;
        assert i < |old(graph)| && old(graph)[i] != null ==> old(graph)[i] in old(graph);
      }
      forall i | i in View() ensures i in old(View()) && View()[i] == old(View())[i] {
        assert Slot(i) && old(Slot(i)) && graph[i] in old(graph) && graph[i] != n;
      }
    }

    twostate lemma StillThere(n: ProofNode)
      requires old(Valid()) && n in old(graph) && old(n.id) < |old(graph)|
      requires graph == old(graph)[old(n.id) := null]
      ensures old(graph)[old(n.id)] == n
      ensures forall m: ProofNode {:trigger m in graph} {:trigger m in old(graph)} :: m in graph <==> m in old(graph) && m != n
    {
      var k: nat :| k < |old(graph)| && old(graph)[k] == n;
      assert old(Slot(k));
      forall m: ProofNode ensures m in graph <==> m in old(graph) && m != n {
        if m in old(graph) && m != n {
          var i: nat :| i < |old(graph)| && old(graph)[i] == m;
          assert graph[i] == m;
        }
        if m in graph {
          var i: nat :| i < |graph| && graph[i] == m;
          assert old(graph)[i] == m && old(Slot(i));
        }
      }
    }

    /** Deletes a node nothing derives from, and takes it off its antecedents' resolvents. */
    method DropNode(n: ProofNode)
      requires Valid() && n in graph && n.id in View()
      requires forall m {:trigger View()[m]} :: m in View() ==>
                 !IsAnt(View()[m], n.id) && (n.id in View()[m].res ==> IsAnt(View()[n.id], m))
      modifies this`graph, this`leaves, n, n.ant1, n.ant2
      ensures Valid() && old(n.id) in old(View()) && View() == Drop(old(View()), old(n.id))
      ensures |graph| == |old(graph)| && forall m: ProofNode {:trigger m in graph} :: m in graph ==> m in old(graph)
    {
      ghost var g := View();
      NodeAt(n);
      if n.ant1 != null {
        var a1, a2 := n.ant1, n.ant2;
        RemRes(a1, n.id);
        RemRes(a2, n.id);
      }
      NodeAt(n);
      forall m | m in graph && m != null ensures m.ant1 != n && m.ant2 != n {
        NodeAt(m);
      }
      DropSteps(g, old(n.id));
      RemoveNode(n);
    }

    /** Deletes a node without resolvents and, transitively, what only served it. */
    method RemoveTree(vid: Id) returns (removed: nat)
      requires Valid() && Linked(View()) && vid in View() && View()[vid].res == {}
      modifies this`graph, this`leaves, set n: ProofNode | n in graph
      ensures Valid() && Cascade(old(View()), vid, View())
      ensures removed == |old(View())| - |View()| && |graph| == |old(graph)|
      ensures forall m: ProofNode {:trigger m in graph} :: m in graph ==> m in old(graph)
    {
      hide Valid, View, Linked, Cascading, Cascade, Drop;
      ghost var g := View();
      removed := 0;
      var q := [vid];
      CascadeStart(g, vid);
      while q != []
        invariant Valid() && Cascading(g, vid, View(), q) && |graph| == |old(graph)|
        invariant removed + |View()| == |g|
        invariant forall m: ProofNode {:trigger m in graph} :: m in graph ==> m in old(graph)
        decreases |View()|, |q|
      {
        ghost var h := View();
        var c := q[0];
        var n := Find(c);
        if n != null && n.resolvents == {} {
          CascadeDroppable(g, vid, h, q);
          var rest := q[1..] + AntIds(n);
          CascadeStep(g, vid, h, q, rest);
          NodeAt(n);
          DropNode(n);
          DropSize(h, c);
          removed := removed + 1;
          q := rest;
        } else {
          CascadeSkip(g, vid, h, q);
          q := q[1..];
        }
      }
      CascadeDone(g, vid, View());
    }

    function AntIds(n: ProofNode): (ids: seq<Id>)
      reads n, n.ant1, n.ant2
    {
      if n.ant1 == null || n.ant2 == null then [] else [n.ant1.id, n.ant2.id]
    }

    // -------------------------------------------------------------------------
    // Rules that remove nodes

    /** A1': w takes the other antecedent of v3 for v2 and v takes v2 for v3 ... */
    method Undo(c: Context)
      requires Valid() && UndoReady(View(), c)
      modifies graph
      ensures Valid() && View() == Undone(old(View()), c)
    {
      hide Merge, SortedLits, Mentions, Valid, View, Linked, Undone, Rotate, Reorder, Rewire, TradePivots, SetClause;
      ghost var g := View();
      var v1, v2, w, v3, v := GetNode(c.v1), GetNode(c.v2), GetNode(c.w), GetNode(c.v3), GetNode(c.v);
      assert w != v && w.ant1 != null && v.ant1 != null && v3.ant1 != null;
      var x := OtherAnt(v3, v2);
      var wClause := MergeClauses(v1.clause, x.clause, v.pivot);
      UndoSteps(g, c, wClause);
      Turn(w, v, v2, x, v3, v2, wClause);
      PutAnts(w, v1, x);
      PutAnts(v, w, v2);
    }

    function OtherAnt(n: ProofNode, a: ProofNode): (x: ProofNode)
      requires Valid() && n in graph && a in graph && n.ant1 != null
      reads this, graph
      ensures x in graph && n.id in View() && View()[n.id].links.Ants? && x.id == Other(View()[n.id], a.id)
      ensures x.id in View() && View()[x.id] == x.View()
    {
      NodeAt(n);
      NodeAt(a);
      NodeAt(n.ant1);
      NodeAt(n.ant2);
      if n.ant1 == a then n.ant2 else n.ant1
    }

    /** ... and v3 goes if it has become useless. */
    method ApplyRuleA1Prime(c: Context)
      requires Valid() && UndoReady(View(), c)
      modifies this`graph, this`leaves, graph
      ensures Valid() && View() == ApplyA1Prime(old(View()), c)
      ensures forall m: ProofNode {:trigger m in graph} :: m in graph ==> m in old(graph)
    {
      hide Merge, SortedLits, Mentions, Valid, View, Linked, Undone, Drop;
      UndoneLinked(View(), c);
      Undo(c);
      var v3 := GetNode(c.v3);
      if v3.resolvents == {} {
        NodeAt(v3);
        LinkedAt(View(), c.v3);
        DropNode(v3);
      }
    }

    /** B1 and B2': v is derived from v1 and v3 directly; w goes if that was its last resolvent. */
    method ApplyRuleB1(c: Context)
      requires Valid() && Linked(View()) && RuleReady(View(), c)
      modifies this`graph, this`leaves, graph
      ensures Valid() && CutResult(old(View()), c, View())
      ensures forall m: ProofNode {:trigger m in graph} :: m in graph ==> m in old(graph)
    {
      hide Merge, SortedLits, Mentions, Valid, View, Linked, Shortcut, Rewire, SetClause, Cascade;
      ghost var g := View();
      CutSteps(g, c);
      var v1, w, v3, v := GetNode(c.v1), GetNode(c.w), GetNode(c.v3), GetNode(c.v);
      assert v.ant1 != null;
      var vClause := MergeClauses(v1.clause, v3.clause, v.pivot);
      RewireNode(v, w, v1);
      PutClause(v, vClause);
      if GetNode(c.w).resolvents == {} {
        var removed := RemoveTree(c.w);
      }
    }

    /** The nodes that derive from `a` are made to derive from `b`. */
    method InheritChildren(a: ProofNode, b: ProofNode, ghost g: Graph)
      requires Valid() && a in graph && b in graph && Inheritable(g, a.id, b.id) && View() == Inheriting(g, a.id, b.id, {})
      modifies graph
      ensures Valid() && a.id == old(a.id) && b.id == old(b.id) && View() == Inheriting(g, a.id, b.id, g[a.id].res)
    {
      hide Valid, View, Inheritable, Inheriting;
      ghost var x, y := a.id, b.id;
      InheritFacts(g, x, y);
      NodeAt(a);
      var todo := a.resolvents;
      ghost var done := {};
      while todo != {}
        invariant Valid() && done + todo == g[x].res && done !! todo && View() == Inheriting(g, x, y, done)
        invariant a in graph && b in graph && a.id == x && b.id == y && unchanged(this)
      {
        var r :| r in todo;
        InheritStep(g, x, y, done, r);
        var res := GetNode(r);
        ReplaceAnt(res, a, b);
        AddRes(b, r);
        todo := todo - {r};
        done := done + {r};
      }
      assert done == g[x].res;
    }

    /** `b` takes the place of `a`, which is deleted. */
    method ReplaceNode(a: ProofNode, b: ProofNode)
      requires Valid() && a in graph && b in graph && a.ant1 != null && Inheritable(View(), a.id, b.id)
      modifies this`graph, this`leaves, graph
      ensures Valid() && old(a.id) in old(View()) && View() == Replaced(old(View()), old(a.id), old(b.id))
      ensures forall m: ProofNode {:trigger m in graph} :: m in graph ==> m in old(graph)
    {
      hide Valid, View, Inheriting, Linked;
      ghost var g := View();
      ghost var x, y := a.id, b.id;
      NodeAt(a);
      RemRes(a.ant1, a.id);
      RemRes(a.ant2, a.id);
      InheritStart(g, x, y);
      InheritChildren(a, b, g);
      InheritDone(g, x, y);
      InheritFacts(g, x, y);
      forall m | m in graph && m != null ensures m.ant1 != a && m.ant2 != a {
        NodeAt(m);
      }
      RemoveNode(a);
    }

    /** B3: v2 takes the place of v; w and v3 go with everything that has become useless. */
    method ApplyRuleB3(c: Context, ghost root': Id, ghost rank: map<Id, nat>) returns (ghost mid: Graph)
      requires Valid() && Refutation(View(), root', rank) && Enabled(View(), c) && c.ty == B3
      requires V3Survives(View(), c)
      modifies this`graph, this`leaves, graph
      ensures Valid() && B3Result(old(View()), c, mid, View())
      ensures forall m: ProofNode {:trigger m in graph} :: m in graph ==> m in old(graph)
    {
      hide Valid, View, Refutation, Enabled, Inheritable, Cascade, V3Survives, ValidExcept;
      ghost var g := View();
      B3Ready(g, root', rank, c);
      B3Linked(g, root', rank, c);
      var v, v2 := GetNode(c.v), GetNode(c.v2);
      ReplaceNode(v, v2);
      if GetNode(c.w).resolvents == {} {
        var removed := RemoveTree(c.w);
      }
      mid := View();
      B3MiddleLinked(g, root', rank, c, mid);
      if GetNode(c.v3).resolvents == {} {
        var removed := RemoveTree(c.v3);
      }
    }

    // -------------------------------------------------------------------------
    // Recognising and applying rules

    /** The rule that applies at v3 and v, with its five nodes; none if the other antecedent is a leaf. */
    method GetRuleContext(idv3: Id, idv: Id, ghost rank: map<Id, nat>) returns (ra: Context)
      requires Valid() && ValidExcept(View(), root, rank, {})
      requires idv3 in View() && idv in View() && IsAnt(View()[idv], idv3)
      ensures Other(View()[idv], idv3) in View()
      ensures ra.ty == NoRule <==> View()[Other(View()[idv], idv3)].links.NoAnts?
      ensures ra.ty != NoRule ==> Enabled(View(), ra) && ra.v == idv && ra.v3 == idv3
      ensures ContextOf(View(), idv3, idv, ra)
    {
      hide Valid, View, ValidExcept, Mentions, RuleCondition, Linked, Ranked;
      ghost var g := View();
      var v3, v := GetNode(idv3), GetNode(idv);
      AntsDiffer(g, root, rank, idv, idv3);
      var w := OtherAnt(v, v3);
      NodeAt(w);
      if w.ant1 == null {
        return Context(NoRule, 0, 0, 0, 0, 0);
      }
      var a1, a2 := w.ant1, w.ant2;
      NodeAt(a1);
      NodeAt(a2);
      var v3OnT0 := v3.ant1 != null && v3.pivot == w.pivot;
      var a1InV3, a2InV3 := HasAnt(v3, a1), HasAnt(v3, a2);
      ResolvableAt(g, root, rank, idv, w.id);
      var ty, first := Classify(a1.clause, a2.clause, v3.clause, w.pivot, v.pivot, v3OnT0, a1InV3, a2InV3,
                                |w.resolvents| == 1, |v.clause|);
      ra := if first then Context(ty, a1.id, a2.id, w.id, idv3, idv) else Context(ty, a2.id, a1.id, w.id, idv3, idv);
      SingleResolvent(g, root, rank, w.id, idv);
    }

    function HasAnt(n: ProofNode, a: ProofNode): (b: bool)
      requires Valid() && n in graph && a in graph
      reads this, graph
      ensures n.id in View() && a.id in View() && (b <==> IsAnt(View()[n.id], a.id))
    {
      NodeAt(n);
      NodeAt(a);
      if n.ant1 == null then false else (NodeAt(n.ant1); NodeAt(n.ant2); n.ant1 == a || n.ant2 == a)
    }

    /** Applies the rule of a context. Swaps keep a valid refutation and v's clause; the other rules
        leave in v's place a node whose clause subsumes v's, and only what derived from v may have to
        be recomputed. */
    method RuleApply(ra: Context, ghost rank: map<Id, nat>) returns (claid: Id, ghost rank': map<Id, nat>)
      requires Valid() && Refutation(View(), root, rank) && Applicable(View(), ra)
      requires IsA1(ra.ty) || IsA2(ra.ty) || ra.ty == B2 ==> View()[ra.w].res == {ra.v}
      requires ra.ty == B3 ==> View()[ra.v].res != {} && V3Survives(View(), ra)
      modifies this`graph, this`leaves, graph
      ensures Valid() && root == old(root)
      ensures Outcome(old(View()), root, ra, View(), rank') && Applied(old(View()), ra, claid, View())
      ensures forall m: ProofNode {:trigger m in graph} :: m in graph ==> m in old(graph) || fresh(m)
    {
      hide Valid, View, Enabled, Applicable, ValidExcept, RuleReady, V3Survives, Linked, Outcome, ApplyA1, ApplyA2, ApplyB2, ApplyA1Prime, CutResult, B3Result, UndoReady, SortedLits, Mentions, T0, T1, Merge;
      ghost var g := View();
      claid := 0;
      rank' := rank;
      EnabledIsReady(g, root, rank, ra);
      match ra.ty {
        case A1 | A1B =>
          A1Ready(g, root, rank, ra);
          claid := ApplyRuleA1(ra);
          rank' := A1Outcome(g, root, rank, ra, claid);
        case A1Prime =>
          A1PrimeReady(g, root, rank, ra);
          ApplyRuleA1Prime(ra);
          rank' := A1PrimeOutcome(g, root, rank, ra);
        case A2 | A2B | A2U =>
          ApplyRuleA2(ra);
          rank' := A2Outcome(g, root, rank, ra);
        case B1 | B2Prime =>
          ApplyRuleB1(ra);
          CutOutcome(g, root, rank, ra, View());
        case B2 =>
          B2Ready(g, root, rank, ra);
          ApplyRuleB2(ra);
          rank' := B2Outcome(g, root, rank, ra);
        case B3 =>
          ghost var mid := ApplyRuleB3(ra, root, rank);
          B3Outcome(g, root, rank, ra, mid, View());
      }
    }
  }

  /** What the rules assert before they change anything: the five nodes are in place and distinct,
      and v1 and v3 can be merged on v's pivot. */
  ghost predicate RuleReady(g: Graph, c: Context) {
    && Shape(g, c) && Distinct(c)
    && SortedLits(g[c.v1].clause) && SortedLits(g[c.v3].clause)
    && Mentions(Lits(g[c.v1].clause), T1(g, c)) && Mentions(Lits(g[c.v3].clause), T1(g, c))
  }

  lemma EnabledIsReady(g: Graph, root: Id, rank: map<Id, nat>, c: Context)
    requires ValidExcept(g, root, rank, {}) && Applicable(g, c)
    ensures RuleReady(g, c) && Linked(g) && c.ty != NoRule
    ensures !IsA2(c.ty) ==> Enabled(g, c)
  {
    ContextDistinct(g, root, rank, c);
    assert WellFormed(g[c.v1]) && WellFormed(g[c.v3]) && WellDerived(g, c.v);
    SortedVarsFacts(g[c.v1].clause);
    SortedVarsFacts(g[c.v3].clause);
  }

  /** The graph a rule makes; `y` is the node that A1 adds. */
  ghost predicate Applied(g: Graph, c: Context, y: Id, h: Graph)
    requires Shape(g, c)
  {
    match c.ty
    case NoRule => false
    case A1 | A1B => y !in g && h == ApplyA1(g, c, y)
    case A1Prime => g[c.v3].links.Ants? && Other(g[c.v3], c.v2) in g && h == ApplyA1Prime(g, c)
    case A2 | A2B | A2U => h == ApplyA2(g, c)
    case B1 | B2Prime => CutResult(g, c, h)
    case B2 => h == ApplyB2(g, c)
    case B3 => exists mid {:trigger B3Result(g, c, mid, h)} :: B3Result(g, c, mid, h)
  }

  /** The node that stands for v after a rule: v itself, or v2 after B3. */
  function Heir(c: Context): Id {
    if c.ty == B3 then c.v2 else c.v
  }

  /** What is left by a rule: after a swap a refutation with v unchanged, otherwise a graph that is
      valid but for the nodes that derived from v, with a well derived, shorter clause in v's place. */
  ghost predicate Outcome(g: Graph, root: Id, c: Context, h: Graph, rank: map<Id, nat>) {
    && c.v in g && Heir(c) in h && WellDerived(h, Heir(c))
    && if IsA1(c.ty) || IsA2(c.ty) || c.ty == A1Prime
       then Refutation(h, root, rank) && h[c.v].clause == g[c.v].clause
       else && ValidExcept(h, root, rank, g[c.v].res) && h[root].clause == []
            && Lits(h[Heir(c)].clause) <= Lits(g[c.v].clause) && g[c.v].clause != []
            && (c.ty == B3 ==> c.v !in h)
  }

  lemma A1Ready(g: Graph, root: Id, rank: map<Id, nat>, c: Context)
    requires Refutation(g, root, rank) && Enabled(g, c) && IsA1(c.ty)
    ensures RuleReady(g, c) && SortedLits(g[c.v2].clause) && Mentions(Lits(g[c.v2].clause), T1(g, c))
  {
    EnabledIsReady(g, root, rank, c);
    assert WellFormed(g[c.v2]);
    SortedVarsFacts(g[c.v2].clause);
  }

  lemma B2Ready(g: Graph, root: Id, rank: map<Id, nat>, c: Context)
    requires Refutation(g, root, rank) && Enabled(g, c) && c.ty == B2
    ensures RuleReady(g, c)
    ensures var wClause := Merge(g[c.v1].clause, g[c.v3].clause, T1(g, c));
            SortedLits(wClause) && Mentions(Lits(wClause), T0(g, c))
    ensures SortedLits(g[c.v2].clause) && Mentions(Lits(g[c.v2].clause), T0(g, c))
  {
    EnabledIsReady(g, root, rank, c);
    B2Clauses(g, root, rank, c);
    assert WellFormed(g[c.v2]) && WellDerived(g, c.w);
    SortedVarsFacts(g[c.v2].clause);
    MergeIsResolvent(g[c.v1].clause, g[c.v3].clause, T1(g, c));
  }

  lemma A1Outcome(g: Graph, root: Id, rank: map<Id, nat>, c: Context, y: Id) returns (rank': map<Id, nat>)
    requires Refutation(g, root, rank) && Enabled(g, c) && IsA1(c.ty) && g[c.w].res == {c.v} && y !in g
    ensures Outcome(g, root, c, ApplyA1(g, c, y), rank')
  {
    A1Preserves(g, root, rank, c, y);
    rank' := A1Rank(g, c, rank, y);
    assert WellDerived(ApplyA1(g, c, y), c.v);
  }

  lemma A1PrimeOutcome(g: Graph, root: Id, rank: map<Id, nat>, c: Context) returns (rank': map<Id, nat>)
    requires Refutation(g, root, rank) && Enabled(g, c) && c.ty == A1Prime
    ensures Other(g[c.v3], c.v2) in g && Outcome(g, root, c, ApplyA1Prime(g, c), rank')
  {
    A1PrimePreserves(g, root, rank, c);
    rank' := SwapRank(g, c, rank);
    assert WellDerived(ApplyA1Prime(g, c), c.v);
  }

  lemma A2Outcome(g: Graph, root: Id, rank: map<Id, nat>, c: Context) returns (rank': map<Id, nat>)
    requires Refutation(g, root, rank) && Applicable(g, c) && IsA2(c.ty) && g[c.w].res == {c.v}
    ensures Outcome(g, root, c, ApplyA2(g, c), rank')
  {
    A2Preserves(g, root, rank, c);
    rank' := SwapRank(g, c, rank);
    assert WellDerived(ApplyA2(g, c), c.v);
  }

  lemma CutOutcome(g: Graph, root: Id, rank: map<Id, nat>, c: Context, h: Graph)
    requires Refutation(g, root, rank) && Enabled(g, c) && (c.ty == B1 || c.ty == B2Prime) && CutResult(g, c, h)
    ensures Outcome(g, root, c, h, rank)
  {
    CutSubsumes(g, root, rank, c, h);
  }

  lemma B2Outcome(g: Graph, root: Id, rank: map<Id, nat>, c: Context) returns (rank': map<Id, nat>)
    requires Refutation(g, root, rank) && Enabled(g, c) && c.ty == B2 && g[c.w].res == {c.v}
    ensures Outcome(g, root, c, ApplyB2(g, c), rank')
  {
    hide Rotate, Merge;
    B2Subsumes(g, root, rank, c);
    rank' := SwapRank(g, c, rank);
  }

  lemma B3Outcome(g: Graph, root: Id, rank: map<Id, nat>, c: Context, mid: Graph, h: Graph)
    requires Refutation(g, root, rank) && Enabled(g, c) && c.ty == B3 && g[c.v].res != {} && B3Result(g, c, mid, h)
    ensures Outcome(g, root, c, h, rank)
  {
    B3Subsumes(g, root, rank, c, mid, h);
    B3Facts(g, root, rank, c);
    assert c.v2 !in g[c.v].res by {
      assert c.v2 in g[c.v].res ==> IsAnt(g[c.v2], c.v) && RankedAt(g, rank, c.v2);
    }
    assert WellDerived(h, c.v2);
  }

  // The steps the methods take, put together, are the rules.

  lemma A2Steps(g: Graph, c: Context, wClause: seq<Lit>)
    requires Shape(g, c) && Distinct(c)
    requires wClause == Merge(g[c.v1].clause, g[c.v3].clause, T1(g, c))
    ensures TradePivots(SetClause(Rewire(Rewire(g, c.w, c.v2, c.v3), c.v, c.v3, c.v2), c.w, wClause), c.w, c.v)
            == ApplyA2(g, c)
  {
    hide Merge;
    var h := TradePivots(SetClause(Rewire(Rewire(g, c.w, c.v2, c.v3), c.v, c.v3, c.v2), c.w, wClause), c.w, c.v);
    assert h[c.v].clause == g[c.v].clause;
    assert SetClause(h, c.v, h[c.v].clause) == h;
  }

  lemma UndoSteps(g: Graph, c: Context, wClause: seq<Lit>)
    requires UndoReady(g, c) && wClause == Merge(g[c.v1].clause, g[Other(g[c.v3], c.v2)].clause, T1(g, c))
    ensures var x := Other(g[c.v3], c.v2);
            var turned := TradePivots(SetClause(Rewire(Rewire(g, c.w, c.v2, x), c.v, c.v3, c.v2), c.w, wClause), c.w, c.v);
            && turned == Rotate(g, c, x, g[c.v].clause)
            && Undone(g, c) == Reorder(Reorder(turned, c.w, c.v1, x), c.v, c.w, c.v2)
  {
    hide Merge, Linked, SortedLits, Mentions;
    var x := Other(g[c.v3], c.v2);
    var turned := TradePivots(SetClause(Rewire(Rewire(g, c.w, c.v2, x), c.v, c.v3, c.v2), c.w, wClause), c.w, c.v);
    assert turned[c.v].clause == g[c.v].clause;
    assert SetClause(turned, c.v, turned[c.v].clause) == turned;
  }

  /** In a linked graph a node without resolvents can be dropped. */
  lemma LinkedAt(g: Graph, d: Id)
    requires Linked(g) && d in g && g[d].res == {}
    ensures forall m {:trigger g[m]} :: m in g ==> !IsAnt(g[m], d) && (d in g[m].res ==> IsAnt(g[d], m))
  {
  }

  lemma CutSteps(g: Graph, c: Context)
    requires Linked(g) && Shape(g, c) && Distinct(c)
    ensures Linked(Shortcut(g, c)) && c.w in Shortcut(g, c)
    ensures Shortcut(g, c) == SetClause(Rewire(g, c.v, c.w, c.v1), c.v, Merge(g[c.v1].clause, g[c.v3].clause, T1(g, c)))
    ensures Shortcut(g, c)[c.w].res == {} <==> g[c.w].res == {c.v}
  {
    hide Merge;
    RewireLinked(g, c.v, c.w, c.v1);
    SameEdgesLinked(Rewire(g, c.v, c.w, c.v1), Shortcut(g, c));
    ShortcutAt(g, c, c.w);
    assert IsAnt(g[c.v], c.w);
  }

  /** Node `a` off its antecedents, and the children in `done` moved from `a` to `b`. */
  ghost function Inheriting(g: Graph, a: Id, b: Id, done: set<Id>): Graph
    requires a in g
  {
    map n | n in g ::
      g[n].(links := if n in done && g[n].links.Ants? then Redirect(g[n].links, a, b) else g[n].links,
            res := (if IsAnt(g[a], n) then g[n].res - {a} else g[n].res) + (if n == b then done else {}))
  }

  lemma AntsDiffer(g: Graph, root: Id, rank: map<Id, nat>, v: Id, v3: Id)
    requires ValidExcept(g, root, rank, {}) && v in g && IsAnt(g[v], v3)
    ensures Other(g[v], v3) in g && g[v].links.ant1 != g[v].links.ant2 && Other(g[v], v3) != v3
    ensures Antecedents(g[v], Other(g[v], v3), v3)
  {
    assert WellDerived(g, v) && WellFormed(g[g[v].links.ant1]) && WellFormed(g[g[v].links.ant2]);
    NodeNonTaut(g, g[v].links.ant1);
    NodeNonTaut(g, g[v].links.ant2);
    var s := PivotSigns(C(g, v), C(g, g[v].links.ant1), C(g, g[v].links.ant2), g[v].links.pivot);
  }

  lemma ResolvableAt(g: Graph, root: Id, rank: map<Id, nat>, v: Id, w: Id)
    requires ValidExcept(g, root, rank, {}) && v in g && w in g && IsAnt(g[v], w) && g[w].links.Ants?
    ensures g[w].links.ant1 in g && g[w].links.ant2 in g && Other(g[v], w) in g
    ensures Resolvable(g[g[w].links.ant1].clause, g[g[w].links.ant2].clause, g[Other(g[v], w)].clause,
                       g[w].links.pivot, g[v].links.pivot)
  {
    assert WellDerived(g, v) && WellDerived(g, w);
    assert WellFormed(g[g[w].links.ant1]) && WellFormed(g[g[w].links.ant2]) && WellFormed(g[Other(g[v], w)]);
  }

  lemma SingleResolvent(g: Graph, root: Id, rank: map<Id, nat>, w: Id, v: Id)
    requires ValidExcept(g, root, rank, {}) && v in g && w in g && IsAnt(g[v], w)
    ensures |g[w].res| == 1 <==> g[w].res == {v}
  {
    assert v in g[w].res;
    if |g[w].res| == 1 {
      assert |g[w].res - {v}| == 0;
      assert g[w].res == {v} + (g[w].res - {v});
    }
  }

  lemma InheritFacts(g: Graph, a: Id, b: Id)
    requires Inheritable(g, a, b)
    ensures a in g && b in g && forall done :: Inheriting(g, a, b, done).Keys == g.Keys && Inheriting(g, a, b, done)[a].res == g[a].res
  {
  }

  lemma B3Linked(g: Graph, root: Id, rank: map<Id, nat>, c: Context)
    requires Refutation(g, root, rank) && Enabled(g, c) && c.ty == B3
    ensures var s := Replaced(g, c.v, c.v2); Linked(s) && c.w in s && (s[c.w].res == {} <==> g[c.w].res == {c.v})
  {
    ReplacedValid(g, root, rank, c);
    B3Facts(g, root, rank, c);
    assert IsAnt(g[c.v], c.w);
  }

  lemma B3MiddleLinked(g: Graph, root: Id, rank: map<Id, nat>, c: Context, mid: Graph)
    requires Refutation(g, root, rank) && Enabled(g, c) && c.ty == B3 && V3Survives(g, c) && B3Middle(g, c, mid)
    ensures Linked(mid) && c.v3 in mid
  {
    V3SurvivesExactly(g, root, rank, c, mid);
    ReplacedValid(g, root, rank, c);
    B3Facts(g, root, rank, c);
    if g[c.w].res == {c.v} {
      CascadeValid(Replaced(g, c.v, c.v2), root, rank, g[c.v].res, c.w, mid);
    }
  }

  lemma InheritStart(g: Graph, a: Id, b: Id)
    requires a in g && g[a].links.Ants? && g[a].links.ant1 in g && g[a].links.ant2 in g
    ensures LoseRes(LoseRes(g, g[a].links.ant1, a), g[a].links.ant2, a) == Inheriting(g, a, b, {})
  {
    var h, k := LoseRes(LoseRes(g, g[a].links.ant1, a), g[a].links.ant2, a), Inheriting(g, a, b, {});
    forall n | n in g ensures h[n] == k[n] {
    }
    GraphsEqual(h, k);
  }

  lemma GraphsEqual(a: Graph, b: Graph)
    requires a.Keys == b.Keys && forall n {:trigger a[n]} {:trigger b[n]} :: n in a ==> a[n] == b[n]
    ensures a == b
  {
  }

  lemma InheritStep(g: Graph, a: Id, b: Id, done: set<Id>, r: Id)
    requires Inheritable(g, a, b) && r in g[a].res && r !in done
    ensures r in Inheriting(g, a, b, done) && Inheriting(g, a, b, done)[r].links.Ants?
    ensures r != b && b in Inheriting(g, a, b, done)
    ensures GainRes(SetAnt(Inheriting(g, a, b, done), r, a, b), b, r) == Inheriting(g, a, b, done + {r})
  {
    hide Linked;
    assert r in g && g[r].links.Ants? && r !in {a, b};
    InheritStepMaps(g, a, b, done, r);
  }

  lemma InheritStepMaps(g: Graph, a: Id, b: Id, done: set<Id>, r: Id)
    requires a in g && b in g && a != b && r in g && r != b && g[r].links.Ants? && r !in done
    ensures r in Inheriting(g, a, b, done) && Inheriting(g, a, b, done)[r].links.Ants? && b in Inheriting(g, a, b, done)
    ensures GainRes(SetAnt(Inheriting(g, a, b, done), r, a, b), b, r) == Inheriting(g, a, b, done + {r})
  {
    hide Redirect, Inheriting;
    InheritingKeys(g, a, b, done);
    InheritingKeys(g, a, b, done + {r});
    InheritingLinks(g, a, b, done, r);
    var h, k := GainRes(SetAnt(Inheriting(g, a, b, done), r, a, b), b, r), Inheriting(g, a, b, done + {r});
    forall n | n in g ensures h[n] == k[n] {
      InheritStepAt(g, a, b, done, r, n);
    }
    GraphsEqual(h, k);
  }

  lemma InheritingKeys(g: Graph, a: Id, b: Id, done: set<Id>)
    requires a in g
    ensures Inheriting(g, a, b, done).Keys == g.Keys
  {
  }

  lemma InheritingLinks(g: Graph, a: Id, b: Id, done: set<Id>, r: Id)
    requires a in g && r in g && g[r].links.Ants? && r !in done
    ensures r in Inheriting(g, a, b, done) && Inheriting(g, a, b, done)[r].links.Ants?
  {
  }

  lemma InheritStepAt(g: Graph, a: Id, b: Id, done: set<Id>, r: Id, n: Id)
    requires a in g && b in g && a != b && r in g && r != b && g[r].links.Ants? && r !in done && n in g
    ensures r in Inheriting(g, a, b, done) && Inheriting(g, a, b, done)[r].links.Ants? && b in Inheriting(g, a, b, done)
    ensures GainRes(SetAnt(Inheriting(g, a, b, done), r, a, b), b, r)[n] == Inheriting(g, a, b, done + {r})[n]
  {
    var p, q := Inheriting(g, a, b, done), Inheriting(g, a, b, done + {r});
    if n == b {
      assert p[n].res + {r} == q[n].res;
    }
  }

  lemma InheritDone(g: Graph, a: Id, b: Id)
    requires Inheritable(g, a, b)
    ensures Inheriting(g, a, b, g[a].res) - {a} == Replaced(g, a, b)
    ensures forall m {:trigger Inheriting(g, a, b, g[a].res)[m]} :: m in Inheriting(g, a, b, g[a].res) ==>
              !IsAnt(Inheriting(g, a, b, g[a].res)[m], a)
  {
    hide Linked, Replaced, IsAnt, Redirect;
    var h := Inheriting(g, a, b, g[a].res);
    var k, e := h - {a}, Replaced(g, a, b);
    ReplacedKeys(g, a, b);
    forall n | n in g ensures !IsAnt(h[n], a) && (n != a ==> h[n] == e[n]) {
      InheritedAt(g, a, b, n);
    }
    forall n | n in k ensures k[n] == e[n] {
      assert k[n] == h[n];
    }
    GraphsEqual(k, e);
  }

  lemma ReplacedKeys(g: Graph, a: Id, b: Id)
    requires Inheritable(g, a, b)
    ensures Replaced(g, a, b).Keys == g.Keys - {a}
  {
  }

  lemma InheritedAt(g: Graph, a: Id, b: Id, n: Id)
    requires Inheritable(g, a, b) && n in g
    ensures var h := Inheriting(g, a, b, g[a].res); !IsAnt(h[n], a) && (n != a ==> h[n] == Replaced(g, a, b)[n])
  {
    assert IsAnt(g[n], a) <==> n in g[a].res;
    assert a in g[n].res ==> IsAnt(g[a], n);
  }

  lemma B2Steps(g: Graph, c: Context)
    requires Shape(g, c) && Distinct(c)
    ensures var h := ApplyA2(g, c);
            && c.v2 in h && h[c.v2].clause == g[c.v2].clause && c.v in h && h[c.v].links.Ants? && h[c.v].links.pivot == T0(g, c)
            && c.w in h && h[c.w].clause == Merge(g[c.v1].clause, g[c.v3].clause, T1(g, c))
            && ApplyB2(g, c) == SetClause(h, c.v, Merge(h[c.w].clause, g[c.v2].clause, T0(g, c)))
  {
    hide Merge;
    RotateFields(g, c, c.v3, g[c.v].clause, c.w);
    RotateFields(g, c, c.v3, g[c.v].clause, c.v);
    RotateFields(g, c, c.v3, g[c.v].clause, c.v2);
  }

  lemma DropSteps(g: Graph, d: Id)
    requires d in g
    requires forall m {:trigger g[m]} :: m in g && d in g[m].res ==> IsAnt(g[d], m)
    ensures g[d].links.NoAnts? ==> Drop(g, d) == g - {d}
    ensures g[d].links.Ants? && g[d].links.ant1 in g && g[d].links.ant2 in g ==>
              Drop(g, d) == LoseRes(LoseRes(g, g[d].links.ant1, d), g[d].links.ant2, d) - {d}
  {
    if g[d].links.NoAnts? {
      forall m | m in Drop(g, d) ensures Drop(g, d)[m] == (g - {d})[m] {
        assert g[m].res - {d} == g[m].res;
      }
    } else if g[d].links.ant1 in g && g[d].links.ant2 in g {
      var h := LoseRes(LoseRes(g, g[d].links.ant1, d), g[d].links.ant2, d) - {d};
      forall m | m in Drop(g, d) ensures Drop(g, d)[m] == h[m] {
        assert !IsAnt(g[d], m) ==> g[m].res - {d} == g[m].res;
      }
    }
  }

  lemma AddNodeSteps(g: Graph, y: Id, clause: seq<Lit>, pivot: Var, a: Id, b: Id)
    requires a in g && b in g && y !in g
    ensures GainRes(GainRes(g[y := Node(clause, Ants(pivot, a, b), {}, DerivedClause)], a, y), b, y)
            == AddNode(g, y, clause, pivot, a, b)
  {
  }

  lemma CascadeStart(g: Graph, first: Id)
    requires first in g && g[first].res == {}
    ensures Cascading(g, first, g, [first])
  {
  }

  /** The front of the queue can be dropped: no live node derives from it. */
  lemma CascadeDroppable(g: Graph, first: Id, h: Graph, q: seq<Id>)
    requires Linked(g) && Cascading(g, first, h, q) && q != [] && q[0] in h && h[q[0]].res == {}
    ensures h[q[0]].links == g[q[0]].links
    ensures forall m {:trigger h[m]} :: m in h ==> !IsAnt(h[m], q[0]) && (q[0] in h[m].res ==> IsAnt(h[q[0]], m))
  {
    var c := q[0];
    assert h[c] == Without(g[c], g.Keys - h.Keys);
    var served := g[c].res;
    assert served - (g.Keys - h.Keys) == {};
    forall m | m in h ensures !IsAnt(h[m], c) && (c in h[m].res ==> IsAnt(h[c], m)) {
      assert h[m] == Without(g[m], g.Keys - h.Keys);
      assert m !in served - (g.Keys - h.Keys);
      assert IsAnt(g[m], c) ==> m in served;
      if c in h[m].res {
        assert c in g[m].res;
      }
    }
  }

  lemma DropSize(h: Graph, c: Id)
    requires c in h
    ensures |Drop(h, c)| + 1 == |h|
  {
    assert Drop(h, c).Keys == h.Keys - {c};
  }
}
