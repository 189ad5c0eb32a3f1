/** The search as an object: one call per start node, and the loops it returns. */
module TarjanRuns {
  import opened Digraphs
  import opened Tarjan

  /** Some other node is in the same component. */
  ghost predicate OnCycle(g: Digraph, v: Node) {
    exists y: Node {:trigger Mutual(g, v, y)} :: y != v && Mutual(g, v, y)
  }

  ghost function CompleteNodes(g: Digraph, s: Search): set<Node>
    requires Sized(g, s)
  {
    set v | 0 <= v < |g| && s.status[v] == Complete
  }

  /** The loops are components of more than one node; each node completed since `before` that is on a
      cycle is in one of them, and in no other. */
  ghost predicate Found(g: Digraph, s: Search, before: set<Node>, loops: seq<seq<Node>>)
    requires Sized(g, s)
  {
    && (forall l {:trigger l in loops} :: l in loops ==> Component(g, l) && |l| > 1 && forall x {:trigger x in l} :: x in l ==> x in CompleteNodes(g, s) - before)
    && (forall v {:trigger v in CompleteNodes(g, s)} :: v in CompleteNodes(g, s) && v !in before && OnCycle(g, v) ==> exists l {:trigger l in loops} :: l in loops && v in l)
    && (forall i, j, x {:trigger x in loops[i], x in loops[j]} :: 0 <= i < j < |loops| && x in loops[i] ==> x !in loops[j])
  }

  lemma FoundNothing(g: Digraph, s: Search)
    requires Sized(g, s)
    ensures Found(g, s, CompleteNodes(g, s), [])
  {
  }

  /** A closed component is added if it is a loop. */
  lemma FoundMore(g: Digraph, s: Search, t: Search, before: set<Node>, loops: seq<seq<Node>>, c: seq<Node>)
    requires Sized(g, s) && Sized(g, t) && Found(g, s, before, loops) && Component(g, c)
    requires before <= CompleteNodes(g, s) && CompleteNodes(g, t) == CompleteNodes(g, s) + (set x | x in c)
    requires forall x {:trigger x in c} :: x in c ==> x !in CompleteNodes(g, s)
    ensures Found(g, t, before, if |c| > 1 then loops + [c] else loops)
  {
    hide Component, OnCycle;
    var all := if |c| > 1 then loops + [c] else loops;
    assert |c| > 1 ==> all[|loops|] == c;
    forall l | l in all ensures Component(g, l) && |l| > 1 && forall x {:trigger x in l} :: x in l ==> x in CompleteNodes(g, t) - before {
      if l !in loops { assert l == c; }
    }
    forall v | v in CompleteNodes(g, t) && v !in before && OnCycle(g, v) ensures exists l {:trigger l in all} :: l in all && v in l {
      if v in CompleteNodes(g, s) {
        var l :| l in loops && v in l;
        assert l in all;
      } else {
        assert v in c;
        OneNodeNoCycle(g, c, v);
        assert c in all;
      }
    }
    forall i, j, x | 0 <= i < j < |all| && x in all[i] ensures x !in all[j] {
      assert all[i] == loops[i] && loops[i] in loops;
      assert j < |loops| ==> all[j] == loops[j];
    }
  }

  lemma OneNodeNoCycle(g: Digraph, c: seq<Node>, v: Node)
    requires Component(g, c) && v in c
    ensures OnCycle(g, v) ==> |c| > 1
  {
    if OnCycle(g, v) {
      var y: Node :| y != v && Mutual(g, v, y);
      assert y in c;
    }
  }

  lemma FoundJoin(g: Digraph, s: Search, t: Search, before: set<Node>, loops: seq<seq<Node>>, more: seq<seq<Node>>)
    requires Sized(g, s) && Sized(g, t) && Found(g, s, before, loops) && before <= CompleteNodes(g, s) <= CompleteNodes(g, t)
    requires Found(g, t, CompleteNodes(g, s), more)
    ensures Found(g, t, before, loops + more)
  {
    var all := loops + more;
    forall v | v in CompleteNodes(g, t) && v !in before && OnCycle(g, v) ensures exists l {:trigger l in all} :: l in all && v in l {
      if v in CompleteNodes(g, s) {
        var l :| l in loops && v in l;
        assert l in all;
      } else {
        var l :| l in more && v in l;
        assert l in all;
      }
    }
    forall i, j, x | 0 <= i < j < |all| && x in all[i] ensures x !in all[j] {
      if i < |loops| { assert all[i] == loops[i] && loops[i] in loops; } else { assert all[i] == more[i - |loops|]; }
      if j < |loops| { assert all[j] == loops[j]; } else { assert all[j] == more[j - |loops|] && more[j - |loops|] in more; }
    }
  }

  // ---------------------------------------------------------------------------
  // Termination

  ghost function Remaining(g: Digraph, procChild: seq<nat>, n: nat): int
    requires n <= |g| && |procChild| == |g|
  {
    if n == 0 then 0 else Remaining(g, procChild, n - 1) + |g[n - 1]| - procChild[n - 1]
  }

  lemma {:induction false} RemainingNext(g: Digraph, procChild: seq<nat>, n: nat, v: Node)
    requires n <= |g| && |procChild| == |g| && v < |g|
    ensures Remaining(g, procChild[v := procChild[v] + 1], n) == Remaining(g, procChild, n) - if v < n then 1 else 0
  {
    if n > 0 { RemainingNext(g, procChild, n - 1, v); }
  }

  lemma {:induction false} RemainingNonNegative(g: Digraph, procChild: seq<nat>, n: nat)
    requires n <= |g| && |procChild| == |g| && forall v: Node {:trigger procChild[v]} :: v < |g| ==> procChild[v] <= |g[v]|
    ensures Remaining(g, procChild, n) >= 0
  {
    if n > 0 { RemainingNonNegative(g, procChild, n - 1); }
  }

  ghost function UnseenNodes(g: Digraph, s: Search): set<Node>
    requires Sized(g, s)
  {
    set v | 0 <= v < |g| && s.status[v] == Unseen
  }

  ghost function Left(g: Digraph, s: Search): nat
    requires Sized(g, s)
  {
    var r := Remaining(g, s.procChild, |g|);
    if r < 0 then 0 else r
  }

  /** The start node is complete already. */
  ghost predicate Revisiting(g: Digraph, s: Search, start: Node) {
    Resting(g, s) && start < |g| && s.status[start] == Complete
  }

  /** Everything that matters is as it was. */
  ghost predicate Rested(g: Digraph, s: Search, t: Search) {
    Sized(g, s) && Sized(g, t) && t.status == s.status && t.procChild == s.procChild && t.control == [] && t.stack == []
  }

  lemma RestedRests(g: Digraph, s: Search, t: Search)
    requires Resting(g, s) && Rested(g, s, t)
    ensures Resting(g, t)
  {
    forall v: Node | v < |g| ensures ProgressOk(g, t, v) && t.status[v] != InStack {
      assert ProgressOk(g, s, v);
    }
  }

  lemma RestFacts(g: Digraph, s: Search, v: Node)
    requires Resting(g, s) && v < |g|
    ensures Sized(g, s) && s.control == [] && s.stack == [] && s.status[v] != InStack && WellFormed(g)
    ensures s.status[v] == Complete ==> v in CompleteNodes(g, s) && s.procChild[v] == |g[v]|
    ensures s.status[v] == Unseen ==> s.procChild[v] == 0
  {
    assert ProgressOk(g, s, v);
  }

  lemma RevisitRests(g: Digraph, s: Search, start: Node, t: Search)
    requires Revisiting(g, s, start) && Sized(g, t)
    requires t.status == MarkAll(Add(s, start).status, [start]) && t.procChild == s.procChild && t.control == [] && t.stack == []
    ensures Rested(g, s, t) && UnseenNodes(g, t) == UnseenNodes(g, Add(s, start))
  {
    assert t.status == s.status;
  }

  /** The search starts with one unseen node on both stacks. */
  lemma StartSearch(g: Digraph, s: Search, start: Node, before: set<Node>)
    requires Resting(g, s) && start < |g| && s.status[start] == Unseen && before == CompleteNodes(g, s)
    ensures var t := Add(s, start);
            Searching(g, t) && Found(g, t, before, []) && CompleteNodes(g, t) == before
  {
    var t := Add(s, start);
    RestFacts(g, s, start);
    forall v: Node ensures On(g, t, v) <==> v == start {
      if v < |g| { assert ProgressOk(g, s, v); }
    }
    forall v: Node | v < |g| ensures ProgressOk(g, t, v) {
      assert ProgressOk(g, s, v);
    }
    ReachSelf(g, start);
    assert start in t.control && On(g, t, start);
  }

  lemma ChildSized(g: Digraph, s: Search, c: Node)
    requires AtChild(g, s, c)
    ensures Sized(g, s) && s.control[|s.control| - 1] < |g|
  {
  }

  lemma AddedUnseen(g: Digraph, s: Search, t: Search, c: Node, before: set<Node>, loops: seq<seq<Node>>)
    requires Sized(g, s) && Sized(g, t) && Found(g, s, before, loops) && c < |g| && s.status[c] == Unseen && t.status == s.status[c := InStack]
    ensures Found(g, t, before, loops) && CompleteNodes(g, t) == CompleteNodes(g, s) && UnseenNodes(g, t) < UnseenNodes(g, s)
  {
    assert CompleteNodes(g, t) == CompleteNodes(g, s);
    assert UnseenNodes(g, t) == UnseenNodes(g, s) - {c};
  }

  /** The node on top of the control stack, in the two situations of the loop. */
  lemma TopInRange(g: Digraph, s0: Search, s: Search, start: Node, again: bool)
    requires Sized(g, s) && s.control != []
    requires again ==> Revisiting(g, s0, start) && (s == Add(s0, start) || Rested(g, s0, s))
    requires !again ==> Searching(g, s)
    ensures var n := s.control[|s.control| - 1];
            && n < |g| && s.procChild[n] <= |g[n]|
            && (again ==> s == Add(s0, start) && s.procChild[n] == |g[n]|)
            && (!again && s.procChild[n] < |g[n]| ==> AtChild(g, s, g[n][s.procChild[n]]))
            && (!again && s.procChild[n] == |g[n]| ==> AtEnd(g, s))
    ensures !again ==> forall v: Node {:trigger s.procChild[v]} :: v < |g| ==> s.procChild[v] <= |g[v]|
  {
    if again {
      RestFacts(g, s0, start);
    } else {
      TopFacts(g, s);
      forall v: Node | v < |g| ensures s.procChild[v] <= |g[v]| {
        assert ProgressOk(g, s, v);
      }
    }
  }

  lemma LeftShrinks(g: Digraph, s: Search, t: Search, n: Node)
    requires Sized(g, s) && Sized(g, t) && n < |g| && s.procChild[n] < |g[n]| && t.procChild == s.procChild[n := s.procChild[n] + 1]
    requires forall v: Node {:trigger s.procChild[v]} :: v < |g| ==> s.procChild[v] <= |g[v]|
    ensures Left(g, t) < Left(g, s)
  {
    RemainingNext(g, s.procChild, |g|, n);
    forall v: Node | v < |g| ensures t.procChild[v] <= |g[v]| {
      var x := s.procChild[v];
    }
    RemainingNonNegative(g, t.procChild, |g|);
  }

  lemma SameLeft(g: Digraph, s: Search, t: Search)
    requires Sized(g, s) && Sized(g, t) && t.procChild == s.procChild
    ensures Left(g, t) == Left(g, s)
  {
  }

  class TarjanAlgorithm {
    const g: Digraph
    var procChild: seq<nat>
    var nodeIndex: seq<int>
    var lowlink: seq<int>
    var status: seq<NStatus>
    var controlStack: seq<Node>
    var tarjanStack: seq<Node>
    var index: nat

    ghost function Now(): Search
      reads this
    {
      Search(procChild, nodeIndex, lowlink, status, controlStack, tarjanStack, index)
    }

    constructor (g: Digraph)
      requires WellFormed(g)
      ensures this.g == g && Resting(g, Now()) && Sized(g, Now()) && CompleteNodes(g, Now()) == {}
    {
      this.g := g;
      procChild, nodeIndex, lowlink := seq(|g|, i => 0), seq(|g|, i => -1), seq(|g|, i => -1);
      status := seq(|g|, i => Unseen);
      controlStack, tarjanStack, index := [], [], 0;
    }

    method AddNode(n: Node)
      requires n < |nodeIndex| && n < |lowlink| && n < |status|
      modifies this`nodeIndex, this`lowlink, this`status, this`controlStack, this`tarjanStack, this`index
      ensures Now() == Add(old(Now()), n)
    {
      nodeIndex := nodeIndex[n := index];
      lowlink := lowlink[n := index];
      index := index + 1;
      controlStack := controlStack + [n];
      tarjanStack := tarjanStack + [n];
      status := status[n := InStack];
    }

    method UpdateLowLink(n: Node, i: int)
      requires n < |lowlink|
      modifies this`lowlink
      ensures Now() == Lower(old(Now()), n, i)
    {
      lowlink := lowlink[n := if lowlink[n] < i then lowlink[n] else i];
    }

    /** Takes nodes off the stack down to `n` and marks them; they are returned bottom first. */
    method PopComponent(n: Node, ghost p: nat) returns (scc: seq<Node>)
      requires p < |tarjanStack| && tarjanStack[p] == n
      requires forall i {:trigger tarjanStack[i]} :: 0 <= i < |tarjanStack| ==> tarjanStack[i] < |status| && (tarjanStack[i] == n <==> i == p)
      modifies this`tarjanStack, this`status
      ensures scc == old(tarjanStack)[p..] && tarjanStack == old(tarjanStack)[..p] && status == MarkAll(old(status), scc)
    {
      ghost var m := |tarjanStack|;
      scc := [];
      var w := |status|;
      while w != n
        invariant p <= m <= |old(tarjanStack)| && tarjanStack == old(tarjanStack)[..m] && scc == old(tarjanStack)[m..]
        invariant |status| == |old(status)| && status == MarkAll(old(status), scc)
        invariant m == p <==> w == n
        decreases m
      {
        w := tarjanStack[|tarjanStack| - 1];
        assert w == old(tarjanStack)[m - 1];
        tarjanStack := tarjanStack[..|tarjanStack| - 1];
        status := status[w := Complete];
        scc := [w] + scc;
        m := m - 1;
        assert scc == old(tarjanStack)[m..];
        assert status == MarkAll(old(status), scc);
      }
    }

    /** The next child to look at, if any. */
    method GetNextChild(n: Node) returns (c: Node, found: bool)
      requires n < |procChild| == |g|
      modifies this`procChild
      ensures found == (old(procChild)[n] < |g[n]|)
      ensures found ==> c == g[n][old(procChild)[n]] && Now() == Next(old(Now()), n)
      ensures !found ==> Now() == old(Now())
    {
      found := procChild[n] < |g[n]|;
      if found {
        c := g[n][procChild[n]];
        procChild := procChild[n := procChild[n] + 1];
      } else {
        c := 0;
      }
    }

    /** The top node has no more children: it leaves the control stack, and if it is the first of its
        component the component is taken off. (`again` marks a start node that was complete before.) */
    method FinishTop(ghost again: bool, ghost s0: Search, ghost start: Node, ghost before: set<Node>, loops: seq<seq<Node>>) returns (loops': seq<seq<Node>>)
      requires again ==> Revisiting(g, s0, start) && Now() == Add(s0, start)
      requires !again ==> AtEnd(g, Now()) && Found(g, Now(), before, loops) && before <= CompleteNodes(g, Now())
      modifies this
      ensures |controlStack| == |old(controlStack)| - 1 && procChild == old(procChild)
      ensures again ==> loops' == loops && Rested(g, s0, Now())
      ensures !again ==> Searching(g, Now()) && Found(g, Now(), before, loops') && before <= CompleteNodes(g, Now())
      ensures Sized(g, Now()) && UnseenNodes(g, Now()) == old(UnseenNodes(g, Now()))
      ensures !again ==> forall v: Node {:trigger status[v]} :: v < |g| && old(status)[v] != Unseen ==> status[v] != Unseen
    {
      hide Searching, StacksOk, ProgressOk, Found, Reach, Component, LowBounds, LowReached, Downward, Upward, Resting, AtRoot, RootAt, Rested, CompleteNodes, On;
      ghost var s := Now();
      if again {
        RestFacts(g, s0, start);
      } else {
        EndFacts(g, s);
        LinkKept(g, s);
      }
      var n := controlStack[|controlStack| - 1];
      controlStack := controlStack[..|controlStack| - 1];
      if |controlStack| > 0 {
        UpdateLowLink(controlStack[|controlStack| - 1], lowlink[n]);
      }
      loops' := loops;
      if lowlink[n] == nodeIndex[n] {
        ghost var p := 0;
        if !again {
          assert Now() == Leave(s);
          p := RootPosition(g, s);
        }
        var scc := PopComponent(n, p);
        if again {
          RevisitRests(g, s0, start, Now());
        } else {
          assert Now() == Close(s, p);
          CloseKeeps(g, s, p);
          RootComponent(g, s, p);
          CloseCompletes(g, s, p);
          FoundMore(g, s, Now(), before, loops, scc);
        }
        if |scc| > 1 {
          loops' := loops + [scc];
        }
      } else if !again {
        assert Now() == Leave(s);
        LeaveKeeps(g, s);
        FoundSame(g, s, Now(), before, loops);
      }
    }

    /** A child of the top node: an unseen one is added, one on the stack lowers the low link. */
    method VisitChild(ghost s: Search, n: Node, c: Node, ghost before: set<Node>, ghost loops: seq<seq<Node>>)
      requires AtChild(g, s, c) && n == s.control[|s.control| - 1] && n < |s.procChild| && Now() == Next(s, n)
      requires Sized(g, s) && Found(g, s, before, loops) && before <= CompleteNodes(g, s)
      modifies this
      ensures Searching(g, Now()) && Found(g, Now(), before, loops) && before <= CompleteNodes(g, Now())
      ensures procChild == s.procChild[n := s.procChild[n] + 1]
      ensures Sized(g, Now()) && (UnseenNodes(g, Now()) < UnseenNodes(g, s) || UnseenNodes(g, Now()) == UnseenNodes(g, s))
      ensures forall v: Node {:trigger status[v]} :: v < |g| && s.status[v] != Unseen ==> status[v] != Unseen
    {
      hide Searching, StacksOk, ProgressOk, Found, Reach, LowBounds, LowReached, Downward, Upward;
      ChildFacts(g, s, c);
      ChildSized(g, s, c);
      if status[c] == Unseen {
        AddNode(c);
        VisitUnseen(g, s, c);
        AddedUnseen(g, s, Now(), c, before, loops);
      } else {
        if status[c] == InStack {
          UpdateLowLink(n, nodeIndex[c]);
        }
        VisitSeen(g, s, c, Now());
        FoundSame(g, s, Now(), before, loops);
      }
    }

    /** Searches from one node. A node that is complete already goes on the stacks and comes off again. */
    method GetLoops(startNode: Node) returns (loops: seq<seq<Node>>)
      requires Resting(g, Now()) && startNode < |g|
      modifies this
      ensures Resting(g, Now()) && Sized(g, Now()) && CompleteNodes(g, old(Now())) <= CompleteNodes(g, Now()) && startNode in CompleteNodes(g, Now())
      ensures Found(g, Now(), CompleteNodes(g, old(Now())), loops)
    {
      hide Searching, StacksOk, ProgressOk, Found, Reach, LowBounds, LowReached, Downward, Upward, Resting, AtEnd, AtChild, Left, UnseenNodes;
      ghost var s0 := Now();
      RestFacts(g, s0, startNode);
      ghost var before := CompleteNodes(g, s0);
      ghost var again := status[startNode] == Complete;
      loops := [];
      AddNode(startNode);
      FoundNothing(g, s0);
      if !again {
        StartSearch(g, s0, startNode, before);
      }
      while controlStack != []
        invariant Sized(g, Now()) && Found(g, if again then s0 else Now(), before, loops) && before <= CompleteNodes(g, if again then s0 else Now())
        invariant again ==> loops == [] && Revisiting(g, s0, startNode) && (Now() == Add(s0, startNode) || Rested(g, s0, Now()))
        invariant !again ==> Searching(g, Now()) && status[startNode] != Unseen
        decreases UnseenNodes(g, Now()), Left(g, Now()), |controlStack|
      {
        var n := controlStack[|controlStack| - 1];
        ghost var s := Now();
        TopInRange(g, s0, s, startNode, again);
        var c, found := GetNextChild(n);
        if found {
          assert !again;
          VisitChild(s, n, c, before, loops);
          LeftShrinks(g, s, Now(), n);
        } else {
          loops := FinishTop(again, s0, startNode, before, loops);
          SameLeft(g, s, Now());
        }
      }
      if again {
        FoundSame(g, s0, Now(), before, loops);
        RestedRests(g, s0, Now());
      } else {
        NothingLeft(g, Now());
      }
      RestFacts(g, Now(), startNode);
    }
  }

  lemma EndFacts(g: Digraph, s: Search)
    requires AtEnd(g, s)
    ensures Sized(g, s) && s.control[|s.control| - 1] < |g|
    ensures forall i {:trigger s.control[i]} :: 0 <= i < |s.control| ==> s.control[i] < |s.lowlink|
    ensures |s.control| > 1 ==> s.control[|s.control| - 2] != s.control[|s.control| - 1] && s.control[..|s.control| - 1][|s.control| - 2] == s.control[|s.control| - 2]
  {
    TopFacts(g, s);
    if |s.control| > 1 {
      assert s.num[s.control[|s.control| - 2]] < s.num[s.control[|s.control| - 1]];
    }
  }

  /** Leaving changes another node's low link only. */
  lemma LinkKept(g: Digraph, s: Search)
    requires AtEnd(g, s) && Sized(g, s) && forall i {:trigger s.control[i]} :: 0 <= i < |s.control| ==> s.control[i] < |s.lowlink|
    ensures var n := s.control[|s.control| - 1]; Leave(s).lowlink[n] == s.lowlink[n] && Leave(s).num == s.num
  {
    EndFacts(g, s);
  }

  lemma RootPosition(g: Digraph, s: Search) returns (p: nat)
    requires AtRoot(g, s)
    ensures RootAt(g, s, p)
    ensures forall i {:trigger s.stack[i]} :: 0 <= i < |s.stack| ==> s.stack[i] < |s.status| && (s.stack[i] == s.control[|s.control| - 1] <==> i == p)
  {
    TopFacts(g, s);
    var n := s.control[|s.control| - 1];
    p := StackPosition(g, s, n);
    forall i | 0 <= i < |s.stack| ensures s.stack[i] < |s.status| && (s.stack[i] == n <==> i == p) {
      assert On(g, s, s.stack[i]);
      assert i < p ==> s.num[s.stack[i]] < s.num[s.stack[p]];
      assert p < i ==> s.num[s.stack[p]] < s.num[s.stack[i]];
    }
  }

  /** Exactly the component's nodes become complete. */
  lemma CloseCompletes(g: Digraph, s: Search, p: nat)
    requires RootAt(g, s, p)
    ensures var t, c := Close(s, p), s.stack[p..];
            && Sized(g, t) && CompleteNodes(g, t) == CompleteNodes(g, s) + (set x | x in c)
            && (forall x {:trigger x in c} :: x in c ==> x !in CompleteNodes(g, s))
            && UnseenNodes(g, t) == UnseenNodes(g, s)
  {
    var c := s.stack[p..];
    forall x | x in c ensures x < |g| && s.status[x] == InStack {
      var i :| 0 <= i < |c| && c[i] == x;
      assert On(g, s, s.stack[p + i]);
    }
  }

  lemma FoundSame(g: Digraph, s: Search, t: Search, before: set<Node>, loops: seq<seq<Node>>)
    requires Sized(g, s) && Sized(g, t) && Found(g, s, before, loops) && t.status == s.status
    ensures Found(g, t, before, loops) && CompleteNodes(g, t) == CompleteNodes(g, s) && UnseenNodes(g, t) == UnseenNodes(g, s)
  {
    assert CompleteNodes(g, t) == CompleteNodes(g, s);
  }
}
