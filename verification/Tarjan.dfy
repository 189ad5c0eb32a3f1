/** The iterative form of Tarjan's algorithm that finds substitution loops: what its two stacks and the
    low links mean, step by step. */
module Tarjan {
  import opened Digraphs

  datatype NStatus = InStack | Complete | Unseen

  /** The marks on the nodes, the two stacks and the next index. */
  datatype Search = Search(
    procChild: seq<nat>, num: seq<int>, lowlink: seq<int>, status: seq<NStatus>,
    control: seq<Node>, stack: seq<Node>, index: nat)

  ghost predicate Sized(g: Digraph, s: Search) {
    |s.procChild| == |g| && |s.num| == |g| && |s.lowlink| == |g| && |s.status| == |g|
  }

  ghost predicate On(g: Digraph, s: Search, v: Node) {
    Sized(g, s) && v < |g| && s.status[v] == InStack
  }

  /** The stack holds the nodes in it in the order of their indices; the control stack is part of it. */
  ghost predicate StacksOk(g: Digraph, s: Search) {
    && Sized(g, s)
    && (forall i {:trigger s.stack[i]} :: 0 <= i < |s.stack| ==> On(g, s, s.stack[i]))
    && (forall i, j {:trigger s.stack[i], s.stack[j]} :: 0 <= i < j < |s.stack| ==> s.num[s.stack[i]] < s.num[s.stack[j]])
    && (forall v: Node {:trigger On(g, s, v)} :: On(g, s, v) ==> v in s.stack && 0 <= s.num[v] < s.index)
    && (forall i {:trigger s.control[i]} :: 0 <= i < |s.control| ==> s.control[i] in s.stack)
    && (forall i, j {:trigger s.control[i], s.control[j]} :: 0 <= i < j < |s.control| ==> s.num[s.control[i]] < s.num[s.control[j]])
  }

  /** Children looked at are seen; a node off the control stack has looked at all of them; complete nodes
      lead to complete nodes only. */
  ghost predicate ProgressOk(g: Digraph, s: Search, v: Node)
    requires Sized(g, s) && v < |g|
  {
    && s.procChild[v] <= |g[v]|
    && (s.status[v] == InStack ==> forall k {:trigger g[v][k]} :: 0 <= k < s.procChild[v] ==> g[v][k] < |g| && s.status[g[v][k]] != Unseen)
    && (s.status[v] == InStack && v !in s.control ==> s.procChild[v] == |g[v]|)
    && (s.status[v] == Complete ==> s.procChild[v] == |g[v]| && forall c {:trigger c in g[v]} :: c in g[v] ==> c < |g| && s.status[c] == Complete)
    && (s.status[v] == Unseen ==> s.procChild[v] == 0)
  }

  /** Older nodes on the stack reach younger ones. */
  ghost predicate Downward(g: Digraph, s: Search, v: Node, w: Node)
    requires Sized(g, s)
  {
    On(g, s, v) && On(g, s, w) && s.num[v] <= s.num[w] ==> Reach(g, v, w)
  }

  /** Every node on the stack reaches one on the control stack that is no younger. */
  ghost predicate Upward(g: Digraph, s: Search, v: Node)
    requires Sized(g, s)
  {
    On(g, s, v) ==> exists x: Node {:trigger x in s.control} :: x in s.control && On(g, s, x) && s.num[x] <= s.num[v] && Reach(g, v, x)
  }

  /** `v` belongs to the part of the stack between the control node at `i` and the next one. */
  ghost predicate InSegment(g: Digraph, s: Search, i: nat, v: Node)
    requires Sized(g, s) && i < |s.control|
  {
    && On(g, s, v) && On(g, s, s.control[i]) && s.num[s.control[i]] <= s.num[v]
    && (i + 1 < |s.control| ==> On(g, s, s.control[i + 1]) && s.num[v] < s.num[s.control[i + 1]])
  }

  /** No edge looked at leads from the segment at `i` to a node on the stack below its low link. */
  ghost predicate LowBounds(g: Digraph, s: Search, i: nat, v: Node)
    requires Sized(g, s) && i < |s.control|
  {
    InSegment(g, s, i, v) ==>
      forall k {:trigger g[v][k]} :: 0 <= k < s.procChild[v] && k < |g[v]| && On(g, s, g[v][k]) ==> s.lowlink[s.control[i]] <= s.num[g[v][k]]
  }

  /** The low link is the index of a node that the control node reaches. */
  ghost predicate LowReached(g: Digraph, s: Search, i: nat)
    requires Sized(g, s) && i < |s.control|
  {
    var n := s.control[i];
    On(g, s, n) && s.lowlink[n] <= s.num[n] && exists w: Node {:trigger On(g, s, w)} :: On(g, s, w) && s.num[w] == s.lowlink[n] && Reach(g, n, w)
  }

  ghost predicate Searching(g: Digraph, s: Search) {
    && WellFormed(g) && StacksOk(g, s)
    && (forall v: Node {:trigger ProgressOk(g, s, v)} :: 0 <= v < |g| ==> ProgressOk(g, s, v))
    && (forall v: Node, w: Node {:trigger Downward(g, s, v, w)} :: Downward(g, s, v, w))
    && (forall v: Node {:trigger Upward(g, s, v)} :: Upward(g, s, v))
    && (forall i, v: Node {:trigger LowBounds(g, s, i, v)} :: 0 <= i < |s.control| ==> LowBounds(g, s, i, v))
    && (forall i {:trigger LowReached(g, s, i)} :: 0 <= i < |s.control| ==> LowReached(g, s, i))
  }

  /** Both stacks are empty, and the complete nodes lead to complete nodes only. */
  ghost predicate Resting(g: Digraph, s: Search) {
    && WellFormed(g) && Sized(g, s) && s.control == [] && s.stack == []
    && (forall v: Node {:trigger ProgressOk(g, s, v)} :: 0 <= v < |g| ==> ProgressOk(g, s, v) && s.status[v] != InStack)
  }

  // ---------------------------------------------------------------------------
  // Adding a node

  function Add(s: Search, n: Node): Search
    requires n < |s.num| && n < |s.lowlink| && n < |s.status|
  {
    s.(num := s.num[n := s.index], lowlink := s.lowlink[n := s.index], status := s.status[n := InStack],
       control := s.control + [n], stack := s.stack + [n], index := s.index + 1)
  }

  /** Every node on the stack reaches the one on top of the control stack. */
  lemma AllReachTop(g: Digraph, s: Search, v: Node)
    requires Searching(g, s) && s.control != [] && On(g, s, v)
    ensures Reach(g, v, s.control[|s.control| - 1])
  {
    var n := s.control[|s.control| - 1];
    assert On(g, s, n) && Upward(g, s, v);
    var x :| x in s.control && On(g, s, x) && s.num[x] <= s.num[v] && Reach(g, v, x);
    var i :| 0 <= i < |s.control| && s.control[i] == x;
    assert i == |s.control| - 1 || s.num[s.control[i]] < s.num[n];
    assert Downward(g, s, x, n);
    ReachOn(g, v, x, n);
  }

  lemma AddStacks(g: Digraph, s: Search, n: Node)
    requires StacksOk(g, s) && n < |g| && s.status[n] != InStack
    ensures StacksOk(g, Add(s, n))
    ensures forall v: Node {:trigger On(g, Add(s, n), v)} {:trigger On(g, s, v)} :: On(g, Add(s, n), v) <==> On(g, s, v) || v == n
    ensures forall v: Node {:trigger On(g, s, v)} :: On(g, s, v) ==> v != n && Add(s, n).num[v] == s.num[v] && s.num[v] < s.index
  {
    var t := Add(s, n);
    forall i | 0 <= i < |t.stack| ensures On(g, t, t.stack[i]) {
      if i < |s.stack| { assert On(g, s, s.stack[i]); }
    }
    forall i, j | 0 <= i < j < |t.stack| ensures t.num[t.stack[i]] < t.num[t.stack[j]] {
      assert On(g, s, s.stack[i]);
      if j < |s.stack| { assert On(g, s, s.stack[j]); }
    }
    forall i | 0 <= i < |t.control| ensures t.control[i] in t.stack {
      if i < |s.control| { assert s.control[i] in s.stack; }
    }
    forall v: Node | On(g, t, v) ensures v in t.stack && 0 <= t.num[v] < t.index {
      assert v != n ==> On(g, s, v) && v in s.stack;
      assert t.stack[|s.stack|] == n;
    }
    forall i, j | 0 <= i < j < |t.control| ensures t.num[t.control[i]] < t.num[t.control[j]] {
      assert s.control[i] in s.stack;
      if j < |s.control| { assert s.control[j] in s.stack; }
    }
  }

  /** Looking at one more child of a node. */
  function Next(s: Search, n: Node): Search
    requires n < |s.procChild|
  {
    s.(procChild := s.procChild[n := s.procChild[n] + 1])
  }

  ghost predicate AtChild(g: Digraph, s: Search, c: Node) {
    && Searching(g, s) && s.control != []
    && var n := s.control[|s.control| - 1];
       n < |g| && n < |s.procChild| && s.procChild[n] < |g[n]| && g[n][s.procChild[n]] == c
  }

  lemma TopFacts(g: Digraph, s: Search)
    requires Searching(g, s) && s.control != []
    ensures var n := s.control[|s.control| - 1]; On(g, s, n) && n < |g| && ProgressOk(g, s, n) && s.stack != []
    ensures forall i {:trigger s.control[i]} :: 0 <= i < |s.control| ==> On(g, s, s.control[i]) && s.num[s.control[i]] < s.index
  {
    assert s.control[|s.control| - 1] in s.stack;
    forall i | 0 <= i < |s.control| ensures On(g, s, s.control[i]) && s.num[s.control[i]] < s.index {
      assert s.control[i] in s.stack;
    }
  }

  lemma ChildFacts(g: Digraph, s: Search, c: Node)
    requires AtChild(g, s, c)
    ensures c < |g| && Edge(g, s.control[|s.control| - 1], c)
  {
    var n := s.control[|s.control| - 1];
    assert g[n][s.procChild[n]] in g[n];
  }

  /** An unseen child goes on both stacks. */
  lemma VisitUnseen(g: Digraph, s: Search, c: Node)
    requires AtChild(g, s, c) && c < |s.status| && s.status[c] == Unseen
    ensures Searching(g, Add(Next(s, s.control[|s.control| - 1]), c))
  {
    hide Reach;
    TopFacts(g, s);
    ChildFacts(g, s, c);
    var n := s.control[|s.control| - 1];
    var s' := Next(s, n);
    var t := Add(s', c);
    assert StacksOk(g, s') by { NextStacks(g, s, n); }
    AddStacks(g, s', c);
    assert forall v: Node {:trigger On(g, s, v)} :: On(g, s, v) <==> On(g, s', v);
    forall v: Node | v < |g| ensures ProgressOk(g, t, v) {
      UnseenProgress(g, s, c, v);
    }
    forall v: Node, w: Node ensures Downward(g, t, v, w) {
      UnseenDownward(g, s, c, v, w);
    }
    forall v: Node ensures Upward(g, t, v) {
      UnseenUpward(g, s, c, v);
    }
    forall i, v: Node | 0 <= i < |t.control| ensures LowBounds(g, t, i, v) {
      UnseenBounds(g, s, c, i, v);
    }
    forall i | 0 <= i < |t.control| ensures LowReached(g, t, i) {
      UnseenReached(g, s, c, i);
    }
  }

  lemma UnseenProgress(g: Digraph, s: Search, c: Node, v: Node)
    requires AtChild(g, s, c) && c < |g| && s.status[c] == Unseen && s.control[|s.control| - 1] < |g| && v < |g|
    ensures Sized(g, s) && ProgressOk(g, Add(Next(s, s.control[|s.control| - 1]), c), v)
  {
    hide Reach, LowBounds, LowReached, Downward, Upward;
    TopFacts(g, s);
    ChildFacts(g, s, c);
    var t := Add(Next(s, s.control[|s.control| - 1]), c);
    assert ProgressOk(g, s, v);
    assert v in t.control <==> v in s.control || v == c;
  }

  lemma UnseenDownward(g: Digraph, s: Search, c: Node, v: Node, w: Node)
    requires AtChild(g, s, c) && c < |g| && s.status[c] == Unseen && s.control[|s.control| - 1] < |g|
    ensures Sized(g, s) && Downward(g, Add(Next(s, s.control[|s.control| - 1]), c), v, w)
  {
    hide Reach, LowBounds, LowReached, Upward, ProgressOk;
    TopFacts(g, s);
    ChildFacts(g, s, c);
    var n := s.control[|s.control| - 1];
    var t := Add(Next(s, n), c);
    NextStacks(g, s, n);
    AddStacks(g, Next(s, n), c);
    assert forall u: Node {:trigger On(g, s, u)} :: On(g, s, u) <==> On(g, Next(s, n), u);
    assert Downward(g, s, v, w);
    ReachSelf(g, v);
    if w == c && On(g, s, v) {
      AllReachTop(g, s, v);
      ReachEdge(g, n, c);
      ReachOn(g, v, n, c);
    }
  }

  lemma NextStacks(g: Digraph, s: Search, n: Node)
    requires StacksOk(g, s) && n < |g|
    ensures StacksOk(g, Next(s, n))
  {
    var t := Next(s, n);
    assert forall v: Node {:trigger On(g, s, v)} {:trigger On(g, t, v)} :: On(g, s, v) <==> On(g, t, v);
  }

  lemma UnseenUpward(g: Digraph, s: Search, c: Node, v: Node)
    requires AtChild(g, s, c) && c < |g| && s.status[c] == Unseen && s.control[|s.control| - 1] < |g|
    ensures Sized(g, s) && Upward(g, Add(Next(s, s.control[|s.control| - 1]), c), v)
  {
    hide Reach;
    var n := s.control[|s.control| - 1];
    var t := Add(Next(s, n), c);
    assert t.control == s.control + [c];
    if On(g, t, v) {
      if v == c {
        ReachSelf(g, c);
        assert c in t.control && On(g, t, c);
      } else {
        assert On(g, s, v) && Upward(g, s, v);
        var x: Node :| x in s.control && On(g, s, x) && s.num[x] <= s.num[v] && Reach(g, v, x);
        assert x in t.control && On(g, t, x);
      }
    }
  }

  lemma UnseenBounds(g: Digraph, s: Search, c: Node, i: nat, v: Node)
    requires AtChild(g, s, c) && c < |g| && s.status[c] == Unseen && s.control[|s.control| - 1] < |g| && i <= |s.control|
    ensures Sized(g, s) && LowBounds(g, Add(Next(s, s.control[|s.control| - 1]), c), i, v)
  {
    hide Reach;
    TopFacts(g, s);
    var n := s.control[|s.control| - 1];
    var t := Add(Next(s, n), c);
    if i == |s.control| {
      assert ProgressOk(g, s, c) && c != n;
      assert On(g, t, v) && v != c ==> On(g, s, v);
    } else if InSegment(g, t, i, v) {
      assert t.control[i] == s.control[i] && (i + 1 < |s.control| ==> t.control[i + 1] == s.control[i + 1]);
      assert LowReached(g, s, i) && LowBounds(g, s, i, v);
      assert i + 1 < |s.control| ==> On(g, s, s.control[i + 1]) && s.num[s.control[i + 1]] < s.index;
      if v != c {
        assert On(g, s, v) && InSegment(g, s, i, v);
        forall k | 0 <= k < t.procChild[v] && k < |g[v]| && On(g, t, g[v][k]) ensures t.lowlink[t.control[i]] <= t.num[g[v][k]] {
          if g[v][k] != c {
            assert On(g, s, g[v][k]);
            assert k < s.procChild[v];
          }
        }
      }
    }
  }

  lemma UnseenReached(g: Digraph, s: Search, c: Node, i: nat)
    requires AtChild(g, s, c) && c < |g| && s.status[c] == Unseen && s.control[|s.control| - 1] < |g| && i <= |s.control|
    ensures Sized(g, s) && LowReached(g, Add(Next(s, s.control[|s.control| - 1]), c), i)
  {
    hide Reach;
    var n := s.control[|s.control| - 1];
    var t := Add(Next(s, n), c);
    if i < |s.control| {
      assert t.control[i] == s.control[i] && LowReached(g, s, i);
      var w: Node :| On(g, s, w) && s.num[w] == s.lowlink[s.control[i]] && Reach(g, s.control[i], w);
      assert On(g, t, w);
    } else {
      ReachSelf(g, c);
      assert On(g, t, c);
    }
  }

  /** A child on the stack lowers the low link to its index. */
  function Lower(s: Search, n: Node, i: int): Search
    requires n < |s.lowlink|
  {
    s.(lowlink := s.lowlink[n := if s.lowlink[n] < i then s.lowlink[n] else i])
  }

  lemma VisitSeen(g: Digraph, s: Search, c: Node, t: Search)
    requires AtChild(g, s, c) && c < |g| && s.status[c] != Unseen && s.control[|s.control| - 1] < |g|
    requires var n := s.control[|s.control| - 1];
             t == if s.status[c] == InStack then Lower(Next(s, n), n, s.num[c]) else Next(s, n)
    ensures Searching(g, t)
  {
    hide Reach;
    TopFacts(g, s);
    ChildFacts(g, s, c);
    var n := s.control[|s.control| - 1];
    NextStacks(g, s, n);
    assert forall v: Node {:trigger On(g, s, v)} {:trigger On(g, t, v)} :: On(g, s, v) <==> On(g, t, v);
    forall v: Node | v < |g| ensures ProgressOk(g, t, v) {
      assert ProgressOk(g, s, v);
    }
    forall v: Node, w: Node ensures Downward(g, t, v, w) {
      assert Downward(g, s, v, w);
    }
    forall v: Node ensures Upward(g, t, v) {
      assert Upward(g, s, v);
      if On(g, s, v) {
        var x: Node :| x in s.control && On(g, s, x) && s.num[x] <= s.num[v] && Reach(g, v, x);
        assert x in t.control && On(g, t, x);
      }
    }
    forall i, v: Node | 0 <= i < |t.control| ensures LowBounds(g, t, i, v) {
      SeenBounds(g, s, c, t, i, v);
    }
    forall i | 0 <= i < |t.control| ensures LowReached(g, t, i) {
      SeenReached(g, s, c, t, i);
    }
  }

  lemma SeenBounds(g: Digraph, s: Search, c: Node, t: Search, i: nat, v: Node)
    requires AtChild(g, s, c) && c < |g| && s.status[c] != Unseen && s.control[|s.control| - 1] < |g| && i < |s.control|
    requires var n := s.control[|s.control| - 1];
             t == if s.status[c] == InStack then Lower(Next(s, n), n, s.num[c]) else Next(s, n)
    ensures Sized(g, s) && LowBounds(g, t, i, v)
  {
    hide Reach;
    TopFacts(g, s);
    var n := s.control[|s.control| - 1];
    assert LowBounds(g, s, i, v);
    if InSegment(g, t, i, v) {
      assert On(g, s, v) && InSegment(g, s, i, v);
      forall k | 0 <= k < t.procChild[v] && k < |g[v]| && On(g, t, g[v][k]) ensures t.lowlink[t.control[i]] <= t.num[g[v][k]] {
        assert On(g, s, g[v][k]);
        if v == n && k == s.procChild[n] {
          assert i == |s.control| - 1;
        } else {
          assert k < s.procChild[v];
        }
      }
    }
  }

  lemma SeenReached(g: Digraph, s: Search, c: Node, t: Search, i: nat)
    requires AtChild(g, s, c) && c < |g| && s.status[c] != Unseen && s.control[|s.control| - 1] < |g| && i < |s.control|
    requires var n := s.control[|s.control| - 1];
             t == if s.status[c] == InStack then Lower(Next(s, n), n, s.num[c]) else Next(s, n)
    ensures Sized(g, s) && LowReached(g, t, i)
  {
    hide Reach;
    TopFacts(g, s);
    ChildFacts(g, s, c);
    var n := s.control[|s.control| - 1];
    assert LowReached(g, s, i);
    if i < |s.control| - 1 {
      assert s.control[i] != n;
    }
    var w: Node :| On(g, s, w) && s.num[w] == s.lowlink[s.control[i]] && Reach(g, s.control[i], w);
    assert On(g, t, w);
    if s.status[c] == InStack {
      ReachEdge(g, n, c);
      assert On(g, s, c) && On(g, t, c);
    }
  }

  // ---------------------------------------------------------------------------
  // Finishing a node

  /** The top node has looked at all its children. */
  ghost predicate AtEnd(g: Digraph, s: Search) {
    && Searching(g, s) && s.control != []
    && var n := s.control[|s.control| - 1];
       n < |g| && n < |s.procChild| && s.procChild[n] == |g[n]|
  }

  /** The node leaves the control stack and passes its low link on to the one below. */
  function Leave(s: Search): Search
    requires s.control != [] && forall i {:trigger s.control[i]} :: 0 <= i < |s.control| ==> s.control[i] < |s.lowlink|
  {
    var n, rest := s.control[|s.control| - 1], s.control[..|s.control| - 1];
    if rest == [] then s.(control := rest)
    else
      assert rest[|rest| - 1] == s.control[|s.control| - 2];
      Lower(s.(control := rest), rest[|rest| - 1], s.lowlink[n])
  }

  /** A node with a lower link has someone below it on the control stack that it reaches. */
  lemma EscapesDown(g: Digraph, s: Search) returns (x: Node)
    requires AtEnd(g, s) && Sized(g, s) && s.lowlink[s.control[|s.control| - 1]] != s.num[s.control[|s.control| - 1]]
    ensures var n := s.control[|s.control| - 1];
            x in s.control[..|s.control| - 1] && On(g, s, x) && s.num[x] < s.num[n] && Reach(g, n, x)
  {
    var top := |s.control| - 1;
    var n := s.control[top];
    assert LowReached(g, s, top);
    var w: Node :| On(g, s, w) && s.num[w] == s.lowlink[n] && Reach(g, n, w);
    assert Upward(g, s, w);
    x :| x in s.control && On(g, s, x) && s.num[x] <= s.num[w] && Reach(g, w, x);
    ReachOn(g, n, w, x);
    var i :| 0 <= i < |s.control| && s.control[i] == x;
    assert i != top && s.control[..top][i] == x;
  }

  lemma LeaveUpward(g: Digraph, s: Search, v: Node)
    requires AtEnd(g, s) && Sized(g, s) && s.lowlink[s.control[|s.control| - 1]] != s.num[s.control[|s.control| - 1]]
    requires forall i {:trigger s.control[i]} :: 0 <= i < |s.control| ==> s.control[i] < |s.lowlink|
    ensures Upward(g, Leave(s), v)
  {
    hide Reach, LowBounds, LowReached, Downward, ProgressOk;
    var top := |s.control| - 1;
    var n := s.control[top];
    var t := Leave(s);
    var x := EscapesDown(g, s);
    if On(g, t, v) {
      assert On(g, s, v) && Upward(g, s, v);
      var y: Node :| y in s.control && On(g, s, y) && s.num[y] <= s.num[v] && Reach(g, v, y);
      if y == n {
        ReachOn(g, v, n, x);
        assert x in t.control && On(g, t, x);
      } else {
        var i :| 0 <= i < |s.control| && s.control[i] == y;
        assert s.control[..top][i] == y;
        assert y in t.control && On(g, t, y);
      }
    }
  }

  lemma LeaveBounds(g: Digraph, s: Search, i: nat, v: Node)
    requires AtEnd(g, s) && Sized(g, s) && i < |s.control| - 1
    requires forall i {:trigger s.control[i]} :: 0 <= i < |s.control| ==> s.control[i] < |s.lowlink|
    ensures LowBounds(g, Leave(s), i, v)
  {
    hide Reach;
    TopFacts(g, s);
    var top := |s.control| - 1;
    var t := Leave(s);
    if InSegment(g, t, i, v) {
      assert t.control[i] == s.control[i] && (i + 1 < top ==> t.control[i + 1] == s.control[i + 1]);
      assert On(g, s, s.control[i]) && On(g, s, v) && On(g, s, s.control[i + 1]);
      var j := if i == top - 1 && s.num[s.control[top]] <= s.num[v] then top else i;
      assert InSegment(g, s, j, v) && LowBounds(g, s, j, v);
      if i < top - 1 {
        assert s.num[s.control[i]] < s.num[s.control[top - 1]];
      }
      forall k | 0 <= k < t.procChild[v] && k < |g[v]| && On(g, t, g[v][k]) ensures t.lowlink[t.control[i]] <= t.num[g[v][k]] {
        assert On(g, s, g[v][k]);
      }
    }
  }

  lemma LeaveReached(g: Digraph, s: Search, i: nat)
    requires AtEnd(g, s) && Sized(g, s) && i < |s.control| - 1
    requires forall i {:trigger s.control[i]} :: 0 <= i < |s.control| ==> s.control[i] < |s.lowlink|
    ensures LowReached(g, Leave(s), i)
  {
    TopFacts(g, s);
    var top := |s.control| - 1;
    var t := Leave(s);
    var p, n := s.control[i], s.control[top];
    assert t.control[i] == p && LowReached(g, s, i) && LowReached(g, s, top);
    var w: Node :| On(g, s, w) && s.num[w] == s.lowlink[p] && Reach(g, p, w);
    var u: Node :| On(g, s, u) && s.num[u] == s.lowlink[n] && Reach(g, n, u);
    assert On(g, t, w) && On(g, t, u) && On(g, s, p) && On(g, s, n);
    assert s.num[p] < s.num[n];
    assert Downward(g, s, p, n);
    ReachOn(g, p, n, u);
    if i < top - 1 {
      assert s.num[p] < s.num[s.control[top - 1]];
    }
  }

  /** Finishing a node that is not the first of its component. */
  lemma LeaveKeeps(g: Digraph, s: Search)
    requires AtEnd(g, s) && Sized(g, s) && s.lowlink[s.control[|s.control| - 1]] != s.num[s.control[|s.control| - 1]]
    ensures forall i {:trigger s.control[i]} :: 0 <= i < |s.control| ==> s.control[i] < |s.lowlink|
    ensures Searching(g, Leave(s)) && Leave(s).control != []
  {
    hide Reach;
    TopFacts(g, s);
    var top := |s.control| - 1;
    var n := s.control[top];
    var t := Leave(s);
    var x := EscapesDown(g, s);
    assert forall v: Node {:trigger On(g, s, v)} {:trigger On(g, t, v)} :: On(g, s, v) <==> On(g, t, v);
    LeaveStacks(g, s);
    forall v: Node | v < |g| ensures ProgressOk(g, t, v) {
      LeaveProgress(g, s, v);
    }
    forall v: Node, w: Node ensures Downward(g, t, v, w) {
      assert Downward(g, s, v, w);
    }
    forall v: Node ensures Upward(g, t, v) {
      LeaveUpward(g, s, v);
    }
    forall i, v: Node | 0 <= i < |t.control| ensures LowBounds(g, t, i, v) {
      LeaveBounds(g, s, i, v);
    }
    forall i | 0 <= i < |t.control| ensures LowReached(g, t, i) {
      LeaveReached(g, s, i);
    }
  }

  lemma LeaveProgress(g: Digraph, s: Search, v: Node)
    requires AtEnd(g, s) && Sized(g, s) && v < |g| && forall i {:trigger s.control[i]} :: 0 <= i < |s.control| ==> s.control[i] < |s.lowlink|
    ensures ProgressOk(g, Leave(s), v)
  {
    hide Reach;
    TopFacts(g, s);
    var top := |s.control| - 1;
    assert ProgressOk(g, s, v);
    assert s.control == s.control[..top] + [s.control[top]];
  }

  lemma LeaveStacks(g: Digraph, s: Search)
    requires StacksOk(g, s) && s.control != [] && forall i {:trigger s.control[i]} :: 0 <= i < |s.control| ==> s.control[i] < |s.lowlink|
    ensures StacksOk(g, Leave(s))
  {
    var t := Leave(s);
    assert forall i {:trigger t.control[i]} :: 0 <= i < |t.control| ==> t.control[i] == s.control[i];
    assert forall v: Node {:trigger On(g, s, v)} {:trigger On(g, t, v)} :: On(g, s, v) <==> On(g, t, v);
  }

  // ---------------------------------------------------------------------------
  // A component

  /** The stack position of a node. */
  lemma StackPosition(g: Digraph, s: Search, n: Node) returns (p: nat)
    requires StacksOk(g, s) && On(g, s, n)
    ensures p < |s.stack| && s.stack[p] == n
    ensures forall i {:trigger s.stack[i]} :: 0 <= i < |s.stack| ==> On(g, s, s.stack[i]) && (s.num[s.stack[i]] < s.num[n] <==> i < p)
  {
    p :| 0 <= p < |s.stack| && s.stack[p] == n;
    forall i | 0 <= i < |s.stack| ensures On(g, s, s.stack[i]) && (s.num[s.stack[i]] < s.num[n] <==> i < p) {
      assert On(g, s, s.stack[i]);
      assert i < p ==> s.num[s.stack[i]] < s.num[s.stack[p]];
      assert p < i ==> s.num[s.stack[p]] < s.num[s.stack[i]];
    }
  }

  /** The nodes of `c` form a strongly connected component. */
  ghost predicate Component(g: Digraph, c: seq<Node>) {
    && c != [] && (forall i, j :: 0 <= i < j < |c| ==> c[i] != c[j])
    && (forall x {:trigger x in c} :: x in c ==> x < |g|)
    && (forall x: Node, y: Node {:trigger x in c, Mutual(g, x, y)} :: x in c ==> (y in c <==> Mutual(g, x, y)))
  }

  /** The top node closes a component: it has looked at everything, and nothing above it leads below. */
  ghost predicate AtRoot(g: Digraph, s: Search) {
    AtEnd(g, s) && Sized(g, s) && s.lowlink[s.control[|s.control| - 1]] == s.num[s.control[|s.control| - 1]]
  }

  /** Nodes from the root of a component on have looked at all their children. */
  lemma RootFull(g: Digraph, s: Search, v: Node)
    requires AtRoot(g, s) && On(g, s, v) && s.num[s.control[|s.control| - 1]] <= s.num[v]
    ensures s.procChild[v] == |g[v]|
  {
    TopFacts(g, s);
    var top := |s.control| - 1;
    var n := s.control[top];
    assert ProgressOk(g, s, v);
    if v != n {
      forall i | 0 <= i < |s.control| ensures s.control[i] != v {
        assert i == top || s.num[s.control[i]] < s.num[n];
      }
    }
  }

  /** Their children are among them or complete. */
  lemma RootChildren(g: Digraph, s: Search, v: Node, c: Node)
    requires AtRoot(g, s) && On(g, s, v) && s.num[s.control[|s.control| - 1]] <= s.num[v] && Edge(g, v, c)
    ensures c < |g| && (s.status[c] == Complete || (On(g, s, c) && s.num[s.control[|s.control| - 1]] <= s.num[c]))
  {
    hide Reach;
    TopFacts(g, s);
    RootFull(g, s, v);
    var top := |s.control| - 1;
    assert ProgressOk(g, s, v);
    var k :| 0 <= k < |g[v]| && g[v][k] == c;
    assert LowBounds(g, s, top, v);
    assert InSegment(g, s, top, v);
  }

  /** From the root of a component on, the stack holds the component. */
  lemma RootComponent(g: Digraph, s: Search, p: nat)
    requires AtRoot(g, s) && p < |s.stack| && s.stack[p] == s.control[|s.control| - 1]
    requires forall i {:trigger s.stack[i]} :: 0 <= i < |s.stack| ==> On(g, s, s.stack[i]) && (s.num[s.stack[i]] < s.num[s.stack[p]] <==> i < p)
    ensures Component(g, s.stack[p..])
  {
    hide Reach;
    TopFacts(g, s);
    var c := s.stack[p..];
    forall i, j | 0 <= i < j < |c| ensures c[i] != c[j] {
      assert s.num[s.stack[p + i]] < s.num[s.stack[p + j]];
    }
    forall x | x in c ensures x < |g| && On(g, s, x) && s.num[s.stack[p]] <= s.num[x] {
      var i :| 0 <= i < |c| && c[i] == x;
      assert s.stack[p + i] == x;
    }
    forall x: Node, y: Node | x in c ensures y in c <==> Mutual(g, x, y) {
      RootPair(g, s, p, x, y);
    }
  }

  /** Two nodes from the root on reach each other, and what reaches one back is one. */
  lemma RootPair(g: Digraph, s: Search, p: nat, x: Node, y: Node)
    requires AtRoot(g, s) && p < |s.stack| && s.stack[p] == s.control[|s.control| - 1] && On(g, s, s.stack[p])
    requires forall i {:trigger s.stack[i]} :: 0 <= i < |s.stack| ==> On(g, s, s.stack[i]) && (s.num[s.stack[i]] < s.num[s.stack[p]] <==> i < p)
    requires On(g, s, x) && s.num[s.stack[p]] <= s.num[x]
    ensures y in s.stack[p..] <==> Mutual(g, x, y)
  {
    hide Reach, Mutual, Sized, Searching;
    var c := s.stack[p..];
    if y in c {
      var i :| 0 <= i < |c| && c[i] == y;
      assert s.stack[p + i] == y;
      RootMutual(g, s, x);
      RootMutual(g, s, y);
      MutualOn(g, x, s.stack[p], y);
    }
    if Mutual(g, x, y) {
      RootMaximal(g, s, x, y);
      var i :| 0 <= i < |s.stack| && s.stack[i] == y;
      assert c[i - p] == y;
    }
  }

  lemma RootMutual(g: Digraph, s: Search, x: Node)
    requires AtRoot(g, s) && On(g, s, x) && s.num[s.control[|s.control| - 1]] <= s.num[x]
    ensures Mutual(g, x, s.control[|s.control| - 1]) && Mutual(g, s.control[|s.control| - 1], x)
  {
    TopFacts(g, s);
    AllReachTop(g, s, x);
    assert Downward(g, s, s.control[|s.control| - 1], x);
  }

  lemma RootMaximal(g: Digraph, s: Search, x: Node, y: Node)
    requires AtRoot(g, s) && On(g, s, x) && s.num[s.control[|s.control| - 1]] <= s.num[x] && Mutual(g, x, y)
    ensures On(g, s, y) && s.num[s.control[|s.control| - 1]] <= s.num[y] && y in s.stack
  {
    var n := s.control[|s.control| - 1];
    var black := set v | 0 <= v < |g| && s.status[v] == Complete;
    var both := black + set v | 0 <= v < |g| && On(g, s, v) && s.num[n] <= s.num[v];
    assert Closed(g, black) by {
      forall v: Node, c: Node | v in black && Edge(g, v, c) ensures c in black {
        assert ProgressOk(g, s, v);
      }
    }
    assert Closed(g, both) by {
      forall v: Node, c: Node | v in both && Edge(g, v, c) ensures c in both {
        if v in black {
          assert ProgressOk(g, s, v);
        } else {
          RootChildren(g, s, v, c);
        }
      }
    }
    ReachStays(g, both, x, y);
    if y in black {
      ReachStays(g, black, y, x);
    }
  }

  /** The component is taken off the stack and marked. */
  function MarkAll(status: seq<NStatus>, c: seq<Node>): (r: seq<NStatus>)
    ensures |r| == |status|
    ensures forall v {:trigger r[v]} :: 0 <= v < |status| ==> r[v] == if v in c then Complete else status[v]
  {
    seq(|status|, v requires 0 <= v < |status| => if v in c then Complete else status[v])
  }

  function Close(s: Search, p: nat): Search
    requires p <= |s.stack| && s.control != [] && forall i {:trigger s.control[i]} :: 0 <= i < |s.control| ==> s.control[i] < |s.lowlink|
  {
    Leave(s).(stack := s.stack[..p], status := MarkAll(s.status, s.stack[p..]))
  }

  /** What is known of the stack position of the component's root. */
  ghost predicate RootAt(g: Digraph, s: Search, p: nat) {
    && AtRoot(g, s) && p < |s.stack| && s.stack[p] == s.control[|s.control| - 1]
    && (forall i {:trigger s.stack[i]} :: 0 <= i < |s.stack| ==> On(g, s, s.stack[i]) && (s.num[s.stack[i]] < s.num[s.stack[p]] <==> i < p))
    && forall i {:trigger s.control[i]} :: 0 <= i < |s.control| ==> On(g, s, s.control[i]) && s.control[i] < |s.lowlink|
  }

  lemma CloseOn(g: Digraph, s: Search, p: nat, v: Node)
    requires RootAt(g, s, p)
    ensures On(g, Close(s, p), v) <==> On(g, s, v) && s.num[v] < s.num[s.stack[p]]
    ensures v < |g| ==> (v in s.stack[p..] <==> On(g, s, v) && s.num[s.stack[p]] <= s.num[v])
  {
    hide Reach, Searching, Component;
    OnFrom(g, s, p, v);
  }

  /** The stack from the root on holds exactly the younger nodes. */
  lemma OnFrom(g: Digraph, s: Search, p: nat, v: Node)
    requires RootAt(g, s, p)
    ensures v in s.stack[p..] <==> On(g, s, v) && s.num[s.stack[p]] <= s.num[v]
  {
    hide Reach, Component, LowBounds, LowReached, Downward, Upward, ProgressOk;
    if On(g, s, v) {
      assert v in s.stack;
      var i :| 0 <= i < |s.stack| && s.stack[i] == v;
      assert i >= p ==> s.stack[p..][i - p] == v;
    }
    if v in s.stack[p..] {
      var i :| 0 <= i < |s.stack[p..]| && s.stack[p..][i] == v;
      assert s.stack[p + i] == v;
    }
  }

  lemma CloseStacks(g: Digraph, s: Search, p: nat)
    requires RootAt(g, s, p)
    ensures StacksOk(g, Close(s, p))
  {
    var t := Close(s, p);
    var top := |s.control| - 1;
    forall v: Node ensures On(g, t, v) <==> On(g, s, v) && s.num[v] < s.num[s.stack[p]] { CloseOn(g, s, p, v); }
    forall i | 0 <= i < |t.stack| ensures On(g, t, t.stack[i]) && t.stack[i] == s.stack[i] {
    }
    forall v: Node | On(g, t, v) ensures v in t.stack {
      var i :| 0 <= i < |s.stack| && s.stack[i] == v;
      assert t.stack[i] == v;
    }
    forall i | 0 <= i < |t.control| ensures t.control[i] == s.control[i] && t.control[i] in t.stack {
      assert s.num[s.control[i]] < s.num[s.control[top]];
      assert On(g, t, s.control[i]);
    }
  }

  lemma CloseProgress(g: Digraph, s: Search, p: nat, v: Node)
    requires RootAt(g, s, p) && v < |g|
    ensures ProgressOk(g, Close(s, p), v)
  {
    hide Reach, LowBounds, LowReached, Downward, Upward, StacksOk, InSegment, ProgressOk;
    var t := Close(s, p);
    assert ProgressOk(g, s, v);
    CloseOn(g, s, p, v);
    if v in s.stack[p..] {
      CloseMember(g, s, p, v);
    } else {
      CloseOther(g, s, t, s.stack[p..], v);
    }
  }

  lemma CloseMember(g: Digraph, s: Search, p: nat, v: Node)
    requires RootAt(g, s, p) && v < |g| && v in s.stack[p..] && On(g, s, v) && s.num[s.stack[p]] <= s.num[v]
    ensures ProgressOk(g, Close(s, p), v)
  {
    hide Reach, LowBounds, LowReached, Downward, Upward, StacksOk, InSegment;
    var t := Close(s, p);
    assert ProgressOk(g, s, v);
    RootFull(g, s, v);
    forall c | c in g[v] ensures c < |g| && t.status[c] == Complete {
      RootChildren(g, s, v, c);
      CloseOn(g, s, p, c);
    }
  }

  /** A node outside the component keeps its progress; it may only lose the top of the control stack. */
  lemma CloseOther(g: Digraph, s: Search, t: Search, c: seq<Node>, v: Node)
    requires Sized(g, s) && Sized(g, t) && v < |g| && ProgressOk(g, s, v) && v !in c && s.control != []
    requires t.procChild == s.procChild && t.status == MarkAll(s.status, c)
    requires t.control == s.control[..|s.control| - 1] && s.control[|s.control| - 1] in c
    ensures ProgressOk(g, t, v)
  {
    assert s.control == s.control[..|s.control| - 1] + [s.control[|s.control| - 1]];
  }

  lemma CloseBounds(g: Digraph, s: Search, p: nat, i: nat, v: Node)
    requires RootAt(g, s, p) && i < |s.control| - 1
    ensures LowBounds(g, Close(s, p), i, v) && LowReached(g, Close(s, p), i)
  {
    hide Reach;
    var top := |s.control| - 1;
    var n := s.control[top];
    var t := Close(s, p);
    assert t.control[i] == s.control[i];
    CloseOn(g, s, p, s.control[i]);
    CloseOn(g, s, p, v);
    assert s.num[s.control[i]] < s.num[n];
    assert LowReached(g, s, i) && LowBounds(g, s, i, v);
    assert s.num[s.control[top - 1]] < s.num[n] && LowReached(g, s, top - 1);
    assert t.lowlink[s.control[i]] == s.lowlink[s.control[i]];
    var w: Node :| On(g, s, w) && s.num[w] == s.lowlink[s.control[i]] && Reach(g, s.control[i], w);
    CloseOn(g, s, p, w);
    if InSegment(g, t, i, v) {
      CloseSegment(g, s, p, i, v);
      forall k | 0 <= k < t.procChild[v] && k < |g[v]| && On(g, t, g[v][k]) ensures t.lowlink[t.control[i]] <= t.num[g[v][k]] {
        CloseOn(g, s, p, g[v][k]);
      }
    }
  }

  lemma CloseSegment(g: Digraph, s: Search, p: nat, i: nat, v: Node)
    requires RootAt(g, s, p) && i < |s.control| - 1 && InSegment(g, Close(s, p), i, v)
    ensures InSegment(g, s, i, v)
  {
    var t := Close(s, p);
    CloseOn(g, s, p, v);
    assert t.control[i] == s.control[i];
    assert i + 1 < |s.control| - 1 ==> t.control[i + 1] == s.control[i + 1];
  }

  /** Closing a component. */
  lemma CloseKeeps(g: Digraph, s: Search, p: nat)
    requires RootAt(g, s, p)
    ensures Searching(g, Close(s, p))
  {
    hide Reach, LowBounds, LowReached, ProgressOk;
    var t := Close(s, p);
    CloseStacks(g, s, p);
    forall v: Node | v < |g| ensures ProgressOk(g, t, v) { CloseProgress(g, s, p, v); }
    forall v: Node, w: Node ensures Downward(g, t, v, w) {
      CloseOn(g, s, p, v);
      CloseOn(g, s, p, w);
      assert Downward(g, s, v, w);
    }
    forall v: Node ensures Upward(g, t, v) { CloseUpward(g, s, p, v); }
    forall i, v: Node | 0 <= i < |t.control| ensures LowBounds(g, t, i, v) { CloseBounds(g, s, p, i, v); }
    forall i | 0 <= i < |t.control| ensures LowReached(g, t, i) { CloseBounds(g, s, p, i, 0); }
  }

  lemma CloseUpward(g: Digraph, s: Search, p: nat, v: Node)
    requires RootAt(g, s, p)
    ensures Upward(g, Close(s, p), v)
  {
    hide Reach, LowBounds, LowReached, Downward, ProgressOk;
    var top := |s.control| - 1;
    var t := Close(s, p);
    CloseOn(g, s, p, v);
    if On(g, t, v) {
      assert Upward(g, s, v);
      var x: Node :| x in s.control && On(g, s, x) && s.num[x] <= s.num[v] && Reach(g, v, x);
      CloseOn(g, s, p, x);
      StillControlled(s, p, x);
    }
  }

  lemma StillControlled(s: Search, p: nat, x: Node)
    requires s.control != [] && p < |s.stack| && x in s.control && x != s.control[|s.control| - 1] && s.control[|s.control| - 1] < |s.lowlink|
    requires forall i {:trigger s.control[i]} :: 0 <= i < |s.control| ==> s.control[i] < |s.lowlink|
    ensures x in Close(s, p).control
  {
    var i :| 0 <= i < |s.control| && s.control[i] == x;
    assert Close(s, p).control[i] == x;
  }

  /** With the control stack empty nothing is on the stack. */
  lemma NothingLeft(g: Digraph, s: Search)
    requires Searching(g, s) && s.control == []
    ensures Resting(g, s)
  {
    assert |s.stack| > 0 ==> On(g, s, s.stack[0]);
    forall v: Node | v < |g| ensures ProgressOk(g, s, v) && s.status[v] != InStack {
      assert ProgressOk(g, s, v) && Upward(g, s, v);
      assert !On(g, s, v);
    }
  }
}
