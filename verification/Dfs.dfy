/** The invariant of the solver's depth-first walks with an explicit stack: a node stays on the stack
    while what it depends on is worked off above it. */
module Dfs {

  /** `univ` is closed under successors, and `rank` decreases along them. */
  ghost predicate Descending<T(!new)>(succ: T -> seq<T>, rank: T -> nat, univ: set<T>) {
    forall x, y {:trigger y in succ(x)} :: x in univ && y in succ(x) ==> y in univ && rank(y) < rank(x)
  }

  /** `flags` marks the stack positions whose node is being expanded, `open` holds these nodes, and
      `done` the finished ones. */
  ghost predicate Walking<T(!new)>(succ: T -> seq<T>, rank: T -> nat, univ: set<T>, root: T,
                                   stack: seq<T>, flags: seq<bool>, open: set<T>, done: set<T>) {
    && |flags| == |stack| && open <= univ && done <= univ && open !! done
    && (forall i {:trigger stack[i]} :: 0 <= i < |stack| ==> stack[i] in univ)
    && (forall i {:trigger flags[i]} :: 0 <= i < |stack| && flags[i] ==> stack[i] in open)
    && (forall x {:trigger x in open} :: x in open ==> exists i :: 0 <= i < |stack| && flags[i] && stack[i] == x)
    // whatever lies above an expanded node ranks below it
    && (forall i, j {:trigger flags[i], stack[j]} :: 0 <= i < j < |stack| && flags[i] ==> rank(stack[j]) < rank(stack[i]))
    // the successors of an expanded node are done or waiting above it
    && (forall i, y {:trigger flags[i], y in succ(stack[i])} :: 0 <= i < |stack| && flags[i] && y in succ(stack[i]) ==>
          y in done || exists j :: i < j < |stack| && stack[j] == y)
    && (forall x, y {:trigger y in succ(x)} :: x in done && y in succ(x) ==> y in done)
    && (root in done || (stack != [] && stack[0] == root))
  }

  lemma Start<T(!new)>(succ: T -> seq<T>, rank: T -> nat, univ: set<T>, root: T)
    requires root in univ
    ensures Walking(succ, rank, univ, root, [root], [false], {}, {})
  {
  }

  /** What is known about the node on top of the stack. */
  lemma Top<T(!new)>(succ: T -> seq<T>, rank: T -> nat, univ: set<T>, root: T,
                     stack: seq<T>, flags: seq<bool>, open: set<T>, done: set<T>)
    requires Descending(succ, rank, univ) && Walking(succ, rank, univ, root, stack, flags, open, done) && stack != []
    ensures var x := stack[|stack| - 1];
            && x in univ && |flags| == |stack| && (x in open <==> flags[|stack| - 1])
            && (forall y {:trigger y in succ(x)} :: y in succ(x) ==> y in univ && y !in open && (x in open ==> y in done))
  {
    var top := |stack| - 1;
    var x := stack[top];
    if x in open {
      var i :| 0 <= i < |stack| && flags[i] && stack[i] == x;
      assert !(i < top);
    }
    forall y | y in succ(x) ensures y in univ && y !in open {
      forall i | 0 <= i < |stack| && flags[i] ensures stack[i] != y {
        assert rank(y) < rank(x) && (i == top || rank(x) < rank(stack[i]));
      }
    }
  }

  lemma Apart<T(!new)>(succ: T -> seq<T>, rank: T -> nat, univ: set<T>, root: T,
                       stack: seq<T>, flags: seq<bool>, open: set<T>, done: set<T>)
    requires Walking(succ, rank, univ, root, stack, flags, open, done)
    ensures open <= univ && done <= univ && open !! done
  {
  }

  /** Dropping a finished node. */
  lemma Pop<T(!new)>(succ: T -> seq<T>, rank: T -> nat, univ: set<T>, root: T,
                     stack: seq<T>, flags: seq<bool>, open: set<T>, done: set<T>)
    requires Descending(succ, rank, univ) && Walking(succ, rank, univ, root, stack, flags, open, done)
    requires stack != [] && stack[|stack| - 1] in done
    ensures Walking(succ, rank, univ, root, stack[..|stack| - 1], flags[..|stack| - 1], open, done)
  {
    var top := |stack| - 1;
    var stack', flags' := stack[..top], flags[..top];
    Top(succ, rank, univ, root, stack, flags, open, done);
    forall x | x in open ensures exists i :: 0 <= i < |stack'| && flags'[i] && stack'[i] == x {
      var i :| 0 <= i < |stack| && flags[i] && stack[i] == x;
      assert flags'[i] && stack'[i] == x;
    }
    forall i, y | 0 <= i < |stack'| && flags'[i] && y in succ(stack'[i])
      ensures y in done || exists j :: i < j < |stack'| && stack'[j] == y
    {
      assert flags[i] && y in succ(stack[i]);
      if y !in done {
        var j :| i < j < |stack| && stack[j] == y;
        assert stack'[j] == y;
      }
    }
  }

  /** Finishing the node on top of the stack, once its successors are done. */
  lemma Finish<T(!new)>(succ: T -> seq<T>, rank: T -> nat, univ: set<T>, root: T,
                        stack: seq<T>, flags: seq<bool>, open: set<T>, done: set<T>)
    requires Descending(succ, rank, univ) && Walking(succ, rank, univ, root, stack, flags, open, done) && stack != []
    requires forall y {:trigger y in succ(stack[|stack| - 1])} :: y in succ(stack[|stack| - 1]) ==> y in done
    ensures var x := stack[|stack| - 1];
            Walking(succ, rank, univ, root, stack[..|stack| - 1], flags[..|stack| - 1], open - {x}, done + {x})
  {
    var top := |stack| - 1;
    var x := stack[top];
    var stack', flags' := stack[..top], flags[..top];
    forall z | z in open - {x} ensures exists i :: 0 <= i < |stack'| && flags'[i] && stack'[i] == z {
      var i :| 0 <= i < |stack| && flags[i] && stack[i] == z;
      assert flags'[i] && stack'[i] == z;
    }
    forall i | 0 <= i < |stack'| && flags'[i] ensures stack'[i] in open - {x} {
      assert flags[i] && rank(stack[top]) < rank(stack[i]);
    }
    forall i, y | 0 <= i < |stack'| && flags'[i] && y in succ(stack'[i])
      ensures y in done + {x} || exists j :: i < j < |stack'| && stack'[j] == y
    {
      assert flags[i] && y in succ(stack[i]);
      if y !in done + {x} {
        var j :| i < j < |stack| && stack[j] == y;
        assert stack'[j] == y;
      }
    }
  }

  /** What the walk pushes above a node it expands: its successors, except some that are done. */
  ghost predicate Pushed<T(!new)>(succ: T -> seq<T>, x: T, done: set<T>, above: seq<T>) {
    && (forall y {:trigger y in above} :: y in above ==> y in succ(x))
    && (forall y {:trigger y in succ(x)} :: y in succ(x) && y !in done ==> y in above)
  }

  lemma ExpandBelow<T(!new)>(succ: T -> seq<T>, rank: T -> nat, univ: set<T>, root: T,
                             stack: seq<T>, flags: seq<bool>, open: set<T>, done: set<T>, above: seq<T>, i: nat, j: nat)
    requires Descending(succ, rank, univ) && Walking(succ, rank, univ, root, stack, flags, open, done) && stack != []
    requires Pushed(succ, stack[|stack| - 1], done, above)
    requires i < j < |stack| + |above| && i < |stack| && (i == |stack| - 1 || flags[i])
    ensures (stack + above)[j] in univ && rank((stack + above)[j]) < rank(stack[i])
  {
    var top := |stack| - 1;
    if j > top {
      assert (stack + above)[j] == above[j - |stack|];
      assert above[j - |stack|] in above;
      assert i < top ==> rank(stack[top]) < rank(stack[i]);
    }
  }

  lemma ExpandWaiting<T(!new)>(succ: T -> seq<T>, rank: T -> nat, univ: set<T>, root: T,
                               stack: seq<T>, flags: seq<bool>, open: set<T>, done: set<T>, above: seq<T>, i: nat, y: T)
    requires Walking(succ, rank, univ, root, stack, flags, open, done) && stack != []
    requires Pushed(succ, stack[|stack| - 1], done, above)
    requires i < |stack| && (i == |stack| - 1 || flags[i]) && y in succ(stack[i]) && y !in done
    ensures exists j :: i < j < |stack| + |above| && (stack + above)[j] == y
  {
    if i == |stack| - 1 {
      var k :| 0 <= k < |above| && above[k] == y;
      assert (stack + above)[|stack| + k] == y;
    } else {
      var j :| i < j < |stack| && stack[j] == y;
      assert (stack + above)[j] == y;
    }
  }

  /** Expanding the node on top of the stack. */
  lemma Expand<T(!new)>(succ: T -> seq<T>, rank: T -> nat, univ: set<T>, root: T,
                        stack: seq<T>, flags: seq<bool>, open: set<T>, done: set<T>, above: seq<T>)
    requires Descending(succ, rank, univ) && Walking(succ, rank, univ, root, stack, flags, open, done) && stack != []
    requires var x := stack[|stack| - 1]; x !in open && x !in done && Pushed(succ, x, done, above)
    ensures var x := stack[|stack| - 1];
            Walking(succ, rank, univ, root, stack + above, flags[|stack| - 1 := true] + seq(|above|, i => false), open + {x}, done)
  {
    var top := |stack| - 1;
    var x := stack[top];
    var stack', flags' := stack + above, flags[top := true] + seq(|above|, i => false);
    forall j | 0 <= j < |stack'| ensures stack'[j] in univ {
      if j >= |stack| { ExpandBelow(succ, rank, univ, root, stack, flags, open, done, above, top, j); }
    }
    forall z | z in open + {x} ensures exists i :: 0 <= i < |stack'| && flags'[i] && stack'[i] == z {
      var i :| 0 <= i < |stack| && (i == top || flags[i]) && stack[i] == z;
      assert flags'[i] && stack'[i] == z;
    }
    forall i, j | 0 <= i < j < |stack'| && flags'[i] ensures rank(stack'[j]) < rank(stack'[i]) {
      ExpandBelow(succ, rank, univ, root, stack, flags, open, done, above, i, j);
    }
    forall i, y | 0 <= i < |stack'| && flags'[i] && y in succ(stack'[i]) && y !in done
      ensures exists j :: i < j < |stack'| && stack'[j] == y
    {
      ExpandWaiting(succ, rank, univ, root, stack, flags, open, done, above, i, y);
    }
  }

  /** When the stack is empty, everything the root leads to is done. */
  lemma Finished<T(!new)>(succ: T -> seq<T>, rank: T -> nat, univ: set<T>, root: T, flags: seq<bool>, open: set<T>, done: set<T>)
    requires Walking(succ, rank, univ, root, [], flags, open, done)
    ensures root in done && done <= univ
    ensures forall x, y {:trigger y in succ(x)} :: x in done && y in succ(x) ==> y in done
  {
  }

  /** Nodes not yet expanded count twice, nodes being expanded once. */
  ghost function Work<T>(univ: set<T>, open: set<T>, done: set<T>): nat {
    |univ - done| + |univ - done - open|
  }

  lemma WorkShrinks<T>(univ: set<T>, open: set<T>, done: set<T>, x: T)
    requires x in univ && x !in done
    ensures Work(univ, open - {x}, done + {x}) < Work(univ, open, done)
    ensures x !in open ==> Work(univ, open + {x}, done) < Work(univ, open, done)
  {
    assert univ - (done + {x}) == (univ - done) - {x};
    var white := univ - done - open;
    assert univ - (done + {x}) - (open - {x}) == white - {x};
    assert univ - done - (open + {x}) == white - {x};
    assert |white - {x}| <= |white|;
  }
}
