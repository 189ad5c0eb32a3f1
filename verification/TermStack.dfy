/** Depth-first walks over a term with an explicit stack: each entry counts the children it has looked at. */
module TermStacks {
  import opened Terms

  datatype Entry = Entry(term: Term, next: nat)

  /** What is left to do for the entries of a stack. */
  ghost function WorkLeft(stack: seq<Entry>): nat {
    if stack == [] then 0 else Left(stack[|stack| - 1]) + WorkLeft(stack[..|stack| - 1])
  }

  ghost function Left(e: Entry): (n: nat)
    ensures n > 0
  {
    1 + if e.next <= |Children(e.term)| then 2 * SizeAll(Children(e.term)[e.next..]) else 0
  }

  lemma LeftDrops(e: Entry)
    requires e.next < |Children(e.term)|
    ensures Left(Entry(e.term, e.next + 1)) + Left(Entry(Children(e.term)[e.next], 0)) < Left(e)
  {
    var cs := Children(e.term);
    var c := cs[e.next];
    assert cs[e.next..][0] == c && cs[e.next..][1..] == cs[e.next + 1..];
    SizeOfChildren(c);
    assert Children(c)[0..] == Children(c);
  }

  lemma WorkPush(stack: seq<Entry>, e: Entry)
    ensures WorkLeft(stack + [e]) == WorkLeft(stack) + Left(e)
  {
    assert (stack + [e])[..|stack|] == stack;
  }

  /** Each entry waits for the child above it, and is done with the children before. */
  ghost predicate EntryOk(stack: seq<Entry>, marked: set<Term>, i: nat)
    requires i < |stack|
  {
    var e := stack[i];
    && e.term !in marked && e.next <= |Children(e.term)|
    && (i + 1 < |stack| ==> e.next > 0 && stack[i + 1].term == Children(e.term)[e.next - 1])
    && forall j {:trigger Children(e.term)[j]} :: 0 <= j < (if i + 1 < |stack| then e.next - 1 else e.next) ==> Children(e.term)[j] in marked
  }

  ghost predicate StackOk(stack: seq<Entry>, marked: set<Term>) {
    forall i {:trigger EntryOk(stack, marked, i)} :: 0 <= i < |stack| ==> EntryOk(stack, marked, i)
  }

  lemma {:induction false} StackShrinks(stack: seq<Entry>, marked: set<Term>, i: nat, j: nat)
    requires StackOk(stack, marked) && i < j < |stack|
    ensures Size(stack[j].term) < Size(stack[i].term)
    decreases j - i
  {
    assert EntryOk(stack, marked, i);
    ChildIsSmaller(stack[i].term, stack[i + 1].term);
    if i + 1 < j { StackShrinks(stack, marked, i + 1, j); }
  }

  lemma NextEntry(stack: seq<Entry>, marked: set<Term>, e: Entry, stack': seq<Entry>)
    requires StackOk(stack, marked) && stack != [] && e == stack[|stack| - 1] && e.next < |Children(e.term)|
    requires var c := Children(e.term)[e.next];
             stack' == stack[|stack| - 1 := Entry(e.term, e.next + 1)] + (if c in marked then [] else [Entry(c, 0)])
    ensures StackOk(stack', marked) && WorkLeft(stack') < WorkLeft(stack)
  {
    hide Left, WorkLeft;
    var top := |stack| - 1;
    assert EntryOk(stack, marked, top);
    forall i | 0 <= i < |stack'| ensures EntryOk(stack', marked, i) {
      if i < top { assert EntryOk(stack, marked, i); }
    }
    NextWork(stack, e, stack', Children(e.term)[e.next] in marked);
  }

  lemma NextWork(stack: seq<Entry>, e: Entry, stack': seq<Entry>, skip: bool)
    requires stack != [] && e == stack[|stack| - 1] && e.next < |Children(e.term)|
    requires stack' == stack[|stack| - 1 := Entry(e.term, e.next + 1)] + (if skip then [] else [Entry(Children(e.term)[e.next], 0)])
    ensures WorkLeft(stack') < WorkLeft(stack)
  {
    hide Left, WorkLeft;
    var rest := stack[..|stack| - 1];
    var mid := rest + [Entry(e.term, e.next + 1)];
    assert stack == rest + [e] && stack' == mid + (if skip then [] else [Entry(Children(e.term)[e.next], 0)]);
    WorkPush(rest, e);
    WorkPush(rest, Entry(e.term, e.next + 1));
    LeftDrops(e);
    WorkPush(mid, Entry(Children(e.term)[e.next], 0));
    if skip { assert stack' == mid; }
  }

  lemma PopEntry(stack: seq<Entry>, marked: set<Term>)
    requires StackOk(stack, marked) && stack != []
    ensures StackOk(stack[..|stack| - 1], marked + {stack[|stack| - 1].term}) && WorkLeft(stack[..|stack| - 1]) < WorkLeft(stack)
  {
    hide EntryOk, Left;
    var top := |stack| - 1;
    forall i | 0 <= i < top ensures EntryOk(stack[..top], marked + {stack[top].term}, i) {
      BelowPopped(stack, marked, i);
    }
  }

  lemma BelowPopped(stack: seq<Entry>, marked: set<Term>, i: nat)
    requires StackOk(stack, marked) && i < |stack| - 1
    ensures EntryOk(stack[..|stack| - 1], marked + {stack[|stack| - 1].term}, i)
  {
    var top := |stack| - 1;
    var rest := stack[..top];
    assert EntryOk(stack, marked, i) && rest[i] == stack[i];
    assert i + 1 < |rest| ==> rest[i + 1] == stack[i + 1];
    StackShrinks(stack, marked, i, top);
  }

  lemma TopOk(stack: seq<Entry>, marked: set<Term>)
    requires StackOk(stack, marked) && stack != []
    ensures var e := stack[|stack| - 1];
            && e.term !in marked && e.next <= |Children(e.term)|
            && forall j {:trigger Children(e.term)[j]} :: 0 <= j < e.next ==> Children(e.term)[j] in marked
  {
    assert EntryOk(stack, marked, |stack| - 1);
  }
}
