/** Runs of the substitution pass: the states it goes through, what it returns, and when it keeps the models
    of its input. */
module SubstRuns {
  import opened Terms
  import opened Rewriters
  import opened SubstClosures
  import opened SubstFacts
  import opened SubstRetrieval
  import opened SubstPasses

  // ---------------------------------------------------------------------------
  // Runs

  datatype PassState = PassState(root: Term, all: map<Term, Term>, dropped: Dropped)

  /** The closed substitutions of a round: facts are collected, all their candidates but those given up to
      break loops are retrieved, and the retrieved ones are closed. */
  ghost predicate Round(l: Logic, root: Term, closed: map<Term, Term>) {
    exists keys, facts, m, rank {:trigger FactsFound(l, root, keys, facts), Closing(l, m, closed, rank, Leaves(root))} ::
      && FactsFound(l, root, keys, facts) && Retrieved(l, keys, facts, m, rank, Leaves(root)) && Complete(l, keys, facts, m)
      && Closing(l, m, closed, rank, Leaves(root)) && IsClosed(closed)
  }

  /** What a round makes of a state; substitutions for recorded keys are dropped. */
  ghost function After(l: Logic, s: PassState, closed: map<Term, Term>): PassState {
    PassState(Rw(l, closed, s.root).term, closed + s.all, s.dropped + Dropping(s.all, closed))
  }

  ghost predicate StepAt(l: Logic, trace: seq<PassState>, i: nat)
    requires 0 < i < |trace|
  {
    exists closed {:trigger Round(l, trace[i - 1].root, closed)} :: Round(l, trace[i - 1].root, closed) && trace[i] == After(l, trace[i - 1], closed)
  }

  ghost predicate IsRun(l: Logic, fla: Term, trace: seq<PassState>) {
    && trace != [] && trace[0] == PassState(fla, map[], {})
    && forall i {:trigger StepAt(l, trace, i)} :: 0 < i < |trace| ==> StepAt(l, trace, i)
  }

  ghost function Last(trace: seq<PassState>): PassState
    requires trace != []
  {
    trace[|trace| - 1]
  }

  lemma RunLonger(l: Logic, fla: Term, trace: seq<PassState>, closed: map<Term, Term>)
    requires IsRun(l, fla, trace) && Round(l, Last(trace).root, closed)
    ensures IsRun(l, fla, trace + [After(l, Last(trace), closed)])
  {
    hide Round, After;
    var longer := trace + [After(l, Last(trace), closed)];
    forall i | 0 < i < |longer| ensures StepAt(l, longer, i) {
      if i < |trace| {
        SameStep(l, trace, longer, i);
      } else {
        assert longer[i - 1] == Last(trace) && Round(l, longer[i - 1].root, closed);
      }
    }
  }

  lemma SameStep(l: Logic, a: seq<PassState>, b: seq<PassState>, i: nat)
    requires 0 < i < |a| && i < |b| && a[i] == b[i] && a[i - 1] == b[i - 1]
    ensures StepAt(l, a, i) == StepAt(l, b, i)
  {
    hide Round, After;
  }

  lemma RunShorter(l: Logic, fla: Term, trace: seq<PassState>)
    requires IsRun(l, fla, trace) && |trace| > 1
    ensures IsRun(l, fla, trace[..|trace| - 1])
    ensures exists closed {:trigger Round(l, trace[|trace| - 2].root, closed)} :: Round(l, trace[|trace| - 2].root, closed) && Last(trace) == After(l, trace[|trace| - 2], closed)
  {
    hide Round, After;
    var shorter := trace[..|trace| - 1];
    forall i | 0 < i < |shorter| ensures StepAt(l, shorter, i) {
      SameStep(l, trace, shorter, i);
    }
    assert StepAt(l, trace, |trace| - 1);
    var s := trace[|trace| - 2];
    var closed :| Round(l, s.root, closed) && Last(trace) == After(l, s, closed);
  }

  lemma RoundIsOk(l: Logic, root: Term, closed: map<Term, Term>)
    requires Simplifies(l) && Built(l, root) && Round(l, root, closed)
    ensures RoundOk(l, root, closed)
  {
    hide Simplifies, Built, Leaves, Good, FactsFound, Retrieved, Complete, Closing, RoundOk, IsClosed;
    var keys, facts, m, rank :| FactsFound(l, root, keys, facts) && Retrieved(l, keys, facts, m, rank, Leaves(root)) && Complete(l, keys, facts, m)
      && Closing(l, m, closed, rank, Leaves(root)) && IsClosed(closed);
    FactsOfRoot(l, root, keys, facts);
    RoundFound(l, root, keys, facts, m, rank, closed);
  }

  /** Every state of a run stands for the input. */
  lemma {:induction false} RunPasses(l: Logic, fla: Term, trace: seq<PassState>) returns (rank: map<Term, nat>)
    requires Simplifies(l) && Built(l, fla) && IsBool(l, fla) && IsRun(l, fla, trace)
    ensures Passing(l, fla, Last(trace).root, Last(trace).all, rank, Last(trace).dropped)
    decreases |trace|
  {
    hide Simplifies, Built, IsBool, Passing, RoundOk, Rw, Round, StepAt;
    if |trace| == 1 {
      PassStarts(l, fla);
      rank := map[];
    } else {
      RunShorter(l, fla, trace);
      var s := trace[|trace| - 2];
      var before := RunPasses(l, fla, trace[..|trace| - 1]);
      var closed :| Round(l, s.root, closed) && Last(trace) == After(l, s, closed);
      PassingParts(l, fla, s.root, s.all, before, s.dropped);
      RoundIsOk(l, s.root, closed);
      RoundKeeps(l, fla, s.root, s.all, before, s.dropped, closed);
      rank := Shifted(s.all, before, closed);
    }
  }

  // ---------------------------------------------------------------------------
  // A key that is met again

  /** The guard that makes the pass drop a substitution fires, for another target than the recorded one. */
  ghost predicate MetAgain(l: Logic, s: PassState, closed: map<Term, Term>, k: Term) {
    Round(l, s.root, closed) && k in closed && k in s.all && closed[k] != s.all[k]
  }

  /** In some round of a run on the formula. */
  ghost predicate Redefines(l: Logic, fla: Term) {
    exists trace, closed, k {:trigger IsRun(l, fla, trace), MetAgain(l, Last(trace), closed, k)} :: IsRun(l, fla, trace) && MetAgain(l, Last(trace), closed, k)
  }

  /** What a run dropped for another target was met again in one of its rounds. */
  lemma {:induction false} LostIsRedefined(l: Logic, fla: Term, trace: seq<PassState>, d: (Term, Term))
    requires IsRun(l, fla, trace) && d in Last(trace).dropped
    ensures d.0 in Last(trace).all && (Last(trace).all[d.0] != d.1 ==> Redefines(l, fla))
    decreases |trace|
  {
    hide Rw, Round, StepAt;
    if |trace| > 1 {
      RunShorter(l, fla, trace);
      var shorter, s := trace[..|trace| - 1], trace[|trace| - 2];
      assert Last(shorter) == s;
      var closed :| Round(l, s.root, closed) && Last(trace) == After(l, s, closed);
      if d in s.dropped {
        LostIsRedefined(l, fla, shorter, d);
      } else {
        assert d in Dropping(s.all, closed);
        assert s.all[d.0] != d.1 ==> MetAgain(l, Last(shorter), closed, d.0);
      }
    }
  }

  /** A formula in which a key is met again with another target has no model. */
  lemma RedefinedRefutes(l: Logic, fla: Term, v: Model)
    requires Simplifies(l) && Built(l, fla) && IsBool(l, fla) && Redefines(l, fla) && Fair(l, v)
    ensures !Holds(v, fla)
  {
    hide Simplifies, Built, IsBool, Leaves, Fair, Round, StepAt;
    var trace, closed, k :| IsRun(l, fla, trace) && MetAgain(l, Last(trace), closed, k);
    var s := Last(trace);
    var rank := RunPasses(l, fla, trace);
    RoundIsOk(l, s.root, closed);
    if k.Var? { VarKeyIsNew(l, s.root, s.all, closed, k); }
    ElementIsBuilt(l, s.all[k]);
    ElementIsBuilt(l, closed[k]);
    if Holds(v, fla) {
      assert Holds(v, s.root) && Sat(v, s.all) && Sat(v, closed);
      assert Eval(v, s.all[k]) == Eval(v, k) == Eval(v, closed[k]);
      ElementsDiffer(l, v, s.all[k], closed[k]);
    }
  }

  // ---------------------------------------------------------------------------
  // What the pass returns

  ghost predicate ClosedFrom(l: Logic, all: map<Term, Term>, used: map<Term, Term>) {
    IsClosed(used) && exists rank, names {:trigger Closing(l, all, used, rank, names)} :: Closing(l, all, used, rank, names)
  }

  ghost predicate TornRoot(l: Logic, root: Term) {
    exists keys, facts {:trigger FactsFound(l, root, keys, facts)} :: FactsFound(l, root, keys, facts) && Torn(l, keys, facts)
  }

  /** How the rounds end after state `s`: the facts suggest different truth values for a variable, or the
      next round leaves the root as it is. */
  ghost predicate Stops(l: Logic, s: PassState, end: PassState) {
    || (TornRoot(l, s.root) && end == s.(root := False()))
    || exists closed {:trigger Round(l, s.root, closed)} :: Round(l, s.root, closed) && end == After(l, s, closed) && end.root == s.root
  }

  /** The pass returns false alone at a clash of facts, otherwise the last root and what was recorded, closed. */
  ghost predicate Returns(l: Logic, s: PassState, result: Term, used: map<Term, Term>, dropped: Dropped) {
    || (Clash(l, s.root) && result == False() && used == map[] && dropped == {})
    || exists end {:trigger Stops(l, s, end)} :: Stops(l, s, end) && result == end.root && dropped == end.dropped && ClosedFrom(l, end.all, used)
  }

  ghost predicate Outcome(l: Logic, fla: Term, result: Term, used: map<Term, Term>, dropped: Dropped) {
    exists trace {:trigger IsRun(l, fla, trace)} :: IsRun(l, fla, trace) && Returns(l, Last(trace), result, used, dropped)
  }

  /** Closing leaves the elements that compound keys are recorded with alone. */
  lemma ElementStays(l: Logic, all: map<Term, Term>, rank: map<Term, nat>, used: map<Term, Term>, k: Term)
    requires Good(l, all, rank) && ClosedFrom(l, all, used) && k in all && IsElement(all[k])
    ensures k in used && used[k] == all[k]
  {
    hide Built, RankedBy, ValuesBuilt;
    var r, names :| Closing(l, all, used, r, names);
    ConstantAlone(all[k]);
    assert !HasKey(all, all[k]);
  }

  /** Unless a key is met again with another target, what a run drops repeats what it records. */
  lemma DroppedRepeats(l: Logic, fla: Term, result: Term, used: map<Term, Term>, dropped: Dropped)
    requires Simplifies(l) && Built(l, fla) && IsBool(l, fla) && Outcome(l, fla, result, used, dropped) && !Redefines(l, fla)
    ensures result == False() || forall d {:trigger d in dropped} :: d in dropped ==> d.0 in used && d.1 == used[d.0]
  {
    hide Simplifies, Built, IsBool, Leaves, Fair, Redefines, Good, SameAs, Round, After, StepAt, Clash, TornRoot, ClosedFrom;
    var trace :| IsRun(l, fla, trace) && Returns(l, Last(trace), result, used, dropped);
    var s := Last(trace);
    if result != False() {
      var end :| Stops(l, s, end) && result == end.root && dropped == end.dropped && ClosedFrom(l, end.all, used);
      var closed :| Round(l, s.root, closed) && end == After(l, s, closed);
      var longer := trace + [end];
      RunLonger(l, fla, trace, closed);
      assert Last(longer) == end;
      var rank := RunPasses(l, fla, longer);
      forall d | d in dropped ensures d.0 in used && d.1 == used[d.0] {
        LostIsRedefined(l, fla, longer, d);
        ElementStays(l, end.all, rank, used, d.0);
      }
    }
  }

  /** Exactly when the pass keeps the models of its input: no key is met again with another target, or what is
      left has no model either. (A formula whose run meets a key again has none; the second case is that of
      one that is unsatisfiable for another reason as well.) */
  lemma KeepsModelsExactly(l: Logic, fla: Term, result: Term, used: map<Term, Term>, rank: map<Term, nat>, dropped: Dropped)
    requires Simplifies(l) && Built(l, fla) && IsBool(l, fla) && Outcome(l, fla, result, used, dropped) && Passing(l, fla, result, used, rank, dropped)
    ensures SameAs(l, fla, result, used, {}) <==> !Redefines(l, fla) || NoModel(l, result, used)
  {
    hide Simplifies, Built, IsBool, Outcome, Redefines, Good, Fair, LeavesWithin, KeysGone, DroppedOk, Eval;
    PassIsExact(l, fla, result, used, rank, dropped);
    if !Redefines(l, fla) {
      DroppedRepeats(l, fla, result, used, dropped);
      FalseHasNoModel(l, used);
    } else {
      forall v | Fair(l, v) ensures !Holds(v, fla) { RedefinedRefutes(l, fla, v); }
      if SameAs(l, fla, result, used, {}) {
        forall v | Fair(l, v) && Holds(v, result) ensures !Sat(v, used) {
          assert !Holds(v, fla) && SatAll(v, {});
        }
      }
    }
  }

  lemma FalseHasNoModel(l: Logic, used: map<Term, Term>)
    ensures NoModel(l, False(), used)
  {
    forall v ensures !Holds(v, False()) { TruthValues(l, v, false); }
  }

  // ---------------------------------------------------------------------------
  // What has to be substituted, read off the formula

  /** A top literal of the formula gives this substitution. */
  ghost predicate TopGives(l: Logic, root: Term, key: Term, target: Term) {
    exists p, t, sign {:trigger IsTop(root, true, p), Gives(l, Signed(t, sign), key, target)} ::
      IsTop(root, true, p) && Tells(l, p, t, sign) && Gives(l, Signed(t, sign), key, target)
  }

  ghost predicate TopDepends(l: Logic, root: Term, x: Term, y: Term) {
    y.Var? && exists u {:trigger TopGives(l, root, x, u)} :: TopGives(l, root, x, u) && y in Subterms(u)
  }

  /** The substitutions that the top literals give lead from `k` back to `k`. */
  ghost predicate TopCyclic(l: Logic, root: Term, k: Term) {
    exists path: seq<Term> {:trigger |path|} :: |path| > 1 && path[0] == k && path[|path| - 1] == k
      && forall i {:trigger path[i]} :: 0 <= i < |path| - 1 ==> TopDepends(l, root, path[i], path[i + 1])
  }

  /** Every top-level equation that can be solved, and every top-level Boolean variable, has its key recorded, unless
      the key depends on itself or the formula was found to be false. */
  ghost predicate TopSolved(l: Logic, fla: Term, result: Term, used: map<Term, Term>) {
    forall p, k, u {:trigger IsTop(fla, true, p), Gives(l, p, k, u)} :: IsTop(fla, true, p) && Gives(l, p, k, u) ==>
      result == False() || k in used || TopCyclic(l, fla, k)
  }

  /** No variable is left that a top literal gives a value to, but those that depend on themselves. */
  ghost predicate NothingToSolve(l: Logic, root: Term) {
    forall p, k, u {:trigger IsTop(root, true, p), Gives(l, p, k, u)} :: IsTop(root, true, p) && Gives(l, p, k, u) && k.Var? ==> TopCyclic(l, root, k)
  }

  lemma DependsAtTop(l: Logic, root: Term, keys: seq<Term>, facts: map<Term, bool>, x: Term, y: Term)
    requires TopFacts(l, root, facts) && Depends(l, keys, facts, x, y)
    ensures TopDepends(l, root, x, y)
  {
    hide IsTop, Gives, Collected, Tells;
    var t, u :| t in keys && t in facts && Gives(l, Signed(t, facts[t]), x, u) && y in Subterms(u);
    var sign := facts[t];
    var p :| IsTop(root, true, p) && Tells(l, p, t, sign);
    assert TopGives(l, root, x, u);
  }

  lemma CyclicAtTop(l: Logic, root: Term, keys: seq<Term>, facts: map<Term, bool>, k: Term)
    requires TopFacts(l, root, facts) && Cyclic(l, keys, facts, k)
    ensures TopCyclic(l, root, k)
  {
    hide Depends, TopDepends, TopFacts;
    var path: seq<Term> :| |path| > 1 && path[0] == k && path[|path| - 1] == k
      && forall i {:trigger path[i]} :: 0 <= i < |path| - 1 ==> Depends(l, keys, facts, path[i], path[i + 1]);
    forall i {:trigger path[i]} | 0 <= i < |path| - 1 ensures TopDepends(l, root, path[i], path[i + 1]) {
      DependsAtTop(l, root, keys, facts, path[i], path[i + 1]);
    }
  }

  /** A round takes what the top literals of its root give. */
  lemma RoundSolves(l: Logic, root: Term, closed: map<Term, Term>, p: Signed, k: Term, u: Term)
    requires Simplifies(l) && Built(l, root) && Round(l, root, closed) && IsTop(root, true, p) && Gives(l, p, k, u)
    ensures k in closed || TopCyclic(l, root, k)
  {
    hide Simplifies, Built, FactsFound, Retrieved, Complete, IsTop, Gives, TopCyclic, Cyclic, IsClosed, Good, SameModels, LeavesWithin;
    var keys, facts, m, rank :| FactsFound(l, root, keys, facts) && Retrieved(l, keys, facts, m, rank, Leaves(root)) && Complete(l, keys, facts, m)
      && Closing(l, m, closed, rank, Leaves(root)) && IsClosed(closed);
    FactsOfRoot(l, root, keys, facts);
    CompleteSolves(l, keys, facts, Leaves(root), m, rank);
    FoundTopFacts(l, root, keys, facts);
    GivesIsFact(l, p, k, u);
    assert Collected(l, p, facts);
    assert p == Signed(p.term, facts[p.term]);
    FoundKeys(l, root, keys, facts, p.term);
    if k !in closed { CyclicAtTop(l, root, keys, facts, k); }
  }

  lemma GivesIsFact(l: Logic, p: Signed, k: Term, u: Term)
    requires Gives(l, p, k, u)
    ensures IsFact(l, p)
  {
  }

  lemma FoundKeys(l: Logic, root: Term, keys: seq<Term>, facts: map<Term, bool>, t: Term)
    requires FactsFound(l, root, keys, facts)
    ensures t in keys <==> t in facts
  {
    hide AllTops;
  }

  /** What the first round takes stays recorded. */
  lemma {:induction false} RunRecords(l: Logic, fla: Term, trace: seq<PassState>) returns (closed: map<Term, Term>)
    requires IsRun(l, fla, trace) && |trace| > 1
    ensures Round(l, fla, closed) && closed.Keys <= Last(trace).all.Keys
    decreases |trace|
  {
    hide Round, Rw, StepAt;
    RunShorter(l, fla, trace);
    var s := trace[|trace| - 2];
    var last :| Round(l, s.root, last) && Last(trace) == After(l, s, last);
    if |trace| == 2 {
      closed := last;
    } else {
      closed := RunRecords(l, fla, trace[..|trace| - 1]);
    }
  }

  lemma OutcomeSolves(l: Logic, fla: Term, result: Term, used: map<Term, Term>, dropped: Dropped)
    requires Simplifies(l) && Built(l, fla) && Outcome(l, fla, result, used, dropped)
    ensures TopSolved(l, fla, result, used)
  {
    hide Simplifies, Built, Round, IsTop, Gives, TopCyclic, Clash, TornRoot, StepAt;
    var trace :| IsRun(l, fla, trace) && Returns(l, Last(trace), result, used, dropped);
    if result != False() {
      var closed := OutcomeRound(l, fla, trace, result, used, dropped);
      forall p, k, u {:trigger IsTop(fla, true, p), Gives(l, p, k, u)} | IsTop(fla, true, p) && Gives(l, p, k, u) ensures k in used || TopCyclic(l, fla, k) {
        RoundSolves(l, fla, closed, p, k, u);
      }
    }
  }

  lemma OutcomeRound(l: Logic, fla: Term, trace: seq<PassState>, result: Term, used: map<Term, Term>, dropped: Dropped) returns (closed: map<Term, Term>)
    requires IsRun(l, fla, trace) && Returns(l, Last(trace), result, used, dropped) && result != False()
    ensures Round(l, fla, closed) && closed.Keys <= used.Keys
  {
    hide Round, Clash, TornRoot, StepAt, Rw, Good, SameModels, LeavesWithin, IsClosed;
    var end :| Stops(l, Last(trace), end) && result == end.root && dropped == end.dropped && ClosedFrom(l, end.all, used);
    var last :| Round(l, Last(trace).root, last) && end == After(l, Last(trace), last);
    if |trace| == 1 {
      closed := last;
    } else {
      closed := RunRecords(l, fla, trace);
    }
  }

  /** The pass goes on until there is nothing left to do. */
  lemma OutcomeIsDone(l: Logic, fla: Term, result: Term, used: map<Term, Term>, rank: map<Term, nat>, dropped: Dropped)
    requires Simplifies(l) && Built(l, fla) && IsBool(l, fla) && Outcome(l, fla, result, used, dropped) && Passing(l, fla, result, used, rank, dropped)
    ensures result == False() || NothingToSolve(l, result)
  {
    hide Simplifies, Built, IsBool, Round, IsTop, Gives, TopCyclic, Clash, TornRoot, StepAt, Passing;
    var trace :| IsRun(l, fla, trace) && Returns(l, Last(trace), result, used, dropped);
    if result != False() {
      NoKeysLeft(l, fla, result, used, rank, dropped);
      var s := Last(trace);
      var before := RunPasses(l, fla, trace);
      PassingParts(l, fla, s.root, s.all, before, s.dropped);
      var closed := LastRound(l, s, result, used, dropped);
      forall p, k, u {:trigger IsTop(result, true, p), Gives(l, p, k, u)} | IsTop(result, true, p) && Gives(l, p, k, u) && k.Var? ensures TopCyclic(l, result, k) {
        RoundSolves(l, result, closed, p, k, u);
        KeyOccurs(l, result, p, k, u);
      }
    }
  }

  lemma LastRound(l: Logic, s: PassState, result: Term, used: map<Term, Term>, dropped: Dropped) returns (closed: map<Term, Term>)
    requires Returns(l, s, result, used, dropped) && result != False()
    ensures Round(l, result, closed) && closed.Keys <= used.Keys && s.root == result
  {
    hide Round, Clash, TornRoot, Rw, Good, SameModels, LeavesWithin, IsClosed;
    var end :| Stops(l, s, end) && result == end.root && dropped == end.dropped && ClosedFrom(l, end.all, used);
    closed :| Round(l, s.root, closed) && end == After(l, s, closed) && end.root == s.root;
  }

  /** The key of a top literal's substitution is in the formula. */
  lemma KeyOccurs(l: Logic, root: Term, p: Signed, k: Term, u: Term)
    requires IsTop(root, true, p) && Gives(l, p, k, u)
    ensures k in Subterms(root)
  {
    TopsHold(l, Model(x => Bool(true), (f, vs) => Bool(true), Defined), root, true, p);
    if k != p.term {
      assert Children(Eq(k, u))[0] == k && Children(Eq(u, k))[1] == k;
      SubtermsOfChildren(k, k);
      SubtermsOfChildren(p.term, k);
    }
    SubtermsTransitive(root, p.term, k);
  }

  // ---------------------------------------------------------------------------
  // The pass as a loop

  /** Records the substitutions whose keys are new. */
  method Record(order: seq<Term>, closed: map<Term, Term>, allOrder: seq<Term>, all: map<Term, Term>) returns (order': seq<Term>, all': map<Term, Term>)
    requires Listed(order, closed) && Listed(allOrder, all)
    ensures all' == closed + all && Listed(order', all')
  {
    order', all' := allOrder, all;
    for i := 0 to |order|
      invariant Listed(order', all') && all.Keys <= all'.Keys
      invariant forall k {:trigger k in all'} :: k in all' <==> k in all || exists j {:trigger order[j]} :: 0 <= j < i && order[j] == k
      invariant forall k {:trigger all'[k]} :: k in all' ==> all'[k] == if k in all then all[k] else if k in closed then closed[k] else k
    {
      assert order[i] in order;
      if order[i] !in all' {
        assert forall j {:trigger order'[j]} :: 0 <= j < |order'| ==> order'[j] in order';
        order', all' := order' + [order[i]], all'[order[i] := closed[order[i]]];
      }
    }
    forall k ensures k in all' <==> k in closed + all {
      if k in closed {
        assert k in order;
        var j :| 0 <= j < |order| && order[j] == k;
      }
      if j :| 0 <= j < |order| && order[j] == k { assert order[j] in order; }
    }
  }

  /** Rounds of finding facts, closing their substitutions and rewriting, until the root stays the same. */
  method ComputeSubstitutions(l: Logic, fla: Term) returns (order: seq<Term>, used: map<Term, Term>, result: Term, ghost rank: map<Term, nat>, ghost dropped: Dropped)
    requires Simplifies(l) && Built(l, fla) && IsBool(l, fla)
    ensures Listed(order, used) && IsClosed(used) && Passing(l, fla, result, used, rank, dropped) && Outcome(l, fla, result, used, dropped)
    ensures SameAs(l, fla, result, used, {}) <==> !Redefines(l, fla) || NoModel(l, result, used)
    ensures OneElement(fla) ==> SameAs(l, fla, result, used, {})
  {
    hide Simplifies, Built, Passing, Leaves, Fair, Good, Rw, AllSay, Facts, FactsFound, Retrieved, RoundOk, IsBool, Size, VarCount, LeavesWithin, Closing, Listed, IsClosed,
         Outcome, Redefines, NoModel, OneElement, SameAs;
    order, used, result, rank, dropped := RunRounds(l, fla);
    KeepsModelsExactly(l, fla, result, used, rank, dropped);
    if OneElement(fla) {
      OnlyRepeats(l, fla, result, used, rank, dropped);
      PassIsExact(l, fla, result, used, rank, dropped);
    }
  }

  /** The substitutions of one round, closed. A conflict leaves none, and refutes the root. */
  method FindSubstitutions(l: Logic, root: Term, keys: seq<Term>, facts: map<Term, bool>) returns (conflict: bool, order: seq<Term>, closed: map<Term, Term>)
    requires Simplifies(l) && Built(l, root) && FactsFound(l, root, keys, facts)
    ensures Listed(order, closed)
    ensures conflict ==> closed == map[] && RoundOk(l, False(), closed) && Torn(l, keys, facts) && forall v {:trigger Fair(l, v)} :: Fair(l, v) ==> !Holds(v, root)
    ensures !conflict ==> RoundOk(l, root, closed) && Round(l, root, closed)
  {
    hide Simplifies, Built, Leaves, Fair, Good, AllSay, Facts, FactsFound, Retrieved, Complete, RoundOk, LeavesWithin, Closing, Listed, IsClosed, Round, Torn;
    FactsOfRoot(l, root, keys, facts);
    var found: map<Term, Term>;
    ghost var rank: map<Term, nat>;
    conflict, order, found, rank := RetrieveSubstitutions(l, keys, facts, Leaves(root));
    if conflict {
      EmptyRound(l, root);
      EmptyRound(l, False());
      NoFacts(l, root, keys, facts);
      rank := map[];
    } else {
      RetrievedParts(l, keys, facts, found, rank, Leaves(root));
    }
    closed := SubstitutionsTransitiveClosure(l, order, found, rank, Leaves(root));
    ClosedKeys(l, found, closed, rank, Leaves(root), order);
    if !conflict {
      RoundFound(l, root, keys, facts, found, rank, closed);
      RoundMade(l, root, keys, facts, found, rank, closed);
    }
  }

  method RunRounds(l: Logic, fla: Term) returns (order: seq<Term>, used: map<Term, Term>, result: Term, ghost rank: map<Term, nat>, ghost dropped: Dropped)
    requires Simplifies(l) && Built(l, fla) && IsBool(l, fla)
    ensures Listed(order, used) && IsClosed(used) && Passing(l, fla, result, used, rank, dropped) && Outcome(l, fla, result, used, dropped)
  {
    hide Simplifies, Built, Passing, Leaves, Fair, Good, Rw, AllSay, Facts, FactsFound, Retrieved, Complete, RoundOk, IsBool, Size, VarCount, LeavesWithin, Closing, Listed, IsClosed,
         Outcome, Round, IsRun, Stops, Torn, Clash, After;
    var root := fla;
    var allOrder: seq<Term>, all: map<Term, Term> := [], map[];
    rank, dropped := map[], {};
    PassStarts(l, fla);
    ghost var trace := [PassState(fla, map[], {})];
    RunStarts(l, fla);
    var cont := true;
    while cont
      invariant Passing(l, fla, root, all, rank, dropped) && Listed(allOrder, all)
      invariant trace != [] && IsRun(l, fla, trace)
      invariant if cont then Last(trace) == PassState(root, all, dropped) else Stops(l, Last(trace), PassState(root, all, dropped))
      decreases VarCount(root), Size(root), cont
    {
      ghost var s := PassState(root, all, dropped);
      PassingParts(l, fla, root, all, rank, dropped);
      var ok, keys, facts := GetNewFacts(l, root);
      if !ok {
        ClashEnds(l, fla, trace, root, all, rank, dropped);
        order, used, result, rank, dropped := [], map[], False(), map[], {};
        return;
      }
      var conflict, newOrder, closed := FindSubstitutions(l, root, keys, facts);
      allOrder, all := Record(newOrder, closed, allOrder, all);
      if conflict {
        FalseRoot(l, fla, root, s.all, rank, dropped);
        TornStops(l, s, keys, facts);
        root := False();
      }
      PassingParts(l, fla, root, s.all, rank, dropped);
      RoundKeeps(l, fla, root, s.all, rank, dropped, closed);
      RootShrinks(l, root, closed);
      rank, dropped := Shifted(s.all, rank, closed), dropped + Dropping(s.all, closed);
      var newRoot := Rewrite(l, closed, root);
      FalseIsSmall(s.root);
      cont := newRoot != root;
      if conflict {
        FalseStays(l, closed);
        NothingRecorded(s, closed, all, dropped);
      } else {
        AfterIs(l, s, closed, newRoot, all, dropped);
        if cont {
          RunLonger(l, fla, trace, closed);
          trace := trace + [PassState(newRoot, all, dropped)];
        } else {
          RoundStops(l, s, closed, PassState(newRoot, all, dropped));
        }
      }
      root := newRoot;
    }
    PassingParts(l, fla, root, all, rank, dropped);
    used := SubstitutionsTransitiveClosure(l, allOrder, all, rank, Leaves(fla));
    PassCloses(l, fla, root, all, used, rank, dropped);
    ClosedKeys(l, all, used, rank, Leaves(fla), allOrder);
    order, result := allOrder, root;
    ReturnsLast(l, fla, trace, PassState(root, all, dropped), used, rank);
  }

  lemma RunStarts(l: Logic, fla: Term)
    ensures IsRun(l, fla, [PassState(fla, map[], {})])
  {
  }

  /** Contradicting facts end the pass with false. */
  lemma ClashEnds(l: Logic, fla: Term, trace: seq<PassState>, root: Term, all: map<Term, Term>, rank: map<Term, nat>, dropped: Dropped)
    requires Simplifies(l) && Passing(l, fla, root, all, rank, dropped) && IsRun(l, fla, trace) && Last(trace).root == root && Clash(l, root)
    ensures Listed([], map[]) && IsClosed(map[]) && Passing(l, fla, False(), map[], map[], {}) && Outcome(l, fla, False(), map[], {})
  {
    hide Simplifies, Built, Passing, Fair, Outcome, IsRun, Clash, Listed, IsClosed, RoundOk, Good, LeavesWithin;
    PassingParts(l, fla, root, all, rank, dropped);
    forall v | Fair(l, v) ensures !Holds(v, root) { ClashRefutes(l, root, v); }
    FalseRoot(l, fla, root, all, rank, dropped);
    EmptyRound(l, False());
    NothingClosed();
    ReturnsFalse(l, fla, trace);
  }

  lemma ReturnsFalse(l: Logic, fla: Term, trace: seq<PassState>)
    requires IsRun(l, fla, trace) && Clash(l, Last(trace).root)
    ensures Outcome(l, fla, False(), map[], {})
  {
    assert Returns(l, Last(trace), False(), map[], {});
  }

  lemma ReturnsLast(l: Logic, fla: Term, trace: seq<PassState>, end: PassState, used: map<Term, Term>, rank: map<Term, nat>)
    requires IsRun(l, fla, trace) && Stops(l, Last(trace), end) && Closing(l, end.all, used, rank, Leaves(fla)) && IsClosed(used)
    ensures Outcome(l, fla, end.root, used, end.dropped)
  {
    assert ClosedFrom(l, end.all, used);
    assert Returns(l, Last(trace), end.root, used, end.dropped);
  }

  lemma TornStops(l: Logic, s: PassState, keys: seq<Term>, facts: map<Term, bool>)
    requires FactsFound(l, s.root, keys, facts) && Torn(l, keys, facts)
    ensures Stops(l, s, s.(root := False()))
  {
    hide FactsFound, Torn;
  }

  lemma RoundMade(l: Logic, root: Term, keys: seq<Term>, facts: map<Term, bool>, m: map<Term, Term>, rank: map<Term, nat>, closed: map<Term, Term>)
    requires FactsFound(l, root, keys, facts) && Retrieved(l, keys, facts, m, rank, Leaves(root)) && Complete(l, keys, facts, m)
    requires Closing(l, m, closed, rank, Leaves(root)) && IsClosed(closed)
    ensures Round(l, root, closed)
  {
    hide FactsFound, Retrieved, Complete, Closing, IsClosed;
  }

  lemma RoundStops(l: Logic, s: PassState, closed: map<Term, Term>, end: PassState)
    requires Round(l, s.root, closed) && end == After(l, s, closed) && end.root == s.root
    ensures Stops(l, s, end)
  {
    hide Round, After;
  }

  lemma AfterIs(l: Logic, s: PassState, closed: map<Term, Term>, root: Term, all: map<Term, Term>, dropped: Dropped)
    requires root == Rw(l, closed, s.root).term && all == closed + s.all && dropped == s.dropped + Dropping(s.all, closed)
    ensures PassState(root, all, dropped) == After(l, s, closed)
  {
  }

  lemma FalseStays(l: Logic, m: map<Term, Term>)
    requires m == map[]
    ensures Rw(l, m, False()).term == False()
  {
    assert !KidChanged(l, m, False());
  }

  lemma NothingRecorded(s: PassState, closed: map<Term, Term>, all: map<Term, Term>, dropped: Dropped)
    requires closed == map[] && all == closed + s.all && dropped == s.dropped + Dropping(s.all, closed)
    ensures all == s.all && dropped == s.dropped
  {
    assert Dropping(s.all, closed) == {};
  }

  /** Each recorded substitution as an equation. */
  ghost predicate Equations(l: Logic, order: seq<Term>, used: map<Term, Term>, eqs: seq<Term>) {
    && |eqs| <= |order|
    && forall i {:trigger eqs[i]} {:trigger order[i]} :: 0 <= i < |eqs| ==> order[i] in used && eqs[i] == l.simp(Eq(order[i], used[order[i]])) && EquationOk(l, order[i], used[order[i]])
  }

  /** A built equation holds where its sides are equal. */
  ghost predicate EquationOk(l: Logic, key: Term, target: Term) {
    && Built(l, l.simp(Eq(key, target))) && IsBool(l, l.simp(Eq(key, target)))
    && forall v {:trigger Eval(v, key)} :: Fair(l, v) ==> (Holds(v, l.simp(Eq(key, target))) <==> Eval(v, key) == Eval(v, target))
  }

  lemma EquationIsOk(l: Logic, used: map<Term, Term>, rank: map<Term, nat>, k: Term)
    requires Simplifies(l) && Good(l, used, rank) && k in used
    ensures EquationOk(l, k, used[k])
  {
    hide Built, Leaves, Fair, RankedBy;
    var target := used[k];
    var e := Eq(k, target);
    assert Raw(l, e);
    assert SimplifiedAt(l, e);
    forall v | Fair(l, v) ensures Holds(v, l.simp(e)) <==> Eval(v, k) == Eval(v, target) {
      OpsHold(v, k, target);
    }
  }

  /** The conjunction of the equations and the result. */
  lemma ConjunctionMeans(l: Logic, fla: Term, order: seq<Term>, used: map<Term, Term>, rank: map<Term, nat>, dropped: Dropped, eqs: seq<Term>, result: Term)
    requires Simplifies(l) && Passing(l, fla, result, used, rank, dropped) && Listed(order, used) && Equations(l, order, used, eqs) && |eqs| == |order|
    ensures forall v {:trigger Holds(v, l.simp(And(eqs + [result])))} :: Fair(l, v) ==> (Holds(v, l.simp(And(eqs + [result]))) <==> Holds(v, result) && Sat(v, used))
    ensures Built(l, l.simp(And(eqs + [result]))) && IsBool(l, l.simp(And(eqs + [result])))
  {
    hide Built, Leaves, Fair, Good, LeavesWithin, KeysGone, DroppedOk, Simplifies, IsBool;
    var args := eqs + [result];
    assert args[|eqs|] == result;
    ArgsAreRaw(l, order, used, eqs, result);
    var conj := l.simp(And(args));
    forall v | Fair(l, v) ensures Holds(v, conj) <==> Holds(v, result) && Sat(v, used) {
      AndHolds(v, args);
      ConjunctsHold(l, v, order, used, eqs, result);
    }
  }

  lemma ArgsAreRaw(l: Logic, order: seq<Term>, used: map<Term, Term>, eqs: seq<Term>, result: Term)
    requires Simplifies(l) && Equations(l, order, used, eqs) && Built(l, result) && IsBool(l, result)
    ensures SimplifiedAt(l, And(eqs + [result])) && IsBool(l, And(eqs + [result]))
  {
    hide Built, Leaves, Fair;
    var args := eqs + [result];
    assert args != [];
    forall i {:trigger args[i]} | 0 <= i < |args| ensures Built(l, args[i]) && IsBool(l, args[i]) {
      if i < |eqs| { assert args[i] == eqs[i] && order[i] in used; }
    }
    assert Raw(l, And(args));
  }

  lemma ConjunctsHold(l: Logic, v: Model, order: seq<Term>, used: map<Term, Term>, eqs: seq<Term>, result: Term)
    requires Listed(order, used) && Equations(l, order, used, eqs) && |eqs| == |order| && Fair(l, v)
    ensures (forall t {:trigger t in eqs + [result]} :: t in eqs + [result] ==> Holds(v, t)) <==> Holds(v, result) && Sat(v, used)
  {
    hide Built, Fair, IsBool;
    var args := eqs + [result];
    assert args[|eqs|] == result && result in args;
    if forall t {:trigger t in args} :: t in args ==> Holds(v, t) {
      assert Holds(v, result);
      forall k {:trigger used[k]} | k in used ensures Eval(v, k) == Eval(v, used[k]) {
        assert k in order;
        var i :| 0 <= i < |order| && order[i] == k;
        assert args[i] == eqs[i] && args[i] in args;
      }
    }
    if Holds(v, result) && Sat(v, used) {
      forall t | t in args ensures Holds(v, t) {
        if t != result {
          var i :| 0 <= i < |args| && args[i] == t;
          assert t == eqs[i] && order[i] in used;
          assert EquationOk(l, order[i], used[order[i]]);
          assert Eval(v, order[i]) == Eval(v, used[order[i]]);
        }
      }
    }
  }

  ghost predicate Equivalent(l: Logic, s: Term, t: Term) {
    forall v {:trigger Holds(v, s)} {:trigger Holds(v, t)} :: Fair(l, v) ==> (Holds(v, s) <==> Holds(v, t))
  }

  ghost predicate Unsatisfiable(l: Logic, t: Term) {
    forall v {:trigger Holds(v, t)} :: Fair(l, v) ==> !Holds(v, t)
  }

  /** The recorded substitutions as equations. */
  ghost function EquationsOf(l: Logic, order: seq<Term>, used: map<Term, Term>): (eqs: seq<Term>)
    requires Listed(order, used)
    ensures |eqs| == |order|
  {
    seq(|order|, i requires 0 <= i < |order| => assert order[i] in order; l.simp(Eq(order[i], used[order[i]])))
  }

  /** The pass: the conjunction of the recorded equations and the rewritten formula. No variable that is
      substituted is left in the latter, and what the formula's top literals give is substituted. The conjunction
      has exactly the models of the input unless some round meets a recorded key again with another target and that
      conjunction still has a model; with one element in the input that cannot be. */
  method SubstitutionPass(l: Logic, fla: Term, doSubstitutions: bool)
    returns (withSubs: Term, order: seq<Term>, used: map<Term, Term>, ghost result: Term, ghost dropped: Dropped)
    requires Simplifies(l) && Built(l, fla) && IsBool(l, fla)
    ensures Listed(order, used) && IsClosed(used)
    ensures doSubstitutions ==> Outcome(l, fla, result, used, dropped) && withSubs == l.simp(And(EquationsOf(l, order, used) + [result]))
    ensures doSubstitutions ==> TopSolved(l, fla, result, used) && (result == False() || NothingToSolve(l, result))
    ensures doSubstitutions ==> forall k {:trigger k in used} :: k in used && k.Var? ==> k !in Subterms(result)
    ensures Built(l, withSubs) && IsBool(l, withSubs)
    ensures !doSubstitutions ==> withSubs == fla && used == map[]
    ensures doSubstitutions ==> (Equivalent(l, withSubs, fla) <==> !Redefines(l, fla) || Unsatisfiable(l, withSubs))
    ensures OneElement(fla) ==> Equivalent(l, withSubs, fla)
    ensures forall v {:trigger Holds(v, fla)} :: Fair(l, v) && Holds(v, fla) ==> Holds(v, withSubs) && Sat(v, used)
  {
    hide Simplifies, Built, Passing, Leaves, Fair, Good, Equations, OneElement, IsBool, DroppedOk, Listed, IsClosed, Redefines, Outcome, TopSolved, NothingToSolve;
    if !doSubstitutions {
      NothingClosed();
      EmptyRound(l, fla);
      withSubs, order, used, result, dropped := fla, [], map[], fla, {};
      return;
    }
    var newRoot: Term;
    ghost var rank: map<Term, nat>;
    order, used, newRoot, rank, dropped := ComputeSubstitutions(l, fla);
    result := newRoot;
    OutcomeSolves(l, fla, result, used, dropped);
    OutcomeIsDone(l, fla, result, used, rank, dropped);
    NoKeysLeft(l, fla, result, used, rank, dropped);
    PassingParts(l, fla, result, used, rank, dropped);
    var args: seq<Term> := [];
    NoEquations(l, order, used);
    for i := 0 to |order|
      invariant |args| == i && Equations(l, order, used, args)
    {
      IsListed(order, used, i);
      EquationIsOk(l, used, rank, order[i]);
      MoreEquations(l, order, used, args);
      args := args + [l.simp(Eq(order[i], used[order[i]]))];
    }
    ConjunctionMeans(l, fla, order, used, rank, dropped, args, result);
    AllEquations(l, order, used, args);
    withSubs := l.simp(And(args + [newRoot]));
    PassMeans(l, fla, result, used, rank, dropped, withSubs);
  }

  lemma AllEquations(l: Logic, order: seq<Term>, used: map<Term, Term>, eqs: seq<Term>)
    requires Listed(order, used) && Equations(l, order, used, eqs) && |eqs| == |order|
    ensures eqs == EquationsOf(l, order, used)
  {
    hide EquationOk;
    var all := EquationsOf(l, order, used);
    forall i | 0 <= i < |eqs| ensures eqs[i] == all[i] {
      assert order[i] in order;
    }
  }

  lemma NoKeysLeft(l: Logic, fla: Term, result: Term, used: map<Term, Term>, rank: map<Term, nat>, dropped: Dropped)
    requires Passing(l, fla, result, used, rank, dropped)
    ensures forall k {:trigger k in used} :: k in used && k.Var? ==> k !in Subterms(result)
  {
    hide Good, SameAs, DroppedOk, LeavesWithin, Built;
  }

  /** The models of the conjunction are those of the result that satisfy the substitutions. */
  lemma PassMeans(l: Logic, fla: Term, result: Term, used: map<Term, Term>, rank: map<Term, nat>, dropped: Dropped, withSubs: Term)
    requires Passing(l, fla, result, used, rank, dropped)
    requires forall v {:trigger Holds(v, withSubs)} :: Fair(l, v) ==> (Holds(v, withSubs) <==> Holds(v, result) && Sat(v, used))
    ensures Equivalent(l, withSubs, fla) <==> SameAs(l, fla, result, used, {})
    ensures Unsatisfiable(l, withSubs) <==> NoModel(l, result, used)
    ensures forall v {:trigger Holds(v, fla)} :: Fair(l, v) && Holds(v, fla) ==> Holds(v, withSubs) && Sat(v, used)
  {
    hide Built, Good, Fair, Holds, Sat, LeavesWithin, KeysGone, DroppedOk;
    forall v ensures SatAll(v, {}) {
    }
    if SameAs(l, fla, result, used, {}) {
      forall v | Fair(l, v) ensures Holds(v, withSubs) <==> Holds(v, fla) {
        assert Holds(v, fla) <==> Holds(v, result) && Sat(v, used) && SatAll(v, {});
      }
    }
    if Unsatisfiable(l, withSubs) {
      forall v | Fair(l, v) && Holds(v, result) ensures !Sat(v, used) {
        assert !Holds(v, withSubs);
      }
    }
  }

  lemma IsListed(order: seq<Term>, used: map<Term, Term>, i: nat)
    requires Listed(order, used) && i < |order|
    ensures order[i] in used
  {
    assert order[i] in order;
  }

  lemma NoEquations(l: Logic, order: seq<Term>, used: map<Term, Term>)
    ensures Equations(l, order, used, [])
  {
  }

  lemma MoreEquations(l: Logic, order: seq<Term>, used: map<Term, Term>, eqs: seq<Term>)
    requires Equations(l, order, used, eqs) && |eqs| < |order| && order[|eqs|] in used && EquationOk(l, order[|eqs|], used[order[|eqs|]])
    ensures Equations(l, order, used, eqs + [l.simp(Eq(order[|eqs|], used[order[|eqs|]]))])
  {
    hide EquationOk;
  }
}
