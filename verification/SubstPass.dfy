/** The substitution pass: facts are turned into substitutions and the formula is rewritten until it stays
    the same. */
module SubstPasses {
  import opened Terms
  import opened Rewriters
  import opened SubstClosures
  import opened SubstFacts
  import opened SubstRetrieval

  /** A substitution that was found, but not recorded because its key had been recorded before. */
  type Dropped = set<(Term, Term)>

  ghost predicate SatAll(v: Model, dropped: Dropped) {
    forall d {:trigger d in dropped} :: d in dropped ==> Eval(v, d.0) == Eval(v, d.1)
  }

  /** The formula's models are those of the current root that satisfy what was found. */
  ghost predicate SameAs(l: Logic, fla: Term, root: Term, all: map<Term, Term>, dropped: Dropped) {
    forall v {:trigger Holds(v, fla)} {:trigger Holds(v, root)} :: Fair(l, v) ==> (Holds(v, fla) <==> Holds(v, root) && Sat(v, all) && SatAll(v, dropped))
  }

  ghost predicate KeysGone(all: map<Term, Term>, root: Term) {
    forall k {:trigger k in all} :: k in all && k.Var? ==> k !in Leaves(root)
  }

  /** What is dropped equates a compound key, recorded with an element, with an element of the formula. */
  ghost predicate DroppedOk(l: Logic, fla: Term, all: map<Term, Term>, dropped: Dropped) {
    forall d {:trigger d in dropped} :: d in dropped ==>
      d.0 in all && !d.0.Var? && IsElement(all[d.0]) && BuiltAt(l, all[d.0]) && IsElement(d.1) && BuiltAt(l, d.1) && d.1 in Leaves(fla)
  }

  ghost predicate Passing(l: Logic, fla: Term, root: Term, all: map<Term, Term>, rank: map<Term, nat>, dropped: Dropped) {
    && Built(l, root) && IsBool(l, root) && Leaves(root) <= Leaves(fla)
    && Good(l, all, rank) && LeavesWithin(all, Leaves(fla)) && KeysGone(all, root)
    && SameAs(l, fla, root, all, dropped) && DroppedOk(l, fla, all, dropped)
  }

  /** The substitutions of one round: closed, and true in all models of the root. */
  ghost predicate RoundOk(l: Logic, root: Term, closed: map<Term, Term>) {
    && Good(l, closed, Zero(closed)) && IsClosed(closed) && LeavesWithin(closed, Leaves(root))
    && (forall k {:trigger k in closed} :: k in closed ==> Leaves(k) <= Leaves(root))
    && forall v {:trigger Sat(v, closed)} :: Fair(l, v) && Holds(v, root) ==> Sat(v, closed)
  }

  ghost function Zero(m: map<Term, Term>): map<Term, nat> {
    map k | k in m :: 0
  }

  lemma ClosedIsRanked(l: Logic, m: map<Term, Term>, rank: map<Term, nat>)
    requires Good(l, m, rank) && IsClosed(m)
    ensures Good(l, m, Zero(m))
  {
    forall k, v | k in m && v in m ensures v !in Subterms(m[k]) {
      assert !HasKey(m, m[k]);
    }
  }

  // ---------------------------------------------------------------------------
  // Recording the substitutions of a round

  /** Older substitutions drop below no newer one: the new keys get the lowest rank. */
  ghost function Shifted(all: map<Term, Term>, rank: map<Term, nat>, closed: map<Term, Term>): map<Term, nat> {
    map k | k in all.Keys + closed.Keys :: if k in all && k in rank then rank[k] + 1 else 0
  }

  ghost function Dropping(all: map<Term, Term>, closed: map<Term, Term>): Dropped {
    set k | k in closed && k in all :: (k, closed[k])
  }

  lemma VarKeyIsNew(l: Logic, root: Term, all: map<Term, Term>, closed: map<Term, Term>, k: Term)
    requires RoundOk(l, root, closed) && KeysGone(all, root) && k in closed && k.Var?
    ensures k !in all
  {
    SubtermsOfChildren(k, k);
    assert k in Leaves(k);
  }

  lemma MergedIsGood(l: Logic, root: Term, all: map<Term, Term>, rank: map<Term, nat>, closed: map<Term, Term>)
    requires RoundOk(l, root, closed) && Good(l, all, rank) && KeysGone(all, root)
    ensures Good(l, closed + all, Shifted(all, rank, closed))
  {
    hide Built, IsBool, IsClosed, LeavesWithin, Leaves, KeysGone, RankedBy, IsElement;
    var m := closed + all;
    forall k {:trigger m[k]} | k in m
      ensures Built(l, k) && Built(l, m[k]) && IsBool(l, m[k]) == IsBool(l, k) && (!k.Var? ==> Children(k) != [] && IsElement(m[k]))
    {
      if k in all { assert m[k] == all[k]; } else { assert m[k] == closed[k]; }
    }
    MergedIsRanked(l, root, all, rank, closed);
  }

  lemma MergedIsRanked(l: Logic, root: Term, all: map<Term, Term>, rank: map<Term, nat>, closed: map<Term, Term>)
    requires RoundOk(l, root, closed) && RankedBy(all, rank) && KeysGone(all, root)
    ensures RankedBy(closed + all, Shifted(all, rank, closed))
  {
    hide RoundOk, KeysGone, Subterms;
    var m, r := closed + all, Shifted(all, rank, closed);
    forall k, v {:trigger m[k], r[v]} | k in m && v in m && v.Var? ensures v in Subterms(m[k]) ==> r[v] < r[k] {
      if k in all {
        assert m[k] == all[k];
        assert v in all && v in Subterms(all[k]) ==> rank[v] < rank[k];
      } else {
        NewValueHasNoKey(l, root, all, closed, k, v);
      }
    }
  }

  lemma NewValueHasNoKey(l: Logic, root: Term, all: map<Term, Term>, closed: map<Term, Term>, k: Term, v: Term)
    requires RoundOk(l, root, closed) && KeysGone(all, root) && k in closed && v.Var? && (v in closed || v in all)
    ensures v !in Subterms(closed[k])
  {
    assert !HasKey(closed, closed[k]);
    assert Leaves(closed[k]) <= Leaves(root);
  }

  lemma RewrittenRoot(l: Logic, root: Term, closed: map<Term, Term>)
    requires Simplifies(l) && Built(l, root) && RoundOk(l, root, closed)
    ensures var root' := Rw(l, closed, root).term;
            && Built(l, root') && IsBool(l, root') == IsBool(l, root) && Leaves(root') <= Leaves(root) && KeysGone(closed, root')
            && forall v {:trigger Eval(v, root')} :: Fair(l, v) && Sat(v, closed) ==> Eval(v, root') == Eval(v, root)
  {
    hide Built, IsBool, Rw, Simplifies, Fair, Good, Leaves;
    var root', zero := Rw(l, closed, root).term, Zero(closed);
    GoodParts(l, closed, zero);
    RwBuilt(l, closed, root);
    RwLeaves(l, closed, root, Leaves(root));
    assert Below(closed, zero, root, 1);
    RwBelow(l, closed, zero, root, 1);
    forall k | k in closed && k.Var? ensures k !in Leaves(root') {
      assert k in zero && zero[k] == 0;
    }
    forall v | Fair(l, v) && Sat(v, closed) ensures Eval(v, root') == Eval(v, root) {
      RwMeans(l, closed, zero, root, 1, v);
    }
  }

  lemma RoundMeans(l: Logic, fla: Term, root: Term, all: map<Term, Term>, dropped: Dropped, closed: map<Term, Term>, root': Term)
    requires SameAs(l, fla, root, all, dropped) && RoundOk(l, root, closed)
    requires forall v {:trigger Eval(v, root')} :: Fair(l, v) && Sat(v, closed) ==> Eval(v, root') == Eval(v, root)
    ensures SameAs(l, fla, root', closed + all, dropped + Dropping(all, closed))
  {
    hide Fair, Good, Leaves, IsClosed, LeavesWithin;
    var m, dropped' := closed + all, dropped + Dropping(all, closed);
    forall v | Fair(l, v) ensures Holds(v, fla) <==> Holds(v, root') && Sat(v, m) && SatAll(v, dropped') {
      assert Sat(v, closed) ==> Eval(v, root') == Eval(v, root);
      MergedSat(v, all, dropped, closed);
    }
  }

  /** Recorded and dropped substitutions together are those of before and those of the round. */
  lemma MergedSat(v: Model, all: map<Term, Term>, dropped: Dropped, closed: map<Term, Term>)
    ensures Sat(v, closed + all) && SatAll(v, dropped + Dropping(all, closed)) <==> Sat(v, all) && SatAll(v, dropped) && Sat(v, closed)
  {
    hide Eval;
    var m, dropped' := closed + all, dropped + Dropping(all, closed);
    assert forall d {:trigger d in dropped} :: d in dropped ==> d in dropped';
    if Sat(v, m) && SatAll(v, dropped') {
      forall k {:trigger closed[k]} | k in closed ensures Eval(v, k) == Eval(v, closed[k]) {
        if k in all { assert (k, closed[k]) in dropped'; } else { assert m[k] == closed[k]; }
      }
      forall k {:trigger all[k]} | k in all ensures Eval(v, k) == Eval(v, all[k]) {
        assert m[k] == all[k];
      }
    }
    if Sat(v, all) && SatAll(v, dropped) && Sat(v, closed) {
      forall k {:trigger m[k]} | k in m ensures Eval(v, k) == Eval(v, m[k]) {
        if k in all { assert m[k] == all[k]; } else { assert m[k] == closed[k]; }
      }
    }
  }

  lemma DroppingOk(l: Logic, fla: Term, root: Term, all: map<Term, Term>, rank: map<Term, nat>, dropped: Dropped, closed: map<Term, Term>)
    requires Good(l, all, rank) && DroppedOk(l, fla, all, dropped) && RoundOk(l, root, closed) && KeysGone(all, root) && Leaves(root) <= Leaves(fla)
    ensures DroppedOk(l, fla, closed + all, dropped + Dropping(all, closed))
  {
    var m := closed + all;
    forall d | d in dropped + Dropping(all, closed)
      ensures d.0 in m && !d.0.Var? && IsElement(m[d.0]) && BuiltAt(l, m[d.0]) && IsElement(d.1) && BuiltAt(l, d.1) && d.1 in Leaves(fla)
    {
      if d in dropped {
        assert m[d.0] == all[d.0];
      } else {
        var k :| k in closed && k in all && d == (k, closed[k]);
        if k.Var? { VarKeyIsNew(l, root, all, closed, k); }
        ElementIsBuilt(l, all[k]);
        ElementIsBuilt(l, closed[k]);
        assert m[k] == all[k];
      }
    }
  }

  lemma ElementIsBuilt(l: Logic, t: Term)
    requires Built(l, t)
    ensures BuiltAt(l, t) && (IsElement(t) ==> t in Leaves(t))
  {
    SubtermsOfChildren(t, t);
  }

  /** A round keeps what the pass promises. */
  lemma RoundKeeps(l: Logic, fla: Term, root: Term, all: map<Term, Term>, rank: map<Term, nat>, dropped: Dropped, closed: map<Term, Term>)
    requires Simplifies(l) && Passing(l, fla, root, all, rank, dropped) && RoundOk(l, root, closed)
    ensures Passing(l, fla, Rw(l, closed, root).term, closed + all, Shifted(all, rank, closed), dropped + Dropping(all, closed))
  {
    hide Built, IsBool, Rw, Simplifies, Fair, Good, Leaves, SameAs, DroppedOk, RoundOk, Shifted;
    var m, root' := closed + all, Rw(l, closed, root).term;
    RewrittenRoot(l, root, closed);
    MergedIsGood(l, root, all, rank, closed);
    RoundMeans(l, fla, root, all, dropped, closed, root');
    DroppingOk(l, fla, root, all, rank, dropped, closed);
    forall k {:trigger m[k]} | k in m ensures Leaves(m[k]) <= Leaves(fla) {
      if k in all { assert m[k] == all[k]; } else { RoundLeaves(l, root, closed, k); assert m[k] == closed[k]; }
    }
    forall k | k in m && k.Var? ensures k !in Leaves(root') {
    }
  }

  lemma RoundLeaves(l: Logic, root: Term, closed: map<Term, Term>, k: Term)
    requires RoundOk(l, root, closed) && k in closed
    ensures Leaves(closed[k]) <= Leaves(root)
  {
  }

  // ---------------------------------------------------------------------------
  // One round

  /** The facts of the root are built, name only what the root names, and hold where it does. */
  lemma FactsOfRoot(l: Logic, root: Term, keys: seq<Term>, facts: map<Term, bool>)
    requires Simplifies(l) && Built(l, root) && FactsFound(l, root, keys, facts)
    ensures Facts(l, keys, facts, Leaves(root))
    ensures forall v {:trigger AllSay(v, keys, facts)} :: Fair(l, v) && Holds(v, root) ==> AllSay(v, keys, facts)
  {
    hide Built, Leaves, Fair, Simplifies, IsTop;
    var isdup :| FactsOf(l, isdup, keys, facts) && AllTops(root, isdup);
    var any := Model(x => Bool(true), (f, vs) => Bool(true), Defined);
    forall t | t in keys ensures t in facts && Built(l, t) && Leaves(t) <= Leaves(root) {
      RecordedHolds(l, root, isdup, keys, facts, t, any);
    }
    forall v | Fair(l, v) && Holds(v, root) ensures AllSay(v, keys, facts) {
      forall t | t in keys && t in facts ensures Says(v, Signed(t, facts[t])) {
        RecordedHolds(l, root, isdup, keys, facts, t, v);
      }
    }
  }

  /** Retrieved substitutions, closed, make a round. */
  lemma RoundFound(l: Logic, root: Term, keys: seq<Term>, facts: map<Term, bool>, m: map<Term, Term>, rank: map<Term, nat>, closed: map<Term, Term>)
    requires Retrieved(l, keys, facts, m, rank, Leaves(root)) && Closing(l, m, closed, rank, Leaves(root)) && IsClosed(closed)
    requires forall v {:trigger AllSay(v, keys, facts)} :: Fair(l, v) && Holds(v, root) ==> AllSay(v, keys, facts)
    ensures RoundOk(l, root, closed)
  {
    hide Good, Leaves, Fair, AllSay, Sat, IsClosed, CandidateOf;
    ClosedIsRanked(l, closed, rank);
    forall k | k in closed ensures Leaves(k) <= Leaves(root) {
      assert k in m;
    }
    forall v | Fair(l, v) && Holds(v, root) ensures Sat(v, closed) {
      assert AllSay(v, keys, facts);
      assert Sat(v, m);
    }
  }

  lemma EmptyRound(l: Logic, root: Term)
    ensures RoundOk(l, root, map[]) && Good(l, map[], map[]) && LeavesWithin(map[], Leaves(root)) && Listed([], map[])
  {
  }

  /** A root without models may be replaced by false. */
  lemma FalseRoot(l: Logic, fla: Term, root: Term, all: map<Term, Term>, rank: map<Term, nat>, dropped: Dropped)
    requires Passing(l, fla, root, all, rank, dropped) && forall v {:trigger Fair(l, v)} :: Fair(l, v) ==> !Holds(v, root)
    ensures Passing(l, fla, False(), all, rank, dropped) && Passing(l, fla, False(), map[], map[], {})
  {
    hide Fair, Good;
    var any := Model(x => Bool(true), (f, vs) => Bool(true), Defined);
    TruthValues(l, any, false);
    forall v | Fair(l, v) ensures !Holds(v, fla) && !Holds(v, False()) {
      TruthValues(l, v, false);
    }
    EmptyRound(l, fla);
  }

  ghost function VarCount(t: Term): nat {
    |VarSet(t)|
  }

  ghost function VarSet(t: Term): set<Term> {
    set x | x in Leaves(t) && x.Var?
  }

  lemma Fewer<T>(a: set<T>, b: set<T>)
    requires a <= b
    ensures |a| <= |b| && (a != b ==> |a| < |b|)
  {
    assert b == a + (b - a) && a * (b - a) == {};
  }

  /** A root that changes loses a variable, or keeps its variables and gets smaller. */
  lemma RootShrinks(l: Logic, root: Term, closed: map<Term, Term>)
    requires Simplifies(l) && Built(l, root) && RoundOk(l, root, closed)
    ensures var root' := Rw(l, closed, root).term;
            root' == root || VarCount(root') < VarCount(root) || (VarCount(root') == VarCount(root) && Size(root') < Size(root))
  {
    hide Built, Rw, Simplifies, Fair, Good, Leaves;
    var root', zero := Rw(l, closed, root).term, Zero(closed);
    RewrittenRoot(l, root, closed);
    Fewer(VarSet(root'), VarSet(root));
    GoodMoves(l, closed, zero);
    RwUnchanged(l, closed, root);
    if root' != root && VarSet(root') == VarSet(root) {
      forall k | k in closed && k.Var? ensures k !in Leaves(root) {
        assert k in VarSet(root) ==> k in VarSet(root');
      }
      assert Below(closed, zero, root, 0);
      RwShrinks(l, closed, zero, root);
    }
  }

  lemma PassStarts(l: Logic, fla: Term)
    requires Built(l, fla) && IsBool(l, fla)
    ensures Passing(l, fla, fla, map[], map[], {}) && Listed([], map[])
  {
  }

  lemma PassingParts(l: Logic, fla: Term, root: Term, all: map<Term, Term>, rank: map<Term, nat>, dropped: Dropped)
    requires Passing(l, fla, root, all, rank, dropped)
    ensures Built(l, root) && IsBool(l, root) && Good(l, all, rank) && LeavesWithin(all, Leaves(fla))
  {
  }

  lemma RetrievedParts(l: Logic, keys: seq<Term>, facts: map<Term, bool>, m: map<Term, Term>, rank: map<Term, nat>, names: set<Term>)
    requires Retrieved(l, keys, facts, m, rank, names)
    ensures Good(l, m, rank) && LeavesWithin(m, names)
  {
  }

  lemma NothingClosed()
    ensures IsClosed(map[])
  {
  }

  lemma ClosedKeys(l: Logic, first: map<Term, Term>, m: map<Term, Term>, rank: map<Term, nat>, names: set<Term>, order: seq<Term>)
    requires Closing(l, first, m, rank, names) && Listed(order, first)
    ensures Listed(order, m) && (first == map[] ==> m == map[])
  {
  }

  lemma NoFacts(l: Logic, root: Term, keys: seq<Term>, facts: map<Term, bool>)
    requires forall v {:trigger AllSay(v, keys, facts)} :: Fair(l, v) ==> !AllSay(v, keys, facts)
    requires forall v {:trigger AllSay(v, keys, facts)} :: Fair(l, v) && Holds(v, root) ==> AllSay(v, keys, facts)
    ensures forall v {:trigger Fair(l, v)} :: Fair(l, v) ==> !Holds(v, root)
  {
    forall v | Fair(l, v) ensures !Holds(v, root) {
      assert !AllSay(v, keys, facts);
    }
  }

  lemma FalseIsSmall(t: Term)
    ensures VarCount(False()) == 0 && Size(False()) <= Size(t)
  {
    SizeOfChildren(t);
    SizeOfChildren(False());
    assert VarSet(False()) == {};
  }

  /** Closing what was recorded keeps the promise. */
  lemma PassCloses(l: Logic, fla: Term, root: Term, all: map<Term, Term>, used: map<Term, Term>, rank: map<Term, nat>, dropped: Dropped)
    requires Passing(l, fla, root, all, rank, dropped) && Closing(l, all, used, rank, Leaves(fla))
    ensures Passing(l, fla, root, used, rank, dropped)
  {
    hide Built, Leaves, Fair, IsBool, Sat, Good, HasKey, DroppedOk, IsElement;
    forall v | Fair(l, v) ensures Sat(v, all) <==> Sat(v, used) {
    }
    DroppedStays(l, fla, all, used, rank, dropped);
  }

  lemma DroppedStays(l: Logic, fla: Term, all: map<Term, Term>, used: map<Term, Term>, rank: map<Term, nat>, dropped: Dropped)
    requires DroppedOk(l, fla, all, dropped) && Good(l, used, rank) && used.Keys == all.Keys
    ensures DroppedOk(l, fla, used, dropped)
  {
    hide Built, Leaves, IsBool, RankedBy, BuiltAt;
    forall d | d in dropped ensures d.0 in used && IsElement(used[d.0]) && BuiltAt(l, used[d.0]) {
      var x := used[d.0];
      ElementIsBuilt(l, x);
    }
  }

  // ---------------------------------------------------------------------------
  // When nothing is lost

  ghost predicate NoModel(l: Logic, root: Term, used: map<Term, Term>) {
    forall v {:trigger Holds(v, root)} :: Fair(l, v) && Holds(v, root) ==> !Sat(v, used)
  }

  /** Any two elements in the formula are the same. */
  ghost predicate OneElement(t: Term) {
    forall a, b {:trigger a in Leaves(t), b in Leaves(t)} :: a in Leaves(t) && b in Leaves(t) && IsElement(a) && IsElement(b) ==> a == b
  }

  /** With one element, what is dropped repeats what is recorded. */
  lemma OnlyRepeats(l: Logic, fla: Term, root: Term, used: map<Term, Term>, rank: map<Term, nat>, dropped: Dropped)
    requires Passing(l, fla, root, used, rank, dropped) && OneElement(fla)
    ensures forall d {:trigger d in dropped} :: d in dropped ==> d.1 == used[d.0]
  {
    hide Built, IsBool, Fair, SameAs, KeysGone, RankedBy;
    forall d | d in dropped ensures d.1 == used[d.0] {
      SubtermsOfChildren(used[d.0], used[d.0]);
      assert used[d.0] in Leaves(used[d.0]) && d.1 in Leaves(fla);
    }
  }

  /** Result and recorded substitutions have exactly the models of the input if and only if every
      substitution that was dropped repeats the recorded one, or they have no model at all. */
  lemma PassIsExact(l: Logic, fla: Term, root: Term, used: map<Term, Term>, rank: map<Term, nat>, dropped: Dropped)
    requires Passing(l, fla, root, used, rank, dropped)
    ensures SameAs(l, fla, root, used, {})
       <==> (forall d {:trigger d in dropped} :: d in dropped ==> d.1 == used[d.0]) || NoModel(l, root, used)
  {
    hide Built, Leaves, IsBool, Good, Fair, LeavesWithin, KeysGone;
    forall v, d | Fair(l, v) && Sat(v, used) && d in dropped ensures Eval(v, d.0) == Eval(v, d.1) <==> d.1 == used[d.0] {
      ElementsDiffer(l, v, d.1, used[d.0]);
    }
    if d :| d in dropped && d.1 != used[d.0] {
      if SameAs(l, fla, root, used, {}) {
        forall v | Fair(l, v) && Holds(v, root) ensures !Sat(v, used) {
          assert SatAll(v, {});
          assert Eval(v, d.0) == Eval(v, d.1) ==> !Sat(v, used);
          assert SatAll(v, dropped) ==> Eval(v, d.0) == Eval(v, d.1);
        }
      }
    } else {
      forall v | Fair(l, v) && Sat(v, used) ensures SatAll(v, dropped) {
      }
    }
  }

  lemma ElementsDiffer(l: Logic, v: Model, a: Term, b: Term)
    requires Fair(l, v) && IsElement(a) && IsElement(b) && BuiltAt(l, a) && BuiltAt(l, b)
    ensures Eval(v, a) == Eval(v, b) <==> a == b
  {
    EvalApp(v, a.op, []);
    EvalApp(v, b.op, []);
    assert a == App(a.op, []) && b == App(b.op, []) && Values(v, []) == [];
    var f, g := a.op.f, b.op.f;
  }
}
