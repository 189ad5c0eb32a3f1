/** The assertion stack and the clauses given to the SAT solver: what ties them together, and why solving
    under the frame assumptions decides the live formulas. */
module SolverStates {
  import opened Clauses
  import opened Formulas
  import opened TermMappers
  import opened Tseitin
  import opened Caches

  /** One assertion level; `unsat` records that the stack up to it is unsatisfiable. */
  datatype PushFrame = PushFrame(id: FrameId, formulas: seq<Fla>, unsat: bool)

  /** Odd atoms are the frame terms; users' formulas have even ones. */
  function FrameAtom(k: FrameId): Var { 2 * k + 1 }
  function FrameTerm(k: FrameId): Fla { if k == 0 then True else Atom(FrameAtom(k)) }

  ghost predicate UserFormula(f: Fla) {
    forall x {:trigger x in Atoms(f)} :: x in Atoms(f) ==> x % 2 == 0
  }

  // ---------------------------------------------------------------------------
  // The stack

  ghost predicate StackOk(frames: seq<PushFrame>, nextId: FrameId) {
    && frames != [] && frames[0].id == 0
    && (forall p, q :: 0 <= p < q < |frames| ==> frames[p].id < frames[q].id)
    && (forall p {:trigger frames[p]} :: 0 <= p < |frames| ==> frames[p].id < nextId)
    && (forall p, f {:trigger f in frames[p].formulas} :: 0 <= p < |frames| && f in frames[p].formulas ==> UserFormula(f))
  }

  /** All formulas of the frames before `n` hold. */
  ghost predicate FramesHold(frames: seq<PushFrame>, n: nat, a: Valuation)
    requires n <= |frames|
  {
    forall p {:trigger frames[p]} :: 0 <= p < n ==> All(frames[p].formulas, a)
  }

  ghost predicate Hopeless(frames: seq<PushFrame>, n: nat) {
    n <= |frames| && forall a {:trigger FramesHold(frames, n, a)} :: !FramesHold(frames, n, a)
  }

  /** A frame marked unsatisfiable is, together with those below; the marked frames are on top. */
  ghost predicate MarksOk(frames: seq<PushFrame>) {
    && (forall p {:trigger frames[p].unsat} :: 0 <= p < |frames| && frames[p].unsat ==> Hopeless(frames, p + 1))
    && (forall p, q {:trigger frames[p].unsat, frames[q].unsat} :: 0 <= p < q < |frames| && frames[p].unsat ==> frames[q].unsat)
  }

  // ---------------------------------------------------------------------------
  // The clause database

  ghost predicate FramesMapped(tm: Mapping, nextId: FrameId) {
    && True in tm && False in tm
    && forall k: FrameId {:trigger FrameTerm(k)} :: 1 <= k < nextId ==> FrameTerm(k) in tm
  }

  function FrameLit(tm: Mapping, k: FrameId): Lit
    requires FrameTerm(k) in tm
  {
    Lit(tm[FrameTerm(k)], false)
  }

  /** A clause of frame `k` is only required while the frame literal is false. */
  function Stored(tm: Mapping, d: Tagged): Clause
    requires d.frame != 0 ==> FrameTerm(d.frame) in tm
  {
    if d.frame == 0 then d.clause else d.clause + [FrameLit(tm, d.frame)]
  }

  /** The database holds the stored form of the clauses in `given`. */
  ghost predicate DatabaseOk(tm: Mapping, nextId: FrameId, database: seq<Clause>, given: seq<Tagged>) {
    && FramesMapped(tm, nextId) && |given| == |database|
    && (forall i {:trigger given[i]} {:trigger database[i]} :: 0 <= i < |given| ==> given[i].frame < nextId && (given[i].frame != 0 ==> FrameTerm(given[i].frame) in tm) && database[i] == Stored(tm, given[i]))
    && Tagged(0, [LitOf(tm, True)]) in given && Tagged(0, [Negate(LitOf(tm, False))]) in given
  }

  /** The clause follows from the formulas up to the frame it was given for, while that frame lives. */
  ghost predicate Follows(tm: Mapping, frames: seq<PushFrame>, d: Tagged) {
    forall p, val, a {:trigger frames[p], Intended(tm, val, a)} ::
      0 <= p < |frames| && frames[p].id == d.frame && Intended(tm, val, a) && FramesHold(frames, p + 1, a) ==> ClauseHolds(d.clause, val)
  }

  ghost predicate AllFollow(tm: Mapping, frames: seq<PushFrame>, given: seq<Tagged>) {
    forall d {:trigger d in given} :: d in given ==> Follows(tm, frames, d)
  }

  /** Nothing emitted for an unmarked live frame is missing from the database. */
  ghost predicate NothingLost(frames: seq<PushFrame>, emitted: set<Tagged>, given: seq<Tagged>) {
    forall d, p {:trigger d in emitted, frames[p]} :: d in emitted && 0 <= p < |frames| && frames[p].id == d.frame && !frames[p].unsat ==> d in given
  }

  /** For each simplified frame, a formula that is enforced and that, given the frames below, is
      equivalent to the frame's formulas. */
  ghost predicate Simplified(tm: Mapping, frames: seq<PushFrame>, emitted: set<Tagged>, simplified: seq<Fla>) {
    && |simplified| <= |frames|
    && (forall p {:trigger simplified[p]} :: 0 <= p < |simplified| ==>
          Enforced(tm, emitted, simplified[p], frames[p].id) && StandsFor(frames, p, simplified[p]))
  }

  ghost predicate StandsFor(frames: seq<PushFrame>, p: nat, g: Fla)
    requires p < |frames|
  {
    forall a {:trigger FramesHold(frames, p, a)} :: FramesHold(frames, p, a) ==> (Eval(g, a) <==> All(frames[p].formulas, a))
  }

  // ---------------------------------------------------------------------------
  // Assumptions

  ghost predicate IsLive(frames: seq<PushFrame>, n: nat, k: FrameId)
    requires n <= |frames|
  {
    exists p {:trigger frames[p]} :: 0 <= p < n && frames[p].id == k
  }

  /** Live frames are switched on by a false frame literal, all others off by a true one. */
  ghost predicate AssumptionsOk(tm: Mapping, frames: seq<PushFrame>, nextId: FrameId, assumptions: seq<Lit>) {
    && FramesMapped(tm, nextId) && |assumptions| == nextId - 1
    && forall i {:trigger assumptions[i]} :: 0 <= i < |assumptions| ==>
         FrameTerm(i + 1) in tm && assumptions[i] == Lit(tm[FrameTerm(i + 1)], IsLive(frames, |frames|, i + 1))
  }

  ghost predicate AllTrue(ls: seq<Lit>, val: Valuation) {
    forall i {:trigger ls[i]} :: 0 <= i < |ls| ==> LitHolds(ls[i], val)
  }

  // ---------------------------------------------------------------------------
  // From a model of the formulas to one of the clauses

  /** The frame terms of the frames before `n` are false, those of all others true. */
  ghost function WithFrames(frames: seq<PushFrame>, n: nat, a: Valuation): Valuation
    requires n <= |frames|
  {
    iset x | if x % 2 == 0 then x in a else !IsLive(frames, n, (x - 1) / 2)
  }

  ghost predicate VarHolds(tm: Mapping, a: Valuation, v: Var) {
    exists t {:trigger tm[t]} :: t in tm && tm[t] == v && Eval(t, a)
  }

  ghost function Induced(tm: Mapping, a: Valuation): Valuation {
    iset v | VarHolds(tm, a, v)
  }

  lemma InducedIntended(tm: Mapping, varToTerm: seq<Fla>, a: Valuation)
    requires Bijection(tm, varToTerm)
    ensures Intended(tm, Induced(tm, a), a)
  {
    forall t | t in tm ensures tm[t] in Induced(tm, a) <==> Eval(t, a) {
      if tm[t] in Induced(tm, a) {
        var u :| u in tm && tm[u] == tm[t] && Eval(u, a);
        assert varToTerm[tm[u]] == u && varToTerm[tm[t]] == t;
      }
    }
  }

  lemma FramesHoldWithFrames(frames: seq<PushFrame>, nextId: FrameId, n: nat, m: nat, a: Valuation)
    requires StackOk(frames, nextId) && n <= m <= |frames| && FramesHold(frames, m, a)
    ensures FramesHold(frames, m, WithFrames(frames, n, a))
  {
    var b := WithFrames(frames, n, a);
    forall p | 0 <= p < m ensures All(frames[p].formulas, b) {
      forall f | f in frames[p].formulas ensures Eval(f, b) {
        assert UserFormula(f);
        forall x | x in Atoms(f) ensures x in a <==> x in b {
        }
        SameAtomsSameValue(f, a, b);
      }
    }
  }

  lemma FrameLitUnder(tm: Mapping, frames: seq<PushFrame>, n: nat, k: FrameId, val: Valuation, a: Valuation)
    requires n <= |frames| && k > 0 && FrameTerm(k) in tm && Intended(tm, val, WithFrames(frames, n, a))
    ensures LitHolds(FrameLit(tm, k), val) <==> !IsLive(frames, n, k)
  {
    assert tm[FrameTerm(k)] in val <==> Eval(FrameTerm(k), WithFrames(frames, n, a));
    assert FrameAtom(k) % 2 == 1 && (FrameAtom(k) - 1) / 2 == k;
  }

  lemma StoredHolds(tm: Mapping, d: Tagged, val: Valuation)
    requires d.frame != 0 ==> FrameTerm(d.frame) in tm
    ensures ClauseHolds(Stored(tm, d), val) <==> ClauseHolds(d.clause, val) || (d.frame != 0 && LitHolds(FrameLit(tm, d.frame), val))
  {
    if d.frame != 0 {
      var l := FrameLit(tm, d.frame);
      assert l in d.clause + [l];
      assert forall x {:trigger x in d.clause + [l]} {:trigger x in d.clause} :: x in d.clause + [l] <==> x in d.clause || x == l;
    }
  }

  /** A model of the frames before `n` extends to one of the whole database, with exactly these frames
      switched on: clauses of popped and of higher frames are satisfied by their frame literals. */
  lemma ModelExtends(tm: Mapping, varToTerm: seq<Fla>, frames: seq<PushFrame>, nextId: FrameId, database: seq<Clause>, given: seq<Tagged>, n: nat, a: Valuation)
    returns (val: Valuation)
    requires Bijection(tm, varToTerm) && StackOk(frames, nextId) && 1 <= n <= |frames| && FramesHold(frames, n, a)
    requires DatabaseOk(tm, nextId, database, given) && AllFollow(tm, frames, given)
    ensures AllHold(database, val)
    ensures forall k: FrameId {:trigger FrameTerm(k)} :: 1 <= k < nextId ==> FrameTerm(k) in tm && (LitHolds(FrameLit(tm, k), val) <==> !IsLive(frames, n, k))
  {
    var b := WithFrames(frames, n, a);
    val := Induced(tm, b);
    InducedIntended(tm, varToTerm, b);
    forall c | c in database ensures ClauseHolds(c, val) {
      var i :| 0 <= i < |database| && database[i] == c;
      var d := given[i];
      assert d in given;
      StoredHolds(tm, d, val);
      if d.frame == 0 || IsLive(frames, n, d.frame) {
        assert frames[0].id == 0;
        var p :| 0 <= p < n && frames[p].id == d.frame;
        FramesHoldPrefix(frames, p + 1, n, a);
        FramesHoldWithFrames(frames, nextId, n, n, a);
        FramesHoldPrefix(frames, p + 1, n, b);
        assert Follows(tm, frames, d);
      } else {
        FrameLitUnder(tm, frames, n, d.frame, val, a);
      }
    }
    forall k: FrameId | 1 <= k < nextId ensures FrameTerm(k) in tm && (LitHolds(FrameLit(tm, k), val) <==> !IsLive(frames, n, k)) {
      FrameLitUnder(tm, frames, n, k, val, a);
    }
  }

  lemma FramesHoldPrefix(frames: seq<PushFrame>, m: nat, n: nat, a: Valuation)
    requires m <= n <= |frames| && FramesHold(frames, n, a)
    ensures FramesHold(frames, m, a)
  {
  }

  // ---------------------------------------------------------------------------
  // From a model of the clauses to one of the formulas

  lemma EmittedHolds(tm: Mapping, frames: seq<PushFrame>, nextId: FrameId, emitted: set<Tagged>, database: seq<Clause>, given: seq<Tagged>, p: nat, val: Valuation)
    requires StackOk(frames, nextId) && DatabaseOk(tm, nextId, database, given) && NothingLost(frames, emitted, given)
    requires p < |frames| && !frames[0].unsat && !frames[p].unsat && AllHold(database, val)
    requires frames[p].id != 0 ==> FrameTerm(frames[p].id) in tm && !LitHolds(FrameLit(tm, frames[p].id), val)
    ensures HoldsFor(emitted, frames[p].id, val)
  {
    forall d | d in emitted && (d.frame == frames[p].id || d.frame == 0) ensures ClauseHolds(d.clause, val) {
      var q := if d.frame == 0 then 0 else p;
      assert frames[q].id == d.frame;
      assert d in given;
      var i :| 0 <= i < |given| && given[i] == d;
      assert database[i] in database;
      StoredHolds(tm, d, val);
    }
  }

  lemma ConstantsHold(tm: Mapping, nextId: FrameId, database: seq<Clause>, given: seq<Tagged>, val: Valuation)
    requires DatabaseOk(tm, nextId, database, given) && AllHold(database, val)
    ensures ConstantsRight(tm, val)
  {
    var t, f := LitOf(tm, True), Negate(LitOf(tm, False));
    var i :| 0 <= i < |given| && given[i] == Tagged(0, [t]);
    var j :| 0 <= j < |given| && given[j] == Tagged(0, [f]);
    assert database[i] in database && database[j] in database;
    ShortHolds(t, t, t, val);
    ShortHolds(f, f, f, val);
  }

  /** Under the assumptions a model of the database is a model of every live frame. */
  lemma {:induction false} ModelReads(tm: Mapping, frames: seq<PushFrame>, nextId: FrameId, emitted: set<Tagged>, database: seq<Clause>, given: seq<Tagged>,
                                      simplified: seq<Fla>, assumptions: seq<Lit>, val: Valuation, n: nat)
    requires StackOk(frames, nextId) && DatabaseOk(tm, nextId, database, given) && NothingLost(frames, emitted, given)
    requires Simplified(tm, frames, emitted, simplified) && |simplified| == |frames| && AssumptionsOk(tm, frames, nextId, assumptions)
    requires forall p {:trigger frames[p].unsat} :: 0 <= p < |frames| ==> !frames[p].unsat
    requires AllHold(database, val) && AllTrue(assumptions, val) && n <= |frames|
    ensures FramesHold(frames, n, AtomsUnder(tm, val))
  {
    if n > 0 {
      ModelReads(tm, frames, nextId, emitted, database, given, simplified, assumptions, val, n - 1);
      var p := n - 1;
      var k := frames[p].id;
      if k != 0 {
        assert assumptions[k - 1] == Lit(tm[FrameTerm(k - 1 + 1)], IsLive(frames, |frames|, k - 1 + 1));
        assert LitHolds(assumptions[k - 1], val);
        assert IsLive(frames, |frames|, k);
      }
      EmittedHolds(tm, frames, nextId, emitted, database, given, p, val);
      ConstantsHold(tm, nextId, database, given, val);
      var g := simplified[p];
      assert Enforced(tm, emitted, g, k) && StandsFor(frames, p, g);
    }
  }

  ghost predicate Satisfiable(database: seq<Clause>, assumptions: seq<Lit>) {
    exists val {:trigger AllHold(database, val)} :: AllHold(database, val) && AllTrue(assumptions, val)
  }

  /** The clauses given so far, under the frame assumptions, are satisfiable exactly if the formulas of
      the live frames are. */
  lemma AssumptionsDecide(tm: Mapping, varToTerm: seq<Fla>, frames: seq<PushFrame>, nextId: FrameId, emitted: set<Tagged>, database: seq<Clause>, given: seq<Tagged>,
                          simplified: seq<Fla>, assumptions: seq<Lit>)
    requires Bijection(tm, varToTerm) && StackOk(frames, nextId)
    requires DatabaseOk(tm, nextId, database, given) && AllFollow(tm, frames, given) && NothingLost(frames, emitted, given)
    requires Simplified(tm, frames, emitted, simplified) && |simplified| == |frames| && AssumptionsOk(tm, frames, nextId, assumptions)
    requires forall p {:trigger frames[p].unsat} :: 0 <= p < |frames| ==> !frames[p].unsat
    ensures Satisfiable(database, assumptions) <==> exists a {:trigger FramesHold(frames, |frames|, a)} :: FramesHold(frames, |frames|, a)
  {
    hide DatabaseOk, AllFollow, NothingLost, Simplified, Bijection, Enforced;
    if val :| AllHold(database, val) && AllTrue(assumptions, val) {
      ModelReads(tm, frames, nextId, emitted, database, given, simplified, assumptions, val, |frames|);
      assert FramesHold(frames, |frames|, AtomsUnder(tm, val));
    }
    if a :| FramesHold(frames, |frames|, a) {
      var val := ModelExtends(tm, varToTerm, frames, nextId, database, given, |frames|, a);
      forall i | 0 <= i < |assumptions| ensures LitHolds(assumptions[i], val) {
        assert FrameTerm(i + 1) in tm && (LitHolds(FrameLit(tm, i + 1), val) <==> !IsLive(frames, |frames|, i + 1));
      }
    }
  }
}
