/** The main solver as an object: every operation keeps the invariant of `MainSolvers.StateOk`, so over
    any run a check answers for exactly the formulas that are live. */
module MainSolverRuns {
  import opened Clauses
  import opened Formulas
  import opened TermMappers
  import opened Tseitin
  import opened Caches
  import opened CnfizerRuns
  import opened SolverStates
  import opened MainSolvers

  /** The initial state: one empty frame, and the constants' unit clauses. */
  lemma StartOk(s: State)
    requires Bijection(s.tm, s.varToTerm) && True in s.tm && False in s.tm
    requires s == State([PushFrame(0, [], false)], 1, [True], s.tm, s.varToTerm, {}, [[LitOf(s.tm, True)], [Negate(LitOf(s.tm, False))]],
                        [Tagged(0, [LitOf(s.tm, True)]), Tagged(0, [Negate(LitOf(s.tm, False))])], [], true)
    ensures StateOk(s)
  {
    var t, f := Tagged(0, [LitOf(s.tm, True)]), Tagged(0, [Negate(LitOf(s.tm, False))]);
    assert s.given == [t, f] && t in s.given && f in s.given;
    forall d | d in s.given ensures Follows(s.tm, s.frames, d) {
      forall p, val, a | 0 <= p < |s.frames| && s.frames[p].id == d.frame && Intended(s.tm, val, a) && FramesHold(s.frames, p + 1, a)
        ensures ClauseHolds(d.clause, val)
      {
        IntendedSays(s.tm, val, a, True);
        IntendedSays(s.tm, val, a, False);
        var l := d.clause[0];
        ShortHolds(l, l, l, val);
      }
    }
  }

  lemma LastFrame(s: State)
    requires StateOk(s)
    ensures s.frames != [] && |s.simplified| <= |s.frames| && s.nextId > 0 && |s.frameTerms| == s.nextId && Bijection(s.tm, s.varToTerm)
    ensures s.ok || LastUnsat(s.frames)
    ensures LastUnsat(s.frames) ==> Hopeless(s.frames, |s.frames|)
    ensures !LastUnsat(s.frames) ==> forall p {:trigger s.frames[p].unsat} :: 0 <= p < |s.frames| ==> !s.frames[p].unsat
    ensures forall p {:trigger s.frames[p]} :: 0 <= p < |s.frames| ==> s.frames[p].id < s.nextId && (s.frames[p].id == 0 <==> p == 0)
    ensures FramesMapped(s.tm, s.nextId) && TermsOk(s.nextId, s.frameTerms)
    ensures forall p, q :: 0 <= p < q < |s.frames| ==> s.frames[p].id < s.frames[q].id
  {
    forall p {:trigger s.frames[p]} | 0 <= p < |s.frames| ensures s.frames[p].id < s.nextId && (s.frames[p].id == 0 <==> p == 0) {
      assert p > 0 ==> s.frames[0].id < s.frames[p].id;
    }
  }

  /** The same frames with the same formulas; marks may differ. */
  ghost predicate SameFormulas(frames: seq<PushFrame>, frames': seq<PushFrame>) {
    |frames'| == |frames| && Unchanged(frames, frames', |frames|)
  }

  lemma SameFormulasSame(frames: seq<PushFrame>, frames': seq<PushFrame>)
    requires SameFormulas(frames, frames')
    ensures LiveSatisfiable(frames) <==> LiveSatisfiable(frames')
  {
    forall a ensures FramesHold(frames, |frames|, a) <==> FramesHold(frames', |frames'|, a) {
      UnchangedHolds(frames, frames', |frames|, a);
    }
  }

  lemma MarkedFacts(frames: seq<PushFrame>, p: nat)
    requires p < |frames|
    ensures SameFormulas(frames, MarkFrom(frames, p)) && LastUnsat(MarkFrom(frames, p))
  {
  }

  lemma LastUnsatMeans(s: State)
    requires StateOk(s)
    ensures LastUnsat(s.frames) ==> !LiveSatisfiable(s.frames)
  {
    LastFrame(s);
  }

  /** The stored form of the next clause. */
  lemma StoredSnoc(tm: Mapping, nextId: FrameId, k: FrameId, added: seq<Clause>, m: nat)
    requires m < |added| && FramesKnown(tm, nextId, Tags(k, added[..m + 1])) && FramesKnown(tm, nextId, Tags(k, added[..m]))
    ensures k != 0 ==> FrameTerm(k) in tm
    ensures Tags(k, added[..m + 1]) == Tags(k, added[..m]) + [Tagged(k, added[m])]
    ensures StoredAll(tm, Tags(k, added[..m + 1])) == StoredAll(tm, Tags(k, added[..m])) + [Stored(tm, Tagged(k, added[m]))]
  {
    assert added[..m + 1] == added[..m] + [added[m]];
    assert Tags(k, added[..m + 1])[m] in Tags(k, added[..m + 1]);
  }

  /** The state when the first `m` clauses of the frame at `p` have been given. */
  ghost predicate Giving(s: State, now: State, p: nat, root: Fla, added: seq<Clause>, m: nat) {
    && p < |s.frames| && m <= |added|
    && var ds := Tags(s.frames[p].id, added[..m]);
       FramesKnown(now.tm, s.nextId, ds) &&
       now == s.(tm := now.tm, varToTerm := now.varToTerm, emitted := now.emitted, database := s.database + StoredAll(now.tm, ds), given := s.given + ds,
                 simplified := s.simplified + [root])
  }

  lemma GivingStarts(s: State, now: State, p: nat, root: Fla, added: seq<Clause>)
    requires p < |s.frames| && now == s.(tm := now.tm, varToTerm := now.varToTerm, emitted := now.emitted, simplified := s.simplified + [root])
    ensures Giving(s, now, p, root, added, 0)
  {
    assert Tags(s.frames[p].id, added[..0]) == [] && StoredAll(now.tm, []) == [];
    assert s.database + [] == s.database && s.given + [] == s.given;
  }

  /** The next clause, with the frame literal unless it is for the base frame. */
  lemma GivingNext(s: State, now: State, next: State, p: nat, root: Fla, added: seq<Clause>, m: nat, clause: Clause)
    requires StateOk(s) && Delivered(s, now.tm, now.varToTerm, now.emitted, p, root, added) && Giving(s, now, p, root, added, m) && m < |added|
    requires var k := s.frames[p].id;
             FrameTerm(k) in now.tm && clause == if k == 0 then added[m] else added[m] + [Lit(now.tm[FrameTerm(k)], false)]
    requires next == now.(database := now.database + [clause], given := now.given + [Tagged(s.frames[p].id, added[m])])
    ensures Giving(s, next, p, root, added, m + 1)
  {
    hide StateOk, Delivered, Tags, StoredAll;
    var k := s.frames[p].id;
    GivenSome(s, now.tm, now.varToTerm, now.emitted, p, root, added, m + 1);
    StoredSnoc(now.tm, s.nextId, k, added, m);
  }

  lemma GivenAll(s: State, now: State, p: nat, root: Fla, added: seq<Clause>)
    requires StateOk(s) && Delivered(s, now.tm, now.varToTerm, now.emitted, p, root, added) && Giving(s, now, p, root, added, |added|)
    ensures StateOk(now)
  {
    hide StateOk, Delivered, Tags, StoredAll;
    assert added[..|added|] == added;
    GaveAll(s, now, p, root, added);
  }

  lemma GivenInPart(s: State, now: State, p: nat, root: Fla, added: seq<Clause>, m: nat)
    requires StateOk(s) && Delivered(s, now.tm, now.varToTerm, now.emitted, p, root, added) && Giving(s, now, p, root, added, m)
    requires forall val {:trigger AllHold(now.database, val)} :: !AllHold(now.database, val)
    ensures StateOk(now.(frames := MarkFrom(s.frames, p), ok := false))
  {
    hide StateOk, Delivered, Tags, StoredAll, MarkFrom;
    GaveSome(s, now.(frames := MarkFrom(s.frames, p), ok := false), p, root, added, m);
  }

  /** The literal of the frame at `p`, after the mapping has grown. */
  lemma FrameLitIs(s: State, tm: Mapping, p: nat)
    requires StateOk(s) && p < |s.frames| && Grows(s.tm, tm)
    ensures var k := s.frames[p].id;
            k < |s.frameTerms| && s.frameTerms[k] == FrameTerm(k) && Core(FrameTerm(k)) == FrameTerm(k) && Sign(FrameTerm(k)) == false
            && FrameTerm(k) in tm
  {
    LastFrame(s);
    var k := s.frames[p].id;
    assert s.frameTerms[k] == FrameTerm(k);
    assert k == 0 || FrameTerm(k) in s.tm;
    var x := s.tm[FrameTerm(k)];
  }

  lemma ConflictRefutes(sat: SatSolver, cs: seq<Clause>)
    requires Reliable(sat) && sat.conflicts(cs)
    ensures forall val {:trigger AllHold(cs, val)} :: !AllHold(cs, val)
  {
  }

  lemma SolverAnswers(sat: SatSolver, cs: seq<Clause>, ls: seq<Lit>)
    requires Reliable(sat)
    ensures match sat.solve(cs, ls)
            case Model => Satisfiable(cs, ls)
            case Refused(j) => j <= SwitchedOn(ls, |ls|) && forall val {:trigger AllHold(cs, val)} :: AllHold(cs, val) ==> !PartlyTrue(ls, j, val)
  {
  }

  /** The preprocessed conjunction stands for the frame's formulas. */
  lemma PreprocessedStandsFor(preprocess: (nat, Fla) -> Fla, frames: seq<PushFrame>, i: nat)
    requires PreprocessingRight(preprocess, frames) && i < |frames|
    ensures StandsFor(frames, i, preprocess(i, MkAnd(frames[i].formulas)))
  {
    forall a | FramesHold(frames, i, a) ensures Eval(preprocess(i, MkAnd(frames[i].formulas)), a) <==> All(frames[i].formulas, a) {
      AndMeans(frames[i].formulas, a);
    }
  }

  /** A frame that stands for false is hopeless with those below, and may be marked. */
  lemma FalseFrame(s: State, i: nat)
    requires StateOk(s) && i < |s.frames| && |s.simplified| == i + 1 && s.simplified[i] == False
    ensures StateOk(s.(frames := MarkFrom(s.frames, i)))
  {
    hide Enforced, Bijection, DatabaseOk, AllFollow, NothingLost, TermsOk;
    assert StandsFor(s.frames, i, s.simplified[i]);
    var n := i + 1;
    forall a ensures !FramesHold(s.frames, n, a) {
      if FramesHold(s.frames, n, a) {
        FramesHoldPrefix(s.frames, i, n, a);
      }
    }
    MarkOnly(s, s.(frames := MarkFrom(s.frames, i)), i);
  }

  lemma MarkOnly(s: State, s': State, i: nat)
    requires StateOk(s) && i < |s.frames| && Hopeless(s.frames, i + 1)
    requires s' == s.(frames := MarkFrom(s.frames, i), ok := s'.ok)
    ensures StateOk(s')
  {
    hide Enforced, Bijection, DatabaseOk, AllFollow, NothingLost, TermsOk, Simplified, MarksOk, StackOk;
    TagOne(s.frames[i].id, []);
    assert s.emitted + TagAll(s.frames[i].id, []) == s.emitted;
    MarkKeeps(s, s', i, []);
  }

  lemma RefusedKeeps(s: State, s': State, j: nat)
    requires StateOk(s) && j < |s.frames| && Hopeless(s.frames, j + 1) && s' == s.(frames := MarkFrom(s.frames, j), ok := false)
    ensures StateOk(s') && !LiveSatisfiable(s.frames)
  {
    hide StateOk;
    MarkOnly(s, s', j);
    forall a ensures !FramesHold(s.frames, |s.frames|, a) {
      if FramesHold(s.frames, |s.frames|, a) {
        FramesHoldPrefix(s.frames, j + 1, |s.frames|, a);
      }
    }
  }

  lemma DecideState(s: State, ls: seq<Lit>)
    requires StateOk(s) && !LastUnsat(s.frames) && |s.simplified| == |s.frames| && AssumptionsOk(s.tm, s.frames, s.nextId, ls)
    ensures Satisfiable(s.database, ls) <==> LiveSatisfiable(s.frames)
  {
    LastFrame(s);
    AssumptionsDecide(s.tm, s.varToTerm, s.frames, s.nextId, s.emitted, s.database, s.given, s.simplified, ls);
  }

  /** The assumptions with the first `n` frames switched on. */
  ghost predicate AssumedUpTo(tm: Mapping, frames: seq<PushFrame>, n: nat, assumps: seq<Lit>) {
    n <= |frames| && forall j {:trigger assumps[j]} :: 0 <= j < |assumps| ==> FrameTerm(j) in tm && assumps[j] == Lit(tm[FrameTerm(j)], IsLive(frames, n, j))
  }

  lemma AssumedNone(tm: Mapping, frames: seq<PushFrame>)
    ensures AssumedUpTo(tm, frames, 0, [])
  {
  }

  lemma AssumeOff(tm: Mapping, frames: seq<PushFrame>, assumps: seq<Lit>, l: Lit)
    requires AssumedUpTo(tm, frames, 0, assumps) && FrameTerm(|assumps|) in tm && l == Lit(tm[FrameTerm(|assumps|)], false)
    ensures AssumedUpTo(tm, frames, 0, assumps + [l])
  {
    var next := assumps + [l];
    forall j | 0 <= j < |next| ensures FrameTerm(j) in tm && next[j] == Lit(tm[FrameTerm(j)], IsLive(frames, 0, j)) {
      if j < |assumps| { assert next[j] == assumps[j]; }
    }
  }

  lemma AssumeOne(tm: Mapping, frames: seq<PushFrame>, p: nat, assumps: seq<Lit>)
    requires p < |frames| && frames[p].id < |assumps| && AssumedUpTo(tm, frames, p, assumps)
    requires forall i, j :: 0 <= i < j < |frames| ==> frames[i].id < frames[j].id
    ensures AssumedUpTo(tm, frames, p + 1, assumps[frames[p].id := Negate(assumps[frames[p].id])])
  {
    var fid := frames[p].id;
    var next := assumps[fid := Negate(assumps[fid])];
    forall j | 0 <= j < |next| ensures FrameTerm(j) in tm && next[j] == Lit(tm[FrameTerm(j)], IsLive(frames, p + 1, j)) {
      var l := assumps[j];
      OneMoreLive(frames, p, j);
    }
  }

  /** The next frame adds its own identifier, which is new. */
  lemma OneMoreLive(frames: seq<PushFrame>, p: nat, k: FrameId)
    requires p < |frames| && forall i, j :: 0 <= i < j < |frames| ==> frames[i].id < frames[j].id
    ensures IsLive(frames, p + 1, k) <==> IsLive(frames, p, k) || k == frames[p].id
    ensures !IsLive(frames, p, frames[p].id)
  {
    if IsLive(frames, p + 1, k) {
      var q :| 0 <= q < p + 1 && frames[q].id == k;
      assert q < p ==> IsLive(frames, p, k);
    }
    if IsLive(frames, p, k) {
      var q :| 0 <= q < p && frames[q].id == k;
      assert frames[q].id == k && q < p + 1;
    }
    assert frames[p].id == frames[p].id;
    forall q {:trigger frames[q]} | 0 <= q < p ensures frames[q].id != frames[p].id {
    }
  }

  lemma AssumedAll(tm: Mapping, frames: seq<PushFrame>, nextId: FrameId, assumps: seq<Lit>)
    requires AssumedUpTo(tm, frames, |frames|, assumps) && |assumps| == nextId > 0 && FramesMapped(tm, nextId)
    ensures AssumptionsOk(tm, frames, nextId, assumps[1..])
  {
    forall i | 0 <= i < nextId - 1
      ensures FrameTerm(i + 1) in tm && assumps[1..][i] == Lit(tm[FrameTerm(i + 1)], IsLive(frames, |frames|, i + 1))
    {
      var l := assumps[i + 1];
    }
  }

  class MainSolver {
    const tmap: TermMapper
    const ts: Cnfizer
    var frames: seq<PushFrame>
    var nextFrameId: FrameId
    var frameTerms: seq<Fla>
    var firstNotSimplifiedFrame: nat
    var database: seq<Clause>
    var ok: bool
    ghost var given: seq<Tagged>
    ghost var simplified: seq<Fla>

    ghost function Now(): State
      reads this, tmap, ts
    {
      State(frames, nextFrameId, frameTerms, tmap.termToVar, tmap.varToTerm, ts.emitted, database, given, simplified, ok)
    }

    ghost predicate Valid()
      reads this, tmap, ts
    {
      ts.tmap == tmap && ts.Valid() && StateOk(Now()) && |simplified| == firstNotSimplifiedFrame
    }

    constructor ()
      ensures Valid() && frames == [PushFrame(0, [], false)]
    {
      var mapper := new TermMapper();
      var t := mapper.GetOrCreateLit(True);
      var f := mapper.GetOrCreateLit(False);
      var cnfizer := new Cnfizer(mapper);
      tmap, ts := mapper, cnfizer;
      frames, nextFrameId, frameTerms := [PushFrame(0, [], false)], 1, [True];
      firstNotSimplifiedFrame, ok := 0, true;
      database := [[t], [Negate(f)]];
      given, simplified := [Tagged(0, [t]), Tagged(0, [Negate(f)])], [];
      new;
      StartOk(Now());
    }

    method Push()
      requires Valid()
      modifies this`frames, this`nextFrameId, this`frameTerms, tmap
      ensures Valid() && frames == old(frames) + [PushFrame(old(nextFrameId), [], LastUnsat(old(frames)))]
    {
      hide StateOk, CacheOk, ProcessedOk, Bijection, FrameTerm, Core, LitOf, Sign;
      ghost var s := Now();
      LastFrame(s);
      var alreadyUnsat := frames[|frames| - 1].unsat;
      var id := nextFrameId;
      var l := tmap.GetOrCreateLit(FrameTerm(id));
      frames := frames + [PushFrame(id, [], alreadyUnsat)];
      nextFrameId := id + 1;
      frameTerms := frameTerms + [FrameTerm(id)];
      FrameTermCore(id);
      PushKeeps(s, Now());
      CachesSurvive(s.tm, tmap.termToVar, ts.emitted, ts.emitted, ts.alreadyCnfized, ts.alreadyProcessed, ts.currentFrameId);
    }

    method Pop() returns (r: bool)
      requires Valid()
      modifies this`frames, this`firstNotSimplifiedFrame, this`ok, this`simplified
      ensures Valid() && r == (|old(frames)| > 1) && frames == if r then old(frames)[..|old(frames)| - 1] else old(frames)
    {
      hide StateOk, CacheOk, ProcessedOk, Bijection;
      ghost var s := Now();
      LastFrame(s);
      if |frames| - 1 == 0 {
        return false;
      }
      frames := frames[..|frames| - 1];
      if |frames| < firstNotSimplifiedFrame {
        firstNotSimplifiedFrame := |frames|;
        simplified := simplified[..|frames|];
      }
      if !frames[|frames| - 1].unsat {
        ok := true;
      }
      PopKeeps(s, Now());
      r := true;
    }

    method InsertFormula(fla: Fla)
      requires Valid() && UserFormula(fla)
      modifies this`frames, this`firstNotSimplifiedFrame, this`simplified
      ensures Valid() && |frames| == |old(frames)| > 0
      ensures var n := |frames| - 1; frames == old(frames)[n := old(frames)[n].(formulas := old(frames)[n].formulas + [fla])]
    {
      hide StateOk, CacheOk, ProcessedOk;
      ghost var s := Now();
      LastFrame(s);
      var n := |frames| - 1;
      frames := frames[n := frames[n].(formulas := frames[n].formulas + [fla])];
      if n < firstNotSimplifiedFrame {
        firstNotSimplifiedFrame := n;
        simplified := simplified[..n];
      }
      InsertKeeps(s, Now(), fla);
    }

    /** Adds one clause; tells whether the solver is still consistent. */
    method AddOriginalSMTClause(sat: SatSolver, c: Clause) returns (res: bool)
      modifies this`database, this`ok
      ensures database == old(database) + [c] && res == !sat.conflicts(database) && ok == (old(ok) && res)
    {
      database := database + [c];
      res := !sat.conflicts(database);
      if !res {
        ok := false;
      }
    }

    /** Adds the clauses, each with the frame literal unless it is for the base frame, up to the first
        conflict. */
    method GiveClauses(sat: SatSolver, clauses: seq<Clause>, frameLit: Lit, ghost s: State, p: nat, ghost root: Fla) returns (conflict: bool, ghost m: nat)
      requires Reliable(sat) && ok && StateOk(s) && Delivered(s, Now().tm, Now().varToTerm, Now().emitted, p, root, clauses) && Giving(s, Now(), p, root, clauses, 0)
      requires p < |frames| && frames == s.frames && FrameTerm(frames[p].id) in tmap.termToVar
      requires frames[p].id != 0 ==> frameLit == Lit(tmap.termToVar[FrameTerm(frames[p].id)], false)
      modifies this`database, this`ok, this`given
      ensures conflict == !ok && m <= |clauses| && Giving(s, Now().(ok := true), p, root, clauses, m)
      ensures if conflict then sat.conflicts(database) else m == |clauses|
    {
      hide StateOk, Reliable, Delivered, Giving;
      var pushId := frames[p].id;
      m := 0;
      for i := 0 to |clauses|
        invariant m == i && ok && Giving(s, Now(), p, root, clauses, m)
      {
        var clause := clauses[i];
        if pushId != 0 {
          clause := clause + [frameLit];
        }
        ghost var now := Now();
        given := given + [Tagged(pushId, clauses[i])];
        var res := AddOriginalSMTClause(sat, clause);
        GivingNext(s, now, Now().(ok := true), p, root, clauses, i, clause);
        m := i + 1;
        if !res {
          return true, m;
        }
      }
      conflict := false;
    }

    /** Converts a formula for the frame at `p` and gives the clauses to the solver. At a conflict the
        rest is dropped and the frames from `p` on are unsatisfiable. */
    method GiveToSolver(sat: SatSolver, root: Fla, p: nat) returns (conflict: bool)
      requires Valid() && Reliable(sat) && ok && p < |frames| && firstNotSimplifiedFrame == p && StandsFor(frames, p, root)
      modifies this`database, this`ok, this`given, this`simplified, this`firstNotSimplifiedFrame, ts, tmap
      ensures ts.Valid() && |simplified| == firstNotSimplifiedFrame == p + 1 && simplified == old(simplified) + [root]
      ensures conflict == !ok && StateOk(if conflict then Now().(frames := MarkFrom(frames, p)) else Now())
    {
      hide StateOk, CacheOk, ProcessedOk, Reliable, StandsFor, FollowFrom, Enforced, TagAll, Bijection, Giving, MarkFrom, DatabaseOk, AllFollow;
      ghost var s := Now();
      LastFrame(s);
      var pushId := frames[p].id;
      ts.SetClauseCallBack();
      ghost var added := ts.Cnfize(root, pushId);
      var clauses := ts.clauses;
      assert clauses == added;
      assert Delivered(s, tmap.termToVar, tmap.varToTerm, ts.emitted, p, root, clauses);
      FrameLitIs(s, tmap.termToVar, p);
      var frameLit := Lit(0, false);
      if pushId != 0 {
        frameLit := tmap.GetOrCreateLit(frameTerms[pushId]);
      }
      simplified, firstNotSimplifiedFrame := simplified + [root], p + 1;
      GivingStarts(s, Now(), p, root, clauses);
      ghost var m;
      conflict, m := GiveClauses(sat, clauses, frameLit, s, p, root);
      if conflict {
        ConflictRefutes(sat, database);
        GivenInPart(s, Now().(ok := true), p, root, clauses, m);
      } else {
        GivenAll(s, Now(), p, root, clauses);
      }
    }

    /** Preprocesses and gives the frames that changed, from below, until one turns out unsatisfiable;
        that one and those above are then marked. */
    method SimplifyFormulas(sat: SatSolver, preprocess: (nat, Fla) -> Fla) returns (status: Status)
      requires Valid() && Reliable(sat) && ok && !LastUnsat(frames) && PreprocessingRight(preprocess, frames)
      modifies this`frames, this`database, this`ok, this`given, this`simplified, this`firstNotSimplifiedFrame, ts, tmap
      ensures Valid() && status != Sat
      ensures status == Unsat ==> SameFormulas(old(frames), frames) && LastUnsat(frames)
      ensures status == Undef ==> frames == old(frames) && firstNotSimplifiedFrame == |frames| && ok
    {
      hide StateOk, CacheOk, ProcessedOk, Reliable, PreprocessingRight, StandsFor, LastUnsat, SameFormulas;
      ghost var frames0 := frames;
      LastFrame(Now());
      status := Undef;
      while firstNotSimplifiedFrame < |frames|
        invariant ts.tmap == tmap && ts.Valid() && |simplified| == firstNotSimplifiedFrame <= |frames| && frames == frames0
        invariant StateOk(Now()) && ok
        decreases |frames| - firstNotSimplifiedFrame
      {
        var i := firstNotSimplifiedFrame;
        var frameFormula := preprocess(i, MkAnd(frames[i].formulas));
        PreprocessedStandsFor(preprocess, frames, i);
        ghost var s := Now();
        var conflict := GiveToSolver(sat, frameFormula, i);
        if conflict || frameFormula == False {
          if !conflict {
            FalseFrame(Now(), i);
          }
          MarkedFacts(frames, i);
          frames := MarkFrom(frames, i);
          return Unsat;
        }
      }
    }

    /** The assumptions: every frame ever pushed is off, except those on the stack. */
    method FrameAssumptions() returns (assumps: seq<Lit>)
      requires Valid()
      modifies tmap
      ensures Valid() && Now() == old(Now()) && AssumptionsOk(tmap.termToVar, frames, nextFrameId, assumps)
    {
      hide StateOk, CacheOk, ProcessedOk, Bijection, AssumedUpTo;
      ghost var tm, varToTerm := tmap.termToVar, tmap.varToTerm;
      LastFrame(Now());
      assumps := [];
      AssumedNone(tm, frames);
      for k := 0 to |frameTerms|
        invariant tmap.termToVar == tm && tmap.varToTerm == varToTerm && tmap.Valid()
        invariant |assumps| == k && AssumedUpTo(tm, frames, 0, assumps)
      {
        assert frameTerms[k] == FrameTerm(k);
        FrameTermCore(k);
        assert FrameTerm(k) in tm;
        var l := tmap.GetOrCreateLit(frameTerms[k]);
        assert l == Lit(tm[FrameTerm(k)], false);
        AssumeOff(tm, frames, assumps, l);
        assumps := assumps + [l];
      }
      for p := 0 to |frames|
        invariant tmap.termToVar == tm && tmap.varToTerm == varToTerm && tmap.Valid() && |assumps| == nextFrameId
        invariant AssumedUpTo(tm, frames, p, assumps)
      {
        var fid := frames[p].id;
        AssumeOne(tm, frames, p, assumps);
        assumps := assumps[fid := Negate(assumps[fid])];
      }
      AssumedAll(tm, frames, nextFrameId, assumps);
      assumps := assumps[1..];
    }

    /** Decides whether the live formulas have a common model, and remembers a refutation. */
    method Check(sat: SatSolver, preprocess: (nat, Fla) -> Fla) returns (status: Status)
      requires Valid() && Reliable(sat) && PreprocessingRight(preprocess, frames)
      modifies this`frames, this`database, this`ok, this`given, this`simplified, this`firstNotSimplifiedFrame, ts, tmap
      ensures Valid() && SameFormulas(old(frames), frames)
      ensures status == (if LiveSatisfiable(old(frames)) then Sat else Unsat)
    {
      hide StateOk, CacheOk, ProcessedOk, Reliable, PreprocessingRight, Bijection, LiveSatisfiable, FramesHold;
      ghost var frames0 := frames;
      LastFrame(Now());
      LastUnsatMeans(Now());
      if frames[|frames| - 1].unsat {
        return Unsat;
      }
      status := SimplifyFormulas(sat, preprocess);
      if status == Unsat {
        LastUnsatMeans(Now());
        SameFormulasSame(frames0, frames);
        return;
      }
      var assumps := FrameAssumptions();
      ghost var s := Now();
      LastFrame(s);
      DecideState(s, assumps);
      SolverAnswers(sat, database, assumps);
      match sat.solve(database, assumps)
      case Model =>
        status := Sat;
      case Refused(conflictFrame) =>
        RefusalRefutes(s, assumps, conflictFrame);
        ok := false;
        frames := MarkFrom(frames, conflictFrame);
        RefusedKeeps(s, Now(), conflictFrame);
        MarkedFacts(frames0, conflictFrame);
        status := Unsat;
    }
  }

  lemma FrameTermCore(k: FrameId)
    ensures Core(FrameTerm(k)) == FrameTerm(k) && !Sign(FrameTerm(k))
  {
  }
}
