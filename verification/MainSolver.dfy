/** The main solver's assertion stack over one incremental SAT solver: push, pop, assertion and check. */
module MainSolvers {
  import opened Clauses
  import opened Formulas
  import opened TermMappers
  import opened Tseitin
  import opened Caches
  import opened CnfizerRuns
  import opened SolverStates

  datatype Status = Undef | Sat | Unsat

  /** What the SAT solver answers; a refusal counts how many of the switched-on frames it used. */
  datatype Answer = Model | Refused(conflictFrame: nat)

  /** The SAT solver: whether adding a clause runs into a conflict, and its answer under assumptions. */
  datatype SatSolver = SatSolver(conflicts: seq<Clause> -> bool, solve: (seq<Clause>, seq<Lit>) -> Answer)

  /** How many frames the first assumptions switch on. */
  ghost function SwitchedOn(ls: seq<Lit>, i: nat): nat
    requires i <= |ls|
  {
    if i == 0 then 0 else SwitchedOn(ls, i - 1) + if ls[i - 1].neg then 1 else 0
  }

  /** All frames that are off are off, and the first `j` that are on are on. */
  ghost predicate PartlyTrue(ls: seq<Lit>, j: nat, val: Valuation) {
    forall i {:trigger ls[i]} :: 0 <= i < |ls| && (ls[i].neg ==> SwitchedOn(ls, i) < j) ==> LitHolds(ls[i], val)
  }

  /** Conflicts and answers are right. */
  ghost predicate Reliable(sat: SatSolver) {
    && (forall cs, val {:trigger sat.conflicts(cs), AllHold(cs, val)} :: sat.conflicts(cs) ==> !AllHold(cs, val))
    && (forall cs, ls {:trigger sat.solve(cs, ls)} ::
          match sat.solve(cs, ls)
          case Model => Satisfiable(cs, ls)
          case Refused(j) => j <= SwitchedOn(ls, |ls|) && forall val {:trigger AllHold(cs, val)} :: AllHold(cs, val) ==> !PartlyTrue(ls, j, val))
  }

  /** Preprocessing may use the frames below: there the result is equivalent to the frame's formula. */
  ghost predicate PreprocessingRight(preprocess: (nat, Fla) -> Fla, frames: seq<PushFrame>) {
    forall i, a {:trigger FramesHold(frames, i, a)} :: 0 <= i < |frames| && FramesHold(frames, i, a) ==>
      (Eval(preprocess(i, MkAnd(frames[i].formulas)), a) <==> Eval(MkAnd(frames[i].formulas), a))
  }

  // ---------------------------------------------------------------------------
  // Everything that holds between operations, as one predicate on the state

  datatype State = State(
    frames: seq<PushFrame>, nextId: FrameId, frameTerms: seq<Fla>,
    tm: Mapping, varToTerm: seq<Fla>,
    emitted: set<Tagged>, database: seq<Clause>, given: seq<Tagged>,
    simplified: seq<Fla>, ok: bool)

  ghost predicate LastUnsat(frames: seq<PushFrame>) {
    frames != [] && frames[|frames| - 1].unsat
  }

  ghost predicate TermsOk(nextId: FrameId, frameTerms: seq<Fla>) {
    |frameTerms| == nextId && forall k {:trigger frameTerms[k]} :: 0 <= k < nextId ==> frameTerms[k] == FrameTerm(k)
  }

  ghost predicate StateOk(s: State) {
    && StackOk(s.frames, s.nextId) && MarksOk(s.frames) && TermsOk(s.nextId, s.frameTerms)
    && Bijection(s.tm, s.varToTerm) && DatabaseOk(s.tm, s.nextId, s.database, s.given)
    && AllFollow(s.tm, s.frames, s.given) && NothingLost(s.frames, s.emitted, s.given)
    && (forall d {:trigger d in s.emitted} :: d in s.emitted ==> d.frame < s.nextId)
    && Simplified(s.tm, s.frames, s.emitted, s.simplified)
    && (s.ok || LastUnsat(s.frames))
  }

  /** A model of all live formulas. */
  ghost predicate LiveSatisfiable(frames: seq<PushFrame>) {
    exists a {:trigger FramesHold(frames, |frames|, a)} :: FramesHold(frames, |frames|, a)
  }

  /** Marks the frames from `n` on. */
  function MarkFrom(frames: seq<PushFrame>, n: nat): (r: seq<PushFrame>)
    ensures |r| == |frames|
    ensures forall p {:trigger r[p]} :: 0 <= p < |frames| ==> r[p] == frames[p].(unsat := frames[p].unsat || p >= n)
  {
    seq(|frames|, p requires 0 <= p < |frames| => frames[p].(unsat := frames[p].unsat || p >= n))
  }

  // ---------------------------------------------------------------------------
  // Changing the stack

  /** The frames before `n` have at least the formulas they had. */
  ghost predicate Extended(frames: seq<PushFrame>, frames': seq<PushFrame>, n: nat) {
    && n <= |frames| && n <= |frames'|
    && forall p {:trigger frames[p]} {:trigger frames'[p]} :: 0 <= p < n ==>
         frames'[p].id == frames[p].id && forall f {:trigger f in frames[p].formulas} :: f in frames[p].formulas ==> f in frames'[p].formulas
  }

  /** The frames before `n` have exactly the formulas they had. */
  ghost predicate Unchanged(frames: seq<PushFrame>, frames': seq<PushFrame>, n: nat) {
    && n <= |frames| && n <= |frames'|
    && forall p {:trigger frames[p]} {:trigger frames'[p]} :: 0 <= p < n ==> frames'[p].id == frames[p].id && frames'[p].formulas == frames[p].formulas
  }

  lemma ExtendedHolds(frames: seq<PushFrame>, frames': seq<PushFrame>, n: nat, a: Valuation)
    requires Extended(frames, frames', n) && FramesHold(frames', n, a)
    ensures FramesHold(frames, n, a)
  {
    forall p | 0 <= p < n ensures All(frames[p].formulas, a) {
      assert All(frames'[p].formulas, a);
    }
  }

  lemma UnchangedHolds(frames: seq<PushFrame>, frames': seq<PushFrame>, n: nat, a: Valuation)
    requires Unchanged(frames, frames', n)
    ensures FramesHold(frames', n, a) <==> FramesHold(frames, n, a)
    ensures Extended(frames, frames', n)
  {
    if FramesHold(frames, n, a) {
      forall p | 0 <= p < n ensures All(frames'[p].formulas, a) {
        assert All(frames[p].formulas, a);
      }
    }
    if FramesHold(frames', n, a) {
      forall p | 0 <= p < n ensures All(frames[p].formulas, a) {
        assert All(frames'[p].formulas, a);
      }
    }
  }

  /** Given clauses go on following from the frames if these only gain formulas; the new frames have
      new numbers. */
  lemma AllFollowOn(tm: Mapping, tm': Mapping, frames: seq<PushFrame>, frames': seq<PushFrame>, given: seq<Tagged>, m: nat)
    requires AllFollow(tm, frames, given) && Grows(tm, tm') && m <= |frames'|
    requires Extended(frames, frames', m)
    requires forall p, d {:trigger frames'[p], d in given} :: m <= p < |frames'| && d in given ==> frames'[p].id != d.frame
    ensures AllFollow(tm', frames', given)
  {
    forall d | d in given ensures Follows(tm', frames', d) {
      forall p, val, a | 0 <= p < |frames'| && frames'[p].id == d.frame && Intended(tm', val, a) && FramesHold(frames', p + 1, a)
        ensures ClauseHolds(d.clause, val)
      {
        assert p < m;
        ExtendedPrefix(frames, frames', p + 1, m);
        ExtendedHolds(frames, frames', p + 1, a);
        IntendedShrinks(tm, tm', val, a);
        assert Follows(tm, frames, d) && frames[p].id == d.frame;
      }
    }
  }

  lemma ExtendedPrefix(frames: seq<PushFrame>, frames': seq<PushFrame>, n: nat, m: nat)
    requires Extended(frames, frames', m) && n <= m
    ensures Extended(frames, frames', n)
  {
  }

  lemma SimplifiedOn(tm: Mapping, tm': Mapping, frames: seq<PushFrame>, frames': seq<PushFrame>, emitted: set<Tagged>, emitted': set<Tagged>,
                     simplified: seq<Fla>, m: nat)
    requires Simplified(tm, frames, emitted, simplified) && Grows(tm, tm') && emitted <= emitted' && True in tm && False in tm
    requires Unchanged(frames, frames', m) && m <= |simplified|
    ensures Simplified(tm', frames', emitted', simplified[..m])
  {
    forall p | 0 <= p < m ensures Enforced(tm', emitted', simplified[p], frames'[p].id) && StandsFor(frames', p, simplified[p]) {
      var g := simplified[p];
      EnforcedGrows(tm, tm', emitted, emitted', g, frames[p].id);
      assert StandsFor(frames, p, g);
      forall a | FramesHold(frames', p, a) ensures Eval(g, a) <==> All(frames'[p].formulas, a) {
        UnchangedPrefix(frames, frames', p, m);
        UnchangedHolds(frames, frames', p, a);
      }
    }
  }

  lemma UnchangedPrefix(frames: seq<PushFrame>, frames': seq<PushFrame>, n: nat, m: nat)
    requires Unchanged(frames, frames', m) && n <= m
    ensures Unchanged(frames, frames', n)
  {
  }

  lemma StoredGrows(tm: Mapping, tm': Mapping, d: Tagged)
    requires Grows(tm, tm') && (d.frame != 0 ==> FrameTerm(d.frame) in tm)
    ensures (d.frame != 0 ==> FrameTerm(d.frame) in tm') && Stored(tm', d) == Stored(tm, d)
  {
    if d.frame != 0 { var x := tm[FrameTerm(d.frame)]; }
  }

  lemma DatabaseOn(tm: Mapping, tm': Mapping, nextId: FrameId, nextId': FrameId, database: seq<Clause>, given: seq<Tagged>)
    requires DatabaseOk(tm, nextId, database, given) && Grows(tm, tm') && nextId <= nextId' <= nextId + 1
    requires nextId' == nextId || FrameTerm(nextId) in tm'
    ensures DatabaseOk(tm', nextId', database, given)
  {
    var x, y := tm[True], tm[False];
    forall k: FrameId | 1 <= k < nextId' ensures FrameTerm(k) in tm' {
      if k < nextId { var z := tm[FrameTerm(k)]; }
    }
    forall i | 0 <= i < |given| ensures given[i].frame < nextId' && (given[i].frame != 0 ==> FrameTerm(given[i].frame) in tm') && database[i] == Stored(tm', given[i]) {
      StoredGrows(tm, tm', given[i]);
    }
  }

  // ---------------------------------------------------------------------------
  // Push, pop and assertion

  lemma GivenFrames(tm: Mapping, nextId: FrameId, database: seq<Clause>, given: seq<Tagged>, d: Tagged)
    requires DatabaseOk(tm, nextId, database, given) && d in given
    ensures d.frame < nextId
  {
    var i :| 0 <= i < |given| && given[i] == d;
  }

  lemma PushKeeps(s: State, s': State)
    requires StateOk(s) && s.nextId > 0
    requires s' == s.(frames := s.frames + [PushFrame(s.nextId, [], LastUnsat(s.frames))], nextId := s.nextId + 1,
                      frameTerms := s.frameTerms + [FrameTerm(s.nextId)], tm := s'.tm, varToTerm := s'.varToTerm)
    requires Grows(s.tm, s'.tm) && Bijection(s'.tm, s'.varToTerm) && FrameTerm(s.nextId) in s'.tm
    ensures StateOk(s')
  {
    hide Bijection, Enforced, Follows, StandsFor, Stored, ClauseHolds, All, FramesHold, FrameTerm;
    var n := |s.frames|;
    assert Unchanged(s.frames, s'.frames, n) && s'.frames[..n] == s.frames;
    assert s.simplified[..|s.simplified|] == s.simplified;
    DatabaseOn(s.tm, s'.tm, s.nextId, s'.nextId, s.database, s.given);
    forall d | d in s.given ensures d.frame < s.nextId { GivenFrames(s.tm, s.nextId, s.database, s.given, d); }
    AllFollowOn(s.tm, s'.tm, s.frames, s'.frames, s.given, n);
    UnchangedPrefix(s.frames, s'.frames, |s.simplified|, n);
    SimplifiedOn(s.tm, s'.tm, s.frames, s'.frames, s.emitted, s.emitted, s.simplified, |s.simplified|);
    PushMarks(s.frames, s'.frames);
    PushLosesNothing(s, s');
  }

  lemma PushMarks(frames: seq<PushFrame>, frames': seq<PushFrame>)
    requires MarksOk(frames) && frames != [] && |frames'| == |frames| + 1 && frames'[..|frames|] == frames
    requires frames'[|frames|].unsat == LastUnsat(frames)
    ensures MarksOk(frames')
  {
    var n := |frames|;
    assert forall p {:trigger frames'[p]} :: 0 <= p < n ==> frames'[p] == frames[p];
    forall p | 0 <= p <= n && frames'[p].unsat ensures Hopeless(frames', p + 1) {
      var q := if p < n then p else n - 1;
      assert frames[q].unsat;
      assert Unchanged(frames, frames', n);
      HopelessOn(frames, frames', q + 1, p + 1, n);
    }
  }

  /** More formulas and more frames do not help. */
  lemma HopelessOn(frames: seq<PushFrame>, frames': seq<PushFrame>, n: nat, n': nat, m: nat)
    requires Hopeless(frames, n) && n <= n' <= |frames'| && n <= m && Extended(frames, frames', m)
    ensures Hopeless(frames', n')
  {
    ExtendedPrefix(frames, frames', n, m);
    forall a ensures !FramesHold(frames', n', a) {
      if FramesHold(frames', n', a) {
        FramesHoldPrefix(frames', n, n', a);
        ExtendedHolds(frames, frames', n, a);
      }
    }
  }

  lemma PushLosesNothing(s: State, s': State)
    requires NothingLost(s.frames, s.emitted, s.given) && (forall d {:trigger d in s.emitted} :: d in s.emitted ==> d.frame < s.nextId)
    requires |s'.frames| == |s.frames| + 1 && s'.frames[..|s.frames|] == s.frames && s'.frames[|s.frames|].id == s.nextId
    ensures NothingLost(s'.frames, s.emitted, s.given)
  {
    assert forall p {:trigger s'.frames[p]} :: 0 <= p < |s.frames| ==> s'.frames[p] == s.frames[p];
  }

  lemma PopKeeps(s: State, s': State)
    requires StateOk(s) && |s.frames| > 1
    requires var n := |s.frames| - 1;
             s' == s.(frames := s.frames[..n], simplified := if |s.simplified| <= n then s.simplified else s.simplified[..n],
                      ok := s.ok || !LastUnsat(s.frames[..n]))
    ensures StateOk(s')
  {
    hide Bijection, Enforced, Follows, StandsFor, Stored, ClauseHolds, All, DatabaseOk;
    var n := |s.frames| - 1;
    assert Unchanged(s.frames, s'.frames, n);
    assert Grows(s.tm, s.tm);
    AllFollowOn(s.tm, s.tm, s.frames, s'.frames, s.given, n);
    var m := |s'.simplified|;
    assert s.simplified[..m] == s'.simplified;
    UnchangedPrefix(s.frames, s'.frames, m, n);
    ConstantsMapped(s.tm, s.nextId, s.database, s.given);
    SimplifiedOn(s.tm, s.tm, s.frames, s'.frames, s.emitted, s.emitted, s.simplified, m);
    forall p | 0 <= p < n && s'.frames[p].unsat ensures Hopeless(s'.frames, p + 1) {
      assert s.frames[p].unsat;
      HopelessOn(s.frames, s'.frames, p + 1, p + 1, n);
    }
  }

  lemma ConstantsMapped(tm: Mapping, nextId: FrameId, database: seq<Clause>, given: seq<Tagged>)
    requires DatabaseOk(tm, nextId, database, given)
    ensures True in tm && False in tm && FramesMapped(tm, nextId)
  {
  }

  lemma InsertKeeps(s: State, s': State, f: Fla)
    requires StateOk(s) && UserFormula(f)
    requires var n := |s.frames| - 1;
             s' == s.(frames := s.frames[n := s.frames[n].(formulas := s.frames[n].formulas + [f])],
                      simplified := if |s.simplified| <= n then s.simplified else s.simplified[..n])
    ensures StateOk(s')
  {
    hide Bijection, Enforced, Follows, StandsFor, Stored, ClauseHolds, All, DatabaseOk, FramesHold, UserFormula, Hopeless, TermsOk, MarksOk;
    var n := |s.frames| - 1;
    assert Extended(s.frames, s'.frames, n + 1) && Unchanged(s.frames, s'.frames, n);
    assert Grows(s.tm, s.tm);
    AllFollowOn(s.tm, s.tm, s.frames, s'.frames, s.given, n + 1);
    var m := |s'.simplified|;
    assert s.simplified[..m] == s'.simplified;
    UnchangedPrefix(s.frames, s'.frames, m, n);
    ConstantsMapped(s.tm, s.nextId, s.database, s.given);
    SimplifiedOn(s.tm, s.tm, s.frames, s'.frames, s.emitted, s.emitted, s.simplified, m);
    InsertMarks(s.frames, s'.frames);
  }

  /** More formulas leave a hopeless frame hopeless. */
  lemma InsertMarks(frames: seq<PushFrame>, frames': seq<PushFrame>)
    requires MarksOk(frames) && frames != [] && Extended(frames, frames', |frames|) && |frames'| == |frames|
    requires forall p {:trigger frames'[p]} :: 0 <= p < |frames| ==> frames'[p].unsat == frames[p].unsat
    ensures MarksOk(frames')
  {
    hide Hopeless, Extended;
    forall p {:trigger frames'[p]} | 0 <= p < |frames| && frames'[p].unsat ensures Hopeless(frames', p + 1) {
      assert frames[p].unsat;
      HopelessOn(frames, frames', p + 1, p + 1, |frames|);
    }
  }

  // ---------------------------------------------------------------------------
  // Giving a formula to the SAT solver

  function Tags(k: FrameId, cs: seq<Clause>): (r: seq<Tagged>)
    ensures |r| == |cs| && forall i {:trigger r[i]} :: 0 <= i < |cs| ==> r[i] == Tagged(k, cs[i])
  {
    seq(|cs|, i requires 0 <= i < |cs| => Tagged(k, cs[i]))
  }

  function StoredAll(tm: Mapping, ds: seq<Tagged>): (r: seq<Clause>)
    requires forall d {:trigger d in ds} :: d in ds ==> d.frame != 0 ==> FrameTerm(d.frame) in tm
    ensures |r| == |ds| && forall i {:trigger r[i]} :: 0 <= i < |ds| ==> ds[i] in ds && r[i] == Stored(tm, ds[i])
  {
    seq(|ds|, i requires 0 <= i < |ds| => assert ds[i] in ds; Stored(tm, ds[i]))
  }

  ghost predicate FramesKnown(tm: Mapping, nextId: FrameId, ds: seq<Tagged>) {
    forall d {:trigger d in ds} :: d in ds ==> d.frame < nextId && (d.frame != 0 ==> FrameTerm(d.frame) in tm)
  }

  /** The database with the stored form of more clauses. */
  lemma DatabaseMore(tm: Mapping, nextId: FrameId, database: seq<Clause>, given: seq<Tagged>, ds: seq<Tagged>)
    requires DatabaseOk(tm, nextId, database, given) && FramesKnown(tm, nextId, ds)
    ensures DatabaseOk(tm, nextId, database + StoredAll(tm, ds), given + ds)
  {
    var given' := given + ds;
    assert forall d {:trigger d in given} :: d in given ==> d in given';
    forall i | 0 <= i < |given'|
      ensures given'[i].frame < nextId && (given'[i].frame != 0 ==> FrameTerm(given'[i].frame) in tm)
           && (database + StoredAll(tm, ds))[i] == Stored(tm, given'[i])
    {
      if i >= |given| { assert given'[i] == ds[i - |given|] && ds[i - |given|] in ds; }
    }
  }

  /** Clauses that follow from what a frame says may be given for it. */
  lemma FollowMoreTags(tm: Mapping, frames: seq<PushFrame>, given: seq<Tagged>, p: nat, root: Fla, added: seq<Clause>, m: nat)
    requires AllFollow(tm, frames, given) && p < |frames| && StandsFor(frames, p, root) && FollowFrom(tm, added, root) && m <= |added|
    requires forall i, j :: 0 <= i < j < |frames| ==> frames[i].id < frames[j].id
    ensures AllFollow(tm, frames, given + Tags(frames[p].id, added[..m]))
  {
    var k := frames[p].id;
    forall d | d in given + Tags(k, added[..m]) ensures Follows(tm, frames, d) {
      if d !in given {
        var i :| 0 <= i < m && Tags(k, added[..m])[i] == d;
        assert d == Tagged(k, added[i]) && added[i] in added;
        forall q, val, a | 0 <= q < |frames| && frames[q].id == d.frame && Intended(tm, val, a) && FramesHold(frames, q + 1, a)
          ensures ClauseHolds(d.clause, val)
        {
          assert q == p;
          FramesHoldPrefix(frames, p, p + 1, a);
          assert Eval(root, a) <==> All(frames[p].formulas, a);
        }
      }
    }
  }

  /** What one call of the CNF conversion for the frame at `p` delivers. */
  ghost predicate Delivered(s: State, tm: Mapping, varToTerm: seq<Fla>, emitted: set<Tagged>, p: nat, root: Fla, added: seq<Clause>) {
    && p < |s.frames| && |s.simplified| == p && StandsFor(s.frames, p, root)
    && Grows(s.tm, tm) && Bijection(tm, varToTerm) && emitted == s.emitted + TagAll(s.frames[p].id, added)
    && FollowFrom(tm, added, root) && Enforced(tm, emitted, root, s.frames[p].id)
  }

  lemma SimplifiedMore(s: State, tm: Mapping, varToTerm: seq<Fla>, emitted: set<Tagged>, p: nat, root: Fla, added: seq<Clause>)
    requires StateOk(s) && Delivered(s, tm, varToTerm, emitted, p, root, added)
    ensures Simplified(tm, s.frames, emitted, s.simplified + [root])
  {
    hide Enforced, StandsFor, FollowFrom, TagAll, Bijection;
    ConstantsMapped(s.tm, s.nextId, s.database, s.given);
    SimplifiedOn(s.tm, tm, s.frames, s.frames, s.emitted, emitted, s.simplified, p);
    assert s.simplified[..p] == s.simplified;
    var all := s.simplified + [root];
    forall q | 0 <= q < |all| ensures Enforced(tm, emitted, all[q], s.frames[q].id) && StandsFor(s.frames, q, all[q]) {
      if q < p { assert all[q] == s.simplified[q]; }
    }
  }

  /** The first `m` new clauses in the database: still the stored form of what follows. */
  lemma GivenSome(s: State, tm: Mapping, varToTerm: seq<Fla>, emitted: set<Tagged>, p: nat, root: Fla, added: seq<Clause>, m: nat)
    requires StateOk(s) && Delivered(s, tm, varToTerm, emitted, p, root, added) && m <= |added|
    ensures var ds := Tags(s.frames[p].id, added[..m]);
            && FramesKnown(tm, s.nextId, ds) && DatabaseOk(tm, s.nextId, s.database + StoredAll(tm, ds), s.given + ds)
            && AllFollow(tm, s.frames, s.given + ds)
  {
    hide Enforced, StandsFor, FollowFrom, TagAll, Bijection, Follows, Stored;
    var ds := Tags(s.frames[p].id, added[..m]);
    var k := s.frames[p].id;
    DatabaseOn(s.tm, tm, s.nextId, s.nextId, s.database, s.given);
    assert s.frames[p].id < s.nextId;
    assert k != 0 ==> FrameTerm(k) in tm;
    forall d | d in ds ensures d.frame < s.nextId && (d.frame != 0 ==> FrameTerm(d.frame) in tm) {
      var i :| 0 <= i < |ds| && ds[i] == d;
    }
    DatabaseMore(tm, s.nextId, s.database, s.given, ds);
    assert Extended(s.frames, s.frames, |s.frames|);
    AllFollowOn(s.tm, tm, s.frames, s.frames, s.given, |s.frames|);
    FollowMoreTags(tm, s.frames, s.given, p, root, added, m);
  }

  /** All clauses were taken. */
  lemma GaveAll(s: State, s': State, p: nat, root: Fla, added: seq<Clause>)
    requires StateOk(s) && Delivered(s, s'.tm, s'.varToTerm, s'.emitted, p, root, added)
    requires var ds := Tags(s.frames[p].id, added);
             FramesKnown(s'.tm, s.nextId, ds) &&
             s' == s.(tm := s'.tm, varToTerm := s'.varToTerm, emitted := s'.emitted, database := s.database + StoredAll(s'.tm, ds), given := s.given + ds,
                      simplified := s.simplified + [root])
    ensures StateOk(s')
  {
    hide Enforced, StandsFor, FollowFrom, Bijection, Follows, Stored, DatabaseOk, AllFollow, StackOk;
    assert added[..|added|] == added;
    GivenSome(s, s'.tm, s'.varToTerm, s'.emitted, p, root, added, |added|);
    SimplifiedMore(s, s'.tm, s'.varToTerm, s'.emitted, p, root, added);
    EmittedMore(s, s', p, added);
  }

  lemma EmittedMore(s: State, s': State, p: nat, added: seq<Clause>)
    requires NothingLost(s.frames, s.emitted, s.given) && p < |s.frames| && s'.frames == s.frames && StackOk(s.frames, s.nextId)
    requires forall d {:trigger d in s.emitted} :: d in s.emitted ==> d.frame < s.nextId
    requires s'.emitted == s.emitted + TagAll(s.frames[p].id, added) && s'.given == s.given + Tags(s.frames[p].id, added)
    ensures NothingLost(s'.frames, s'.emitted, s'.given)
    ensures forall d {:trigger d in s'.emitted} :: d in s'.emitted ==> d.frame < s.nextId
  {
    var k := s.frames[p].id;
    var ds := Tags(k, added);
    forall d | d in TagAll(k, added) ensures d in ds && d.frame < s.nextId {
      var i :| 0 <= i < |added| && d == Tagged(k, added[i]);
      assert ds[i] in ds;
    }
  }

  /** Marking hopeless frames; clauses emitted for them no longer have to be in the database. */
  lemma MarkKeeps(s: State, s': State, p: nat, added: seq<Clause>)
    requires StackOk(s.frames, s.nextId) && MarksOk(s.frames) && TermsOk(s.nextId, s.frameTerms) && p < |s.frames| && Hopeless(s.frames, p + 1)
    requires Bijection(s.tm, s.varToTerm) && DatabaseOk(s.tm, s.nextId, s.database, s.given) && AllFollow(s.tm, s.frames, s.given)
    requires NothingLost(s.frames, s.emitted, s.given) && (forall d {:trigger d in s.emitted} :: d in s.emitted ==> d.frame < s.nextId)
    requires s'.emitted == s.emitted + TagAll(s.frames[p].id, added) && Simplified(s.tm, s.frames, s'.emitted, s.simplified)
    requires s' == s.(emitted := s'.emitted, frames := MarkFrom(s.frames, p), ok := s'.ok)
    ensures StateOk(s')
  {
    hide Enforced, StandsFor, Bijection, Follows, DatabaseOk, FramesHold, UserFormula, Hopeless;
    var n := |s.frames|;
    assert Unchanged(s.frames, s'.frames, n) && Extended(s.frames, s'.frames, n);
    assert Grows(s.tm, s.tm);
    AllFollowOn(s.tm, s.tm, s.frames, s'.frames, s.given, n);
    var m := |s.simplified|;
    assert s.simplified[..m] == s.simplified;
    UnchangedPrefix(s.frames, s'.frames, m, n);
    ConstantsMapped(s.tm, s.nextId, s.database, s.given);
    SimplifiedOn(s.tm, s.tm, s.frames, s'.frames, s'.emitted, s'.emitted, s.simplified, m);
    forall q | 0 <= q < n && s'.frames[q].unsat ensures Hopeless(s'.frames, q + 1) {
      HopelessOn(s.frames, s'.frames, if q >= p then p + 1 else q + 1, q + 1, n);
    }
    MarkLosesNothing(s, s', p, added);
  }

  lemma MarkLosesNothing(s: State, s': State, p: nat, added: seq<Clause>)
    requires StackOk(s.frames, s.nextId) && p < |s.frames|
    requires NothingLost(s.frames, s.emitted, s.given) && (forall d {:trigger d in s.emitted} :: d in s.emitted ==> d.frame < s.nextId)
    requires s'.emitted == s.emitted + TagAll(s.frames[p].id, added)
    requires s'.frames == MarkFrom(s.frames, p) && s'.given == s.given
    ensures NothingLost(s'.frames, s'.emitted, s'.given)
    ensures forall d {:trigger d in s'.emitted} :: d in s'.emitted ==> d.frame < s.nextId
  {
    forall d | d in TagAll(s.frames[p].id, added) ensures d.frame == s.frames[p].id {
    }
    forall d, q | d in s'.emitted && 0 <= q < |s'.frames| && s'.frames[q].id == d.frame && !s'.frames[q].unsat ensures d in s'.given {
      assert s'.frames[q] == s.frames[q] && q < p;
      assert s.frames[q].id < s.frames[p].id;
    }
  }

  lemma DatabaseRefutes(tm: Mapping, varToTerm: seq<Fla>, frames: seq<PushFrame>, nextId: FrameId, database: seq<Clause>, given: seq<Tagged>, n: nat)
    requires Bijection(tm, varToTerm) && StackOk(frames, nextId) && 1 <= n <= |frames|
    requires DatabaseOk(tm, nextId, database, given) && AllFollow(tm, frames, given)
    requires forall val {:trigger AllHold(database, val)} :: !AllHold(database, val)
    ensures Hopeless(frames, n)
  {
    hide AllHold, DatabaseOk, AllFollow, FramesHold, Bijection;
    forall a ensures !FramesHold(frames, n, a) {
      if FramesHold(frames, n, a) {
        var val := ModelExtends(tm, varToTerm, frames, nextId, database, given, n, a);
      }
    }
  }

  /** A conflict after some clauses: the frames up to this one are unsatisfiable, and the rest of the
      clauses is not missed. */
  lemma GaveSome(s: State, s': State, p: nat, root: Fla, added: seq<Clause>, m: nat)
    requires StateOk(s) && Delivered(s, s'.tm, s'.varToTerm, s'.emitted, p, root, added) && m <= |added|
    requires var ds := Tags(s.frames[p].id, added[..m]);
             FramesKnown(s'.tm, s.nextId, ds) &&
             s' == s.(tm := s'.tm, varToTerm := s'.varToTerm, emitted := s'.emitted, database := s.database + StoredAll(s'.tm, ds), given := s.given + ds,
                      simplified := s.simplified + [root], frames := MarkFrom(s.frames, p), ok := false)
    requires forall val {:trigger AllHold(s'.database, val)} :: !AllHold(s'.database, val)
    ensures StateOk(s')
  {
    hide Enforced, StandsFor, FollowFrom, Bijection, Follows, Stored, DatabaseOk, AllFollow, TagAll, Simplified;
    GivenSome(s, s'.tm, s'.varToTerm, s'.emitted, p, root, added, m);
    SimplifiedMore(s, s'.tm, s'.varToTerm, s'.emitted, p, root, added);
    DatabaseRefutes(s'.tm, s'.varToTerm, s.frames, s.nextId, s'.database, s'.given, p + 1);
    MarkKeeps(s.(tm := s'.tm, varToTerm := s'.varToTerm, database := s'.database, given := s'.given, simplified := s'.simplified), s', p, added);
  }

  // ---------------------------------------------------------------------------
  // Answers

  /** Where the frames at positions before `q` are those with numbers up to `i`, that many (without the
      base frame) are switched on by the first `i` assumptions. */
  lemma {:induction false} CountSwitchedOn(tm: Mapping, frames: seq<PushFrame>, nextId: FrameId, ls: seq<Lit>, i: nat, q: nat)
    requires StackOk(frames, nextId) && AssumptionsOk(tm, frames, nextId, ls) && i <= |ls| && 1 <= q <= |frames|
    requires forall p {:trigger frames[p]} :: 0 <= p < |frames| ==> (frames[p].id <= i <==> p < q)
    ensures SwitchedOn(ls, i) == q - 1
  {
    if i == 0 {
      forall p {:trigger frames[p]} | 1 <= p < |frames| ensures !(p < q) {
        assert frames[0].id < frames[p].id;
      }
    } else {
      assert ls[i - 1].neg <==> IsLive(frames, |frames|, i - 1 + 1);
      if ls[i - 1].neg {
        var p :| 0 <= p < |frames| && frames[p].id == i;
        assert p == q - 1 by {
          assert p < q && frames[q - 1].id <= i;
        }
        assert q > 1;
        CountSwitchedOn(tm, frames, nextId, ls, i - 1, q - 1);
      } else {
        assert forall p {:trigger frames[p]} :: 0 <= p < |frames| ==> frames[p].id != i;
        CountSwitchedOn(tm, frames, nextId, ls, i - 1, q);
      }
    }
  }

  /** A refusal that used `j` of the switched-on frames refutes the frames up to position `j`. */
  lemma RefusalRefutes(s: State, ls: seq<Lit>, j: nat)
    requires StateOk(s) && AssumptionsOk(s.tm, s.frames, s.nextId, ls)
    requires j <= SwitchedOn(ls, |ls|) && forall val {:trigger AllHold(s.database, val)} :: AllHold(s.database, val) ==> !PartlyTrue(ls, j, val)
    ensures j < |s.frames| && Hopeless(s.frames, j + 1)
  {
    hide Bijection, DatabaseOk, AllFollow, NothingLost, Simplified, Follows, MarksOk, AllHold;
    assert |ls| == s.nextId - 1;
    CountSwitchedOn(s.tm, s.frames, s.nextId, ls, |ls|, |s.frames|);
    var n := j + 1;
    forall a ensures !FramesHold(s.frames, n, a) {
      if FramesHold(s.frames, n, a) {
        var val := ModelExtends(s.tm, s.varToTerm, s.frames, s.nextId, s.database, s.given, n, a);
        PartlyTrueUnder(s, ls, n, val);
      }
    }
  }

  lemma PartlyTrueUnder(s: State, ls: seq<Lit>, n: nat, val: Valuation)
    requires StackOk(s.frames, s.nextId) && AssumptionsOk(s.tm, s.frames, s.nextId, ls) && 1 <= n <= |s.frames|
    requires forall k: FrameId {:trigger FrameTerm(k)} :: 1 <= k < s.nextId ==> FrameTerm(k) in s.tm && (LitHolds(FrameLit(s.tm, k), val) <==> !IsLive(s.frames, n, k))
    ensures PartlyTrue(ls, n - 1, val)
  {
    forall i | 0 <= i < |ls| && (ls[i].neg ==> SwitchedOn(ls, i) < n - 1) ensures LitHolds(ls[i], val) {
      var k := i + 1;
      assert FrameTerm(k) in s.tm && ls[i] == Lit(s.tm[FrameTerm(k)], IsLive(s.frames, |s.frames|, k));
      if ls[i].neg {
        var p :| 0 <= p < |s.frames| && s.frames[p].id == k;
        assert forall q {:trigger s.frames[q]} :: 0 <= q < |s.frames| ==> (s.frames[q].id <= i <==> q < p);
        CountSwitchedOn(s.tm, s.frames, s.nextId, ls, i, p);
        assert IsLive(s.frames, n, k);
      } else {
        assert forall p {:trigger s.frames[p]} :: 0 <= p < n ==> s.frames[p].id != k;
      }
    }
  }
}
