/** The conversion at work: literals are created, clauses handed over, caches filled. */
module CnfizerRuns {
  import opened Clauses
  import opened Formulas
  import opened TermMappers
  import opened Tseitin
  import opened Caches
  import opened Cnfizers

  ghost function TagAll(k: FrameId, cs: seq<Clause>): set<Tagged> {
    set c | c in cs :: Tagged(k, c)
  }

  lemma TagSplit(k: FrameId, cs: seq<Clause>, ds: seq<Clause>)
    ensures TagAll(k, cs + ds) == TagAll(k, cs) + TagAll(k, ds)
  {
    assert forall c {:trigger c in cs + ds} {:trigger c in cs} {:trigger c in ds} :: c in cs + ds <==> c in cs || c in ds;
  }

  lemma TagOne(k: FrameId, c: Clause)
    ensures TagAll(k, [c]) == {Tagged(k, c)} && TagAll(k, []) == {}
  {
    assert c in [c];
  }

  // ---------------------------------------------------------------------------
  // Lists built one by one

  /** `ls` are the literals of `fs`. */
  ghost predicate LitsAre(tm: Mapping, fs: seq<Fla>, ls: seq<Lit>) {
    |ls| == |fs| && forall i {:trigger ls[i]} {:trigger fs[i]} :: 0 <= i < |fs| ==> Core(fs[i]) in tm && ls[i] == LitOf(tm, fs[i])
  }

  lemma {:induction false} LitsAreAll(tm: Mapping, fs: seq<Fla>, ls: seq<Lit>)
    requires LitsAre(tm, fs, ls)
    ensures (forall f {:trigger f in fs} :: f in fs ==> Core(f) in tm) && LitsOf(tm, fs) == ls
  {
    if fs != [] {
      LitsAreAll(tm, fs[1..], ls[1..]);
      assert ls == [ls[0]] + ls[1..];
    }
  }

  lemma LitsAreGrow(tm: Mapping, tm': Mapping, fs: seq<Fla>, ls: seq<Lit>)
    requires LitsAre(tm, fs, ls) && Grows(tm, tm')
    ensures LitsAre(tm', fs, ls)
  {
    forall i | 0 <= i < |fs| ensures Core(fs[i]) in tm' && ls[i] == LitOf(tm', fs[i]) {
      var x := tm[Core(fs[i])];
    }
  }

  lemma LitGrows(tm: Mapping, tm': Mapping, f: Fla)
    requires Core(f) in tm && Grows(tm, tm')
    ensures Core(f) in tm' && LitOf(tm', f) == LitOf(tm, f)
  {
    var x := tm[Core(f)];
  }

  lemma {:induction false} PairsSnoc(first: Lit, c: Clause, l: Lit)
    ensures Pairs(first, c + [l]) == Pairs(first, c) + [[first, l]]
    ensures NegateAll(c + [l]) == NegateAll(c) + [Negate(l)]
  {
    if c == [] {
      assert c + [l] == [l];
      assert [l][1..] == [];
    } else {
      PairsSnoc(first, c[1..], l);
      assert (c + [l])[1..] == c[1..] + [l];
    }
  }

  lemma LitsAreSnoc(tm: Mapping, fs: seq<Fla>, i: nat, ls: seq<Lit>, l: Lit)
    requires i < |fs| && LitsAre(tm, fs[..i], ls) && Core(fs[i]) in tm && l == LitOf(tm, fs[i])
    ensures LitsAre(tm, fs[..i + 1], ls + [l])
  {
    assert fs[..i + 1] == fs[..i] + [fs[i]];
  }

  lemma EmptyLists(tm: Mapping)
    ensures LitsAre(tm, [], [])
  {
  }

  lemma EmptyPairs(l: Lit)
    ensures Pairs(l, []) == [] && NegateAll([]) == []
  {
  }

  // ---------------------------------------------------------------------------
  // The visit of a formula's DAG

  ghost function Elems(fs: seq<Fla>): set<Fla> {
    set f | f in fs
  }

  ghost predicate Waiting(tm: Mapping, term: Fla, fs: seq<Fla>) {
    forall f {:trigger f in fs} :: f in fs ==> f in Parts(term) && Core(f) in tm
  }

  ghost function NotCached(term: Fla, cache: Cache, k: FrameId): set<Fla> {
    set x | x in Parts(term) && !Contains(cache, x, k)
  }

  lemma StartVisit(tm: Mapping, db: set<Tagged>, cache: Cache, term: Fla, k: FrameId)
    requires CacheOk(tm, db, cache, {}, k) && Core(term) in tm
    ensures CacheOk(tm, db, cache, Elems([term]), k) && Waiting(tm, term, [term])
    ensures Definitional(tm, []) && Grows(tm, tm)
  {
    CacheGrows(tm, tm, db, db, cache, {}, Elems([term]), k, k);
  }

  lemma VisitTop(tm: Mapping, term: Fla, todo: seq<Fla>)
    requires todo != [] && Waiting(tm, term, todo)
    ensures var t, rest := todo[|todo| - 1], todo[..|todo| - 1];
            && t in Parts(term) && Core(t) in tm && Waiting(tm, term, rest)
            && (forall x {:trigger x in Elems(todo)} :: x in Elems(todo) ==> x == t || x in Elems(rest))
            && (forall x {:trigger x in todo} :: x in todo ==> x == t || x in rest)
  {
    var rest := todo[..|todo| - 1];
    assert todo == rest + [todo[|todo| - 1]];
    assert todo[|todo| - 1] in todo && forall x {:trigger x in rest} :: x in rest ==> x in todo;
  }

  lemma VisitChildren(tm: Mapping, tm': Mapping, term: Fla, todo: seq<Fla>, k: FrameId, db: set<Tagged>, more: seq<Clause>)
    requires todo != [] && Waiting(tm, term, todo) && Grows(tm, tm') && Mapped(tm', todo[|todo| - 1]) && TagAll(k, more) <= db
    ensures var t, rest := todo[|todo| - 1], todo[..|todo| - 1];
            && Waiting(tm', term, rest + Kids(t))
            && (forall x {:trigger x in Elems(todo)} :: x in Elems(todo) ==> x == t || x in Elems(rest + Kids(t)))
            && (forall x {:trigger x in Kids(t)} :: x in Kids(t) ==> x in Elems(rest + Kids(t)))
            && (forall x {:trigger x in todo} :: x in todo ==> x == t || x in rest + Kids(t))
    ensures forall c {:trigger c in more} :: c in more ==> Tagged(k, c) in db
  {
    var t, rest := todo[|todo| - 1], todo[..|todo| - 1];
    VisitTop(tm, term, todo);
    forall f | f in rest + Kids(t) ensures f in Parts(term) && Core(f) in tm' {
      if f in rest {
        var x := tm[Core(f)];
      } else {
        assert f in Kids(t);
        PartsClosed(term, t, f);
      }
    }
  }

  lemma GrowsOn(tm: Mapping, tm': Mapping, tm'': Mapping)
    requires Grows(tm, tm') && Grows(tm', tm'')
    ensures Grows(tm, tm'')
  {
    forall t | t in tm ensures t in tm'' && tm''[t] == tm[t] { var x := tm'[t]; }
  }

  lemma OneMoreCached(term: Fla, cache: Cache, k: FrameId, t: Fla)
    requires t in Parts(term) && !Contains(cache, t, k)
    ensures |NotCached(term, cache + {(t, k)}, k)| < |NotCached(term, cache, k)|
  {
    assert NotCached(term, cache + {(t, k)}, k) <= NotCached(term, cache, k) - {t};
    FewerElems(NotCached(term, cache + {(t, k)}, k), NotCached(term, cache, k) - {t});
  }

  lemma FewerElems(a: set<Fla>, b: set<Fla>)
    requires a <= b
    ensures |a| <= |b|
  {
    assert (b - a) + a == b && (b - a) * a == {};
  }

  lemma VisitDone(tm: Mapping, tm': Mapping, db: set<Tagged>, db': set<Tagged>, cache: Cache, processed: Cache, k: FrameId)
    requires CacheOk(tm', db', cache, Elems([]), k) && Grows(tm, tm') && db <= db'
    requires ProcessedOk(tm, db, processed) && True in tm && False in tm
    ensures CacheOk(tm', db', cache, {}, k) && ProcessedOk(tm', db', processed) && True in tm' && False in tm'
  {
    assert Elems([]) == {};
    forall t, j | (t, j) in processed ensures Enforced(tm', db', t, j) {
      EnforcedGrows(tm, tm', db, db', t, j);
    }
    var x, y := tm[True], tm[False];
  }

  // ---------------------------------------------------------------------------
  // The clauses of a top-level formula say what the formula says

  /** A literal's value is that of its atom. */
  lemma LiteralSays(tm: Mapping, f: Fla, val: Valuation)
    requires IsLiteral(f) && Core(f) in tm && ConstantsRight(tm, val)
    ensures Says(tm, f, val) <==> Eval(f, AtomsUnder(tm, val))
  {
    if f.Not? { assert Core(f) == f.arg; }
  }

  lemma LiteralCore(f: Fla, x: Var)
    requires IsLiteral(f) && x in Atoms(f)
    ensures Core(f) == Atom(x)
  {
    if f.Not? {
      assert x in Atoms(f.arg);
    }
  }

  lemma LiteralAtoms(tm: Mapping, fs: seq<Fla>)
    requires AllLiterals(fs) && forall f {:trigger f in fs} :: f in fs ==> Core(f) in tm
    ensures forall x {:trigger x in AtomsOf(fs)} :: x in AtomsOf(fs) ==> Atom(x) in tm
  {
    forall x | x in AtomsOf(fs) ensures Atom(x) in tm {
      var i :| 0 <= i < |fs| && x in Atoms(fs[i]);
      assert fs[i] in fs;
      LiteralCore(fs[i], x);
    }
  }

  lemma ClauseIsRight(tm: Mapping, db: set<Tagged>, f: Fla, lits: Clause, k: FrameId)
    requires OrOk(f) && LitsAre(tm, OrLeaves(f), lits) && Tagged(k, lits) in db
    ensures Enforced(tm, db, f, k) && FollowFrom(tm, [lits], f)
  {
    var fs := OrLeaves(f);
    LitsAreAll(tm, fs, lits);
    LiteralAtoms(tm, fs);
    LeavesAtoms(f);
    forall val | HoldsFor(db, k, val) && ConstantsRight(tm, val) ensures Eval(f, AtomsUnder(tm, val)) {
      TaggedHolds(db, k, val, Tagged(k, lits));
      SaysAll(tm, fs, val);
      var g :| g in fs && Says(tm, g, val);
      LiteralSays(tm, g, val);
      OrLeavesMean(f, AtomsUnder(tm, val));
    }
    forall val, a | Intended(tm, val, a) && Eval(f, a) ensures AllHold([lits], val) {
      OrLeavesMean(f, a);
      var g :| g in fs && Eval(g, a);
      IntendedSays(tm, val, a, g);
      SaysAll(tm, fs, val);
      OneHolds(lits, val);
    }
  }

  lemma DeMorganIsRight(tm: Mapping, db: set<Tagged>, f: Fla, lits: Clause, k: FrameId)
    requires f.Not? && f.arg.And? && AndOk(f.arg) && LitsAre(tm, AndLeaves(f.arg), lits) && Tagged(k, NegateAll(lits)) in db
    ensures Enforced(tm, db, f, k) && FollowFrom(tm, [NegateAll(lits)], f)
  {
    var fs := AndLeaves(f.arg);
    LitsAreAll(tm, fs, lits);
    LiteralAtoms(tm, fs);
    LeavesAtoms(f.arg);
    assert Atoms(f) == Atoms(f.arg);
    forall val | HoldsFor(db, k, val) && ConstantsRight(tm, val) ensures Eval(f, AtomsUnder(tm, val)) {
      TaggedHolds(db, k, val, Tagged(k, NegateAll(lits)));
      NegateAllHolds(lits, val);
      SaysAll(tm, fs, val);
      var g :| g in fs && !Says(tm, g, val);
      LiteralSays(tm, g, val);
      AndLeavesMean(f.arg, AtomsUnder(tm, val));
    }
    forall val, a | Intended(tm, val, a) && Eval(f, a) ensures AllHold([NegateAll(lits)], val) {
      AndLeavesMean(f.arg, a);
      var g :| g in fs && !Eval(g, a);
      IntendedSays(tm, val, a, g);
      SaysAll(tm, fs, val);
      NegateAllHolds(lits, val);
      OneHolds(NegateAll(lits), val);
    }
  }

  lemma UnitIsRight(tm: Mapping, tm': Mapping, db: set<Tagged>, cache: Cache, f: Fla, l: Lit, more: seq<Clause>, k: FrameId)
    requires Core(f) in tm && l == LitOf(tm, f) && Grows(tm, tm') && Tagged(k, [l]) in db
    requires CacheOk(tm', db, cache, {}, k) && Contains(cache, f, k) && Definitional(tm', more)
    ensures Enforced(tm', db, f, k) && FollowFrom(tm', [[l]] + more, f)
  {
    LitGrows(tm, tm', f);
    CachedAtoms(tm', db, cache, k, f);
    forall val | HoldsFor(db, k, val) && ConstantsRight(tm', val) ensures Eval(f, AtomsUnder(tm', val)) {
      TaggedHolds(db, k, val, Tagged(k, [l]));
      ShortHolds(l, l, l, val);
      CachedMeans(tm', db, cache, k, val, f);
    }
    forall val, a | Intended(tm', val, a) && Eval(f, a) ensures AllHold([[l]] + more, val) {
      IntendedSays(tm', val, a, f);
      ShortHolds(l, l, l, val);
      OneHolds([l], val);
      AllHoldSplit([[l]], more, val);
    }
  }

  lemma CachesSurvive(tm: Mapping, tm': Mapping, db: set<Tagged>, db': set<Tagged>, cache: Cache, processed: Cache, k: FrameId)
    requires CacheOk(tm, db, cache, {}, k) && Grows(tm, tm') && db <= db'
    requires ProcessedOk(tm, db, processed) && True in tm && False in tm
    ensures CacheOk(tm', db', cache, {}, k) && ProcessedOk(tm', db', processed) && True in tm' && False in tm'
  {
    CacheGrows(tm, tm', db, db', cache, {}, {}, k, k);
    assert Elems([]) == {};
    VisitDone(tm, tm', db, db', cache, processed, k);
  }

  // ---------------------------------------------------------------------------
  // Top-level conjuncts

  /** The conjuncts of a formula, each once. */
  method TopLevelConjuncts(f: Fla) returns (conjuncts: seq<Fla>)
    ensures forall x {:trigger x in conjuncts} :: x in conjuncts <==> x in AndLeaves(f)
    ensures forall i, j :: 0 <= i < j < |conjuncts| ==> conjuncts[i] != conjuncts[j]
  {
    conjuncts := [];
    var leaves := AndLeaves(f);
    for i := 0 to |leaves|
      invariant forall x {:trigger x in conjuncts} {:trigger x in leaves[..i]} :: x in conjuncts <==> x in leaves[..i]
      invariant forall i, j :: 0 <= i < j < |conjuncts| ==> conjuncts[i] != conjuncts[j]
    {
      assert leaves[..i + 1] == leaves[..i] + [leaves[i]];
      if leaves[i] !in conjuncts {
        conjuncts := conjuncts + [leaves[i]];
      }
    }
    assert leaves[..|leaves|] == leaves;
  }

  lemma NothingAdded(tm: Mapping, f: Fla)
    ensures FollowFrom(tm, [], f) && Grows(tm, tm)
  {
  }

  lemma OtherFrame(tm: Mapping, db: set<Tagged>, cache: Cache, k: FrameId, j: FrameId)
    requires CacheOk(tm, db, cache, {}, k)
    ensures CacheOk(tm, db, cache, {}, j) && Grows(tm, tm)
  {
    CacheGrows(tm, tm, db, db, cache, {}, {}, k, j);
  }

  lemma ProcessedMore(tm: Mapping, db: set<Tagged>, cache: Cache, f: Fla, k: FrameId)
    requires ProcessedOk(tm, db, cache) && Enforced(tm, db, f, k)
    ensures ProcessedOk(tm, db, cache + {(f, k)}) && Contains(cache + {(f, k)}, f, k)
  {
  }

  lemma ConjunctFollows(tm: Mapping, formula: Fla, f: Fla, cs: seq<Clause>)
    requires f in AndLeaves(formula) && FollowFrom(tm, cs, f)
    ensures FollowFrom(tm, cs, formula)
  {
    forall val, a | Intended(tm, val, a) && Eval(formula, a) ensures AllHold(cs, val) {
      AndLeavesMean(formula, a);
    }
  }

  lemma StillContained(cache: Cache, cache': Cache, fs: seq<Fla>, i: nat, k: FrameId)
    requires cache <= cache' && i <= |fs| && forall j {:trigger fs[j]} :: 0 <= j < i ==> Contains(cache, fs[j], k)
    ensures forall j {:trigger fs[j]} :: 0 <= j < i ==> Contains(cache', fs[j], k)
  {
  }

  lemma ConjunctsEnforce(tm: Mapping, db: set<Tagged>, cache: Cache, f: Fla, fs: seq<Fla>, k: FrameId)
    requires ProcessedOk(tm, db, cache) && forall x {:trigger x in fs} :: x in fs <==> x in AndLeaves(f)
    requires forall j {:trigger fs[j]} :: 0 <= j < |fs| ==> Contains(cache, fs[j], k)
    ensures Enforced(tm, db, f, k)
  {
    forall x | x in AndLeaves(f) ensures Enforced(tm, db, x, k) {
      assert x in fs;
      var j :| 0 <= j < |fs| && fs[j] == x;
      EnforcedInFrame(tm, db, cache, x, k);
    }
    LeavesAtoms(f);
    forall x | x in Atoms(f) ensures Atom(x) in tm {
      var leaves := AndLeaves(f);
      var i :| 0 <= i < |leaves| && x in Atoms(leaves[i]);
      assert leaves[i] in AndLeaves(f);
    }
    forall val | HoldsFor(db, k, val) && ConstantsRight(tm, val) ensures Eval(f, AtomsUnder(tm, val)) {
      AndLeavesMean(f, AtomsUnder(tm, val));
    }
  }

  class Cnfizer {
    const tmap: TermMapper
    var alreadyProcessed: Cache
    var alreadyCnfized: Cache
    var currentFrameId: FrameId
    /** The clauses handed over by the current call, and, for the proof, all clauses ever handed over. */
    var clauses: seq<Clause>
    ghost var emitted: set<Tagged>

    ghost predicate Valid()
      reads this, tmap
    {
      && tmap.Valid() && True in tmap.termToVar && False in tmap.termToVar
      && CacheOk(tmap.termToVar, emitted, alreadyCnfized, {}, currentFrameId)
      && ProcessedOk(tmap.termToVar, emitted, alreadyProcessed)
    }

    constructor (tmap: TermMapper)
      requires tmap.Valid() && True in tmap.termToVar && False in tmap.termToVar
      ensures this.tmap == tmap && Valid() && clauses == [] && emitted == {} && alreadyProcessed == {} && alreadyCnfized == {}
    {
      this.tmap := tmap;
      alreadyProcessed, alreadyCnfized, currentFrameId, clauses, emitted := {}, {}, 0, [], {};
    }

    /** A fresh callback: nothing has been handed over to it. */
    method SetClauseCallBack()
      modifies this`clauses
      ensures clauses == []
    {
      clauses := [];
    }

    /** The clauses `added` were handed over; the caches are untouched. */
    twostate predicate HandedOver(added: seq<Clause>)
      reads this, tmap
    {
      && tmap.Valid() && Grows(old(tmap.termToVar), tmap.termToVar)
      && clauses == old(clauses) + added && emitted == old(emitted) + TagAll(currentFrameId, added)
    }

    method AddClause(c: Clause)
      requires tmap.Valid()
      modifies this`clauses, this`emitted
      ensures HandedOver([c])
    {
      TagOne(currentFrameId, c);
      clauses := clauses + [c];
      emitted := emitted + {Tagged(currentFrameId, c)};
    }

    /** aux => a_i for every i, and all a_i => aux. */
    method CnfizeAnd(t: Fla)
      requires tmap.Valid() && t.And?
      modifies this`clauses, this`emitted, tmap
      ensures Mapped(tmap.termToVar, t) && HandedOver(DefClauses(tmap.termToVar, t))
    {
      hide LitsOf, Pairs, NegateAll, TagAll, Bijection, LitsAre;
      var v := tmap.GetOrCreateLit(t);
      var bigClause := [v];
      ghost var ls: seq<Lit> := [];
      EmptyLists(tmap.termToVar);
      assert t.args[..0] == [];
      ghost var added: seq<Clause> := [];
      TagOne(currentFrameId, []);
      EmptyPairs(Negate(v));
      for i := 0 to |t.args|
        invariant Core(t) in tmap.termToVar && v == LitOf(tmap.termToVar, t)
        invariant LitsAre(tmap.termToVar, t.args[..i], ls) && bigClause == [v] + NegateAll(ls)
        invariant added == Pairs(Negate(v), ls) && HandedOver(added)
      {
        ghost var tm := tmap.termToVar;
        var argLit := tmap.GetOrCreateLit(t.args[i]);
        LitsAreGrow(tm, tmap.termToVar, t.args[..i], ls);
        LitGrows(tm, tmap.termToVar, t);
        PairsSnoc(Negate(v), ls, argLit);
        TagSplit(currentFrameId, added, [[Negate(v), argLit]]);
        bigClause := bigClause + [Negate(argLit)];
        AddClause([Negate(v), argLit]);
        added := added + [[Negate(v), argLit]];
        LitsAreSnoc(tmap.termToVar, t.args, i, ls, argLit);
        ls := ls + [argLit];
      }
      assert t.args[..|t.args|] == t.args;
      LitsAreAll(tmap.termToVar, t.args, ls);
      TagSplit(currentFrameId, added, [bigClause]);
      AddClause(bigClause);
      assert Kids(t) == t.args;
    }

    /** a_i => aux for every i, and aux => some a_i. */
    method CnfizeOr(t: Fla)
      requires tmap.Valid() && t.Or?
      modifies this`clauses, this`emitted, tmap
      ensures Mapped(tmap.termToVar, t) && HandedOver(DefClauses(tmap.termToVar, t))
    {
      hide LitsOf, Pairs, NegateAll, TagAll, Bijection, LitsAre;
      var v := tmap.GetOrCreateLit(t);
      var bigClause := [Negate(v)];
      ghost var ls: seq<Lit> := [];
      EmptyLists(tmap.termToVar);
      assert t.args[..0] == [];
      ghost var added: seq<Clause> := [];
      TagOne(currentFrameId, []);
      EmptyPairs(v);
      for i := 0 to |t.args|
        invariant Core(t) in tmap.termToVar && v == LitOf(tmap.termToVar, t)
        invariant LitsAre(tmap.termToVar, t.args[..i], ls) && bigClause == [Negate(v)] + ls
        invariant added == Pairs(v, NegateAll(ls)) && HandedOver(added)
      {
        ghost var tm := tmap.termToVar;
        var argLit := tmap.GetOrCreateLit(t.args[i]);
        LitsAreGrow(tm, tmap.termToVar, t.args[..i], ls);
        LitGrows(tm, tmap.termToVar, t);
        PairsSnoc(v, ls, argLit);
        PairsSnoc(v, NegateAll(ls), Negate(argLit));
        TagSplit(currentFrameId, added, [[v, Negate(argLit)]]);
        bigClause := bigClause + [argLit];
        AddClause([v, Negate(argLit)]);
        added := added + [[v, Negate(argLit)]];
        LitsAreSnoc(tmap.termToVar, t.args, i, ls, argLit);
        ls := ls + [argLit];
      }
      assert t.args[..|t.args|] == t.args;
      LitsAreAll(tmap.termToVar, t.args, ls);
      TagSplit(currentFrameId, added, [bigClause]);
      AddClause(bigClause);
      assert Kids(t) == t.args;
    }

    /** The literals of a binary connective and its arguments. */
    method ThreeLits(t: Fla) returns (v: Lit, x: Lit, y: Lit)
      requires tmap.Valid() && (t.Xor? || t.Iff? || t.Implies?)
      modifies tmap
      ensures tmap.Valid() && Grows(old(tmap.termToVar), tmap.termToVar) && Mapped(tmap.termToVar, t)
      ensures v == LitOf(tmap.termToVar, t) && Core(t.left) in tmap.termToVar && x == LitOf(tmap.termToVar, t.left)
      ensures Core(t.right) in tmap.termToVar && y == LitOf(tmap.termToVar, t.right)
    {
      v := tmap.GetOrCreateLit(t);
      x := tmap.GetOrCreateLit(t.left);
      y := tmap.GetOrCreateLit(t.right);
      assert Kids(t) == [t.left, t.right];
    }

    method AddFour(a: Clause, b: Clause, c: Clause, d: Clause)
      requires tmap.Valid()
      modifies this`clauses, this`emitted
      ensures HandedOver([a, b, c, d])
    {
      AddThree(a, b, c);
      AddClause(d);
      TagSplit(currentFrameId, [a, b, c], [d]);
      assert [a, b, c] + [d] == [a, b, c, d];
    }

    method AddThree(a: Clause, b: Clause, c: Clause)
      requires tmap.Valid()
      modifies this`clauses, this`emitted
      ensures HandedOver([a, b, c])
    {
      AddClause(a);
      AddClause(b);
      TagSplit(currentFrameId, [a], [b]);
      AddClause(c);
      TagSplit(currentFrameId, [a, b], [c]);
      assert [a] + [b] == [a, b] && [a, b] + [c] == [a, b, c];
    }

    method CnfizeXor(t: Fla)
      requires tmap.Valid() && t.Xor?
      modifies this`clauses, this`emitted, tmap
      ensures Mapped(tmap.termToVar, t) && HandedOver(DefClauses(tmap.termToVar, t))
    {
      var v, x, y := ThreeLits(t);
      AddFour([Negate(v), x, y], [Negate(v), Negate(x), Negate(y)], [v, Negate(x), y], [v, x, Negate(y)]);
    }

    method CnfizeIff(t: Fla)
      requires tmap.Valid() && t.Iff?
      modifies this`clauses, this`emitted, tmap
      ensures Mapped(tmap.termToVar, t) && HandedOver(DefClauses(tmap.termToVar, t))
    {
      var v, x, y := ThreeLits(t);
      AddFour([Negate(v), x, Negate(y)], [Negate(v), Negate(x), y], [v, x, y], [v, Negate(x), Negate(y)]);
    }

    method CnfizeImplies(t: Fla)
      requires tmap.Valid() && t.Implies?
      modifies this`clauses, this`emitted, tmap
      ensures Mapped(tmap.termToVar, t) && HandedOver(DefClauses(tmap.termToVar, t))
    {
      var v, x, y := ThreeLits(t);
      AddThree([v, x], [v, Negate(y)], [Negate(v), Negate(x), y]);
    }

    /** The definition of a connective; nothing for other formulas. */
    method EmitDefinition(t: Fla) returns (ghost added: seq<Clause>)
      requires tmap.Valid() && Core(t) in tmap.termToVar
      modifies this`clauses, this`emitted, tmap
      ensures HandedOver(added) && Mapped(tmap.termToVar, t) && Definitional(tmap.termToVar, added)
      ensures Connective(t) ==> added == DefClauses(tmap.termToVar, t)
    {
      if t.And? {
        CnfizeAnd(t);
      } else if t.Or? {
        CnfizeOr(t);
      } else if t.Xor? {
        CnfizeXor(t);
      } else if t.Iff? {
        CnfizeIff(t);
      } else if t.Implies? {
        CnfizeImplies(t);
      }
      if Connective(t) {
        added := DefClauses(tmap.termToVar, t);
        DefinitionsAreDefinitional(tmap.termToVar, t);
      } else {
        added := [];
        TagOne(currentFrameId, []);
      }
    }

    /** Visits the formula's DAG and emits the definitions that are not there for the frame yet. */
    method CnfizeTerm(term: Fla) returns (ghost added: seq<Clause>)
      requires Valid() && Core(term) in tmap.termToVar
      modifies this`clauses, this`emitted, this`alreadyCnfized, tmap
      ensures Valid() && Contains(alreadyCnfized, term, currentFrameId)
      ensures HandedOver(added) && Definitional(tmap.termToVar, added)
    {
      hide CacheOk, ProcessedOk, Definitional, Grows, Bijection, TagAll, Mapped, DefClauses;
      var unprocessed := [term];
      added := [];
      TagOne(currentFrameId, []);
      StartVisit(tmap.termToVar, emitted, alreadyCnfized, term, currentFrameId);
      while unprocessed != []
        invariant HandedOver(added) && Definitional(tmap.termToVar, added)
        invariant CacheOk(tmap.termToVar, emitted, alreadyCnfized, Elems(unprocessed), currentFrameId)
        invariant Waiting(tmap.termToVar, term, unprocessed)
        invariant Contains(alreadyCnfized, term, currentFrameId) || term in unprocessed
        decreases |NotCached(term, alreadyCnfized, currentFrameId)|, |unprocessed|
      {
        ghost var todo := unprocessed;
        var ptr := unprocessed[|unprocessed| - 1];
        unprocessed := unprocessed[..|unprocessed| - 1];
        VisitTop(tmap.termToVar, term, todo);
        if Contains(alreadyCnfized, ptr, currentFrameId) {
          SkipCached(tmap.termToVar, emitted, alreadyCnfized, Elems(todo), currentFrameId, ptr, Elems(unprocessed));
          continue;
        }
        ghost var tm, db := tmap.termToVar, emitted;
        ghost var more := EmitDefinition(ptr);
        unprocessed := unprocessed + Kids(ptr);
        VisitChildren(tm, tmap.termToVar, term, todo, currentFrameId, emitted, more);
        CacheOne(tm, tmap.termToVar, db, emitted, alreadyCnfized, Elems(todo), currentFrameId, ptr, Elems(unprocessed));
        DefinitionalMore(tm, tmap.termToVar, added, more);
        TagSplit(currentFrameId, added, more);
        GrowsOn(old(tmap.termToVar), tm, tmap.termToVar);
        OneMoreCached(term, alreadyCnfized, currentFrameId, ptr);
        added := added + more;
        alreadyCnfized := alreadyCnfized + {(ptr, currentFrameId)};
      }
      VisitDone(old(tmap.termToVar), tmap.termToVar, old(emitted), emitted, alreadyCnfized, alreadyProcessed, currentFrameId);
    }

    /** Appends the literals of a clause's leaves. */
    method RetrieveClause(f: Fla, clause: Clause, ghost fs: seq<Fla>) returns (r: Clause)
      requires tmap.Valid() && LitsAre(tmap.termToVar, fs, clause)
      modifies tmap
      ensures tmap.Valid() && Grows(old(tmap.termToVar), tmap.termToVar)
      ensures LitsAre(tmap.termToVar, fs + OrLeaves(f), r)
      decreases f, 0
    {
      if f.Or? {
        r := RetrieveClauses(f.args, clause, fs);
      } else {
        var l := tmap.GetOrCreateLit(f);
        LitsAreGrow(old(tmap.termToVar), tmap.termToVar, fs, clause);
        r := clause + [l];
      }
    }

    method RetrieveClauses(args: seq<Fla>, clause: Clause, ghost fs: seq<Fla>) returns (r: Clause)
      requires tmap.Valid() && LitsAre(tmap.termToVar, fs, clause)
      modifies tmap
      ensures tmap.Valid() && Grows(old(tmap.termToVar), tmap.termToVar)
      ensures LitsAre(tmap.termToVar, fs + OrLeavesOf(args), r)
      decreases args, 1
    {
      r := clause;
      ghost var done := fs;
      for i := 0 to |args|
        invariant tmap.Valid() && Grows(old(tmap.termToVar), tmap.termToVar)
        invariant LitsAre(tmap.termToVar, done, r) && done + OrLeavesOf(args[i..]) == fs + OrLeavesOf(args)
      {
        ghost var tm := tmap.termToVar;
        assert args[i..][0] == args[i] && args[i..][1..] == args[i + 1..];
        assert (done + OrLeaves(args[i])) + OrLeavesOf(args[i + 1..]) == done + OrLeavesOf(args[i..]);
        r := RetrieveClause(args[i], r, done);
        GrowsOn(old(tmap.termToVar), tm, tmap.termToVar);
        done := done + OrLeaves(args[i]);
      }
    }

    /** A top-level literal or disjunction of literals becomes one clause. */
    method ProcessClause(f: Fla) returns (ghost added: seq<Clause>)
      requires Valid() && OrOk(f)
      modifies this`clauses, this`emitted, tmap
      ensures HandedOver(added) && Enforced(tmap.termToVar, emitted, f, currentFrameId) && FollowFrom(tmap.termToVar, added, f)
    {
      hide OrOk, CacheOk, ProcessedOk, FollowFrom, Enforced, Bijection, LitsAre;
      EmptyLists(tmap.termToVar);
      var lits := RetrieveClause(f, [], []);
      assert [] + OrLeaves(f) == OrLeaves(f);
      AddClause(lits);
      added := [lits];
      TagOne(currentFrameId, lits);
      ClauseIsRight(tmap.termToVar, emitted, f, lits, currentFrameId);
    }

    /** The negation of a conjunction of literals becomes one clause. */
    method DeMorganize(f: Fla) returns (ghost added: seq<Clause>)
      requires Valid() && f.Not? && f.arg.And? && AndOk(f.arg)
      modifies this`clauses, this`emitted, tmap
      ensures HandedOver(added) && Enforced(tmap.termToVar, emitted, f, currentFrameId) && FollowFrom(tmap.termToVar, added, f)
    {
      hide AndOk, CacheOk, ProcessedOk, FollowFrom, Enforced, Bijection, LitsAre, NegateAll;
      var conjuncts := AndLeaves(f.arg);
      var clause: Clause := [];
      ghost var ls: seq<Lit> := [];
      EmptyLists(tmap.termToVar);
      EmptyPairs(Lit(0, false));
      assert conjuncts[..0] == [];
      for i := 0 to |conjuncts|
        invariant tmap.Valid() && Grows(old(tmap.termToVar), tmap.termToVar)
        invariant clauses == old(clauses) && emitted == old(emitted)
        invariant LitsAre(tmap.termToVar, conjuncts[..i], ls) && clause == NegateAll(ls)
      {
        ghost var tm := tmap.termToVar;
        var l := tmap.GetOrCreateLit(conjuncts[i]);
        LitsAreGrow(tm, tmap.termToVar, conjuncts[..i], ls);
        LitsAreSnoc(tmap.termToVar, conjuncts, i, ls, l);
        PairsSnoc(l, ls, l);
        GrowsOn(old(tmap.termToVar), tm, tmap.termToVar);
        clause, ls := clause + [Negate(l)], ls + [l];
      }
      assert conjuncts[..|conjuncts|] == conjuncts;
      AddClause(clause);
      added := [clause];
      TagOne(currentFrameId, clause);
      DeMorganIsRight(tmap.termToVar, emitted, f, ls, currentFrameId);
    }

    /** Any other formula: its literal as a unit clause, and the definitions below it. */
    method CnfizeAndAssert(f: Fla) returns (ghost added: seq<Clause>)
      requires Valid()
      modifies this`clauses, this`emitted, this`alreadyCnfized, tmap
      ensures Valid() && HandedOver(added) && Enforced(tmap.termToVar, emitted, f, currentFrameId) && FollowFrom(tmap.termToVar, added, f)
    {
      hide CacheOk, ProcessedOk, FollowFrom, Enforced, Bijection, Definitional;
      var l := tmap.GetOrCreateLit(f);
      AddClause([l]);
      TagOne(currentFrameId, [l]);
      CachesSurvive(old(tmap.termToVar), tmap.termToVar, old(emitted), emitted, alreadyCnfized, alreadyProcessed, currentFrameId);
      ghost var tm := tmap.termToVar;
      var more := CnfizeTerm(f);
      added := [[l]] + more;
      TagSplit(currentFrameId, [[l]], more);
      GrowsOn(old(tmap.termToVar), tm, tmap.termToVar);
      UnitIsRight(tm, tmap.termToVar, emitted, alreadyCnfized, f, l, more, currentFrameId);
    }

    /** Enters one top-level formula of the frame: every way of asserting it enforces it. */
    method EnterConjunct(f: Fla) returns (ghost added: seq<Clause>)
      requires Valid() && !Contains(alreadyProcessed, f, currentFrameId)
      modifies this`clauses, this`emitted, this`alreadyCnfized, this`alreadyProcessed, tmap
      ensures Valid() && Contains(alreadyProcessed, f, currentFrameId) && old(alreadyProcessed) <= alreadyProcessed
      ensures HandedOver(added) && FollowFrom(tmap.termToVar, added, f)
    {
      hide CacheOk, ProcessedOk, FollowFrom, Enforced, Bijection, OrOk, AndOk, Contains;
      var clausal := IsClause(f);
      var pureConjunction := CheckDeMorgan(f);
      if clausal {
        added := ProcessClause(f);
        CachesSurvive(old(tmap.termToVar), tmap.termToVar, old(emitted), emitted, alreadyCnfized, alreadyProcessed, currentFrameId);
      } else if pureConjunction {
        added := DeMorganize(f);
        CachesSurvive(old(tmap.termToVar), tmap.termToVar, old(emitted), emitted, alreadyCnfized, alreadyProcessed, currentFrameId);
      } else {
        added := CnfizeAndAssert(f);
      }
      ProcessedMore(tmap.termToVar, emitted, alreadyProcessed, f, currentFrameId);
      alreadyProcessed := alreadyProcessed + {(f, currentFrameId)};
    }

    /** Gives a formula to the frame: whatever satisfies the frame's clauses satisfies the formula, and
        the new clauses follow from it. */
    method Cnfize(formula: Fla, frameId: FrameId) returns (ghost added: seq<Clause>)
      requires Valid()
      modifies this`clauses, this`emitted, this`alreadyCnfized, this`alreadyProcessed, this`currentFrameId, tmap
      ensures Valid() && currentFrameId == frameId
      ensures HandedOver(added) && FollowFrom(tmap.termToVar, added, formula)
      ensures Enforced(tmap.termToVar, emitted, formula, frameId)
    {
      hide CacheOk, ProcessedOk, FollowFrom, Enforced, Bijection, Contains, Grows, TagAll;
      OtherFrame(tmap.termToVar, emitted, alreadyCnfized, currentFrameId, frameId);
      currentFrameId := frameId;
      var topLevelFormulae := TopLevelConjuncts(formula);
      added := [];
      TagOne(frameId, []);
      NothingAdded(tmap.termToVar, formula);
      for i := 0 to |topLevelFormulae|
        invariant Valid() && currentFrameId == frameId
        invariant HandedOver(added) && FollowFrom(tmap.termToVar, added, formula)
        invariant forall k {:trigger topLevelFormulae[k]} :: 0 <= k < i ==> Contains(alreadyProcessed, topLevelFormulae[k], frameId)
      {
        if !Contains(alreadyProcessed, topLevelFormulae[i], frameId) {
          ghost var tm, processed := tmap.termToVar, alreadyProcessed;
          assert topLevelFormulae[i] in topLevelFormulae;
          var more := EnterConjunct(topLevelFormulae[i]);
          ConjunctFollows(tmap.termToVar, formula, topLevelFormulae[i], more);
          FollowMore(tm, tmap.termToVar, added, more, formula);
          TagSplit(frameId, added, more);
          GrowsOn(old(tmap.termToVar), tm, tmap.termToVar);
          StillContained(processed, alreadyProcessed, topLevelFormulae, i, frameId);
          added := added + more;
        }
      }
      ConjunctsEnforce(tmap.termToVar, emitted, alreadyProcessed, formula, topLevelFormulae, frameId);
    }
  }
}
