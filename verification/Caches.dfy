/** What the frame-aware caches of the CNF conversion promise about the clauses emitted so far. */
module Caches {
  import opened Clauses
  import opened Formulas
  import opened TermMappers
  import opened Tseitin

  type FrameId = nat

  /** A clause with the frame it was emitted for; frame 0 is the base frame. */
  datatype Tagged = Tagged(frame: FrameId, clause: Clause)

  type Cache = set<(Fla, FrameId)>

  /** An entry of the base frame serves every frame. */
  predicate Contains(cache: Cache, t: Fla, k: FrameId) {
    (t, k) in cache || (t, 0) in cache
  }

  ghost predicate Grows(tm: Mapping, tm': Mapping) {
    forall t {:trigger tm[t]} {:trigger tm'[t]} :: t in tm ==> t in tm' && tm'[t] == tm[t]
  }

  // ---------------------------------------------------------------------------
  // Growing mappings

  lemma GrowsMapped(tm: Mapping, tm': Mapping, f: Fla)
    requires Grows(tm, tm') && Mapped(tm, f)
    ensures Mapped(tm', f)
  {
    var x := tm[Core(f)];
    forall k | k in Kids(f) ensures Core(k) in tm' {
      var y := tm[Core(k)];
    }
  }

  lemma {:induction false} LitsOfGrow(tm: Mapping, tm': Mapping, fs: seq<Fla>)
    requires Grows(tm, tm') && forall f {:trigger f in fs} :: f in fs ==> Core(f) in tm
    ensures forall f {:trigger f in fs} :: f in fs ==> Core(f) in tm'
    ensures LitsOf(tm', fs) == LitsOf(tm, fs)
  {
    forall f | f in fs ensures Core(f) in tm' {
      var x := tm[Core(f)];
    }
    if fs != [] {
      assert fs[0] in fs && forall f {:trigger f in fs[1..]} :: f in fs[1..] ==> f in fs;
      var x := tm[Core(fs[0])];
      LitsOfGrow(tm, tm', fs[1..]);
    }
  }

  lemma DefClausesGrow(tm: Mapping, tm': Mapping, f: Fla)
    requires Grows(tm, tm') && Connective(f) && Mapped(tm, f)
    ensures Mapped(tm', f) && DefClauses(tm', f) == DefClauses(tm, f)
  {
    GrowsMapped(tm, tm', f);
    var kids := Kids(f);
    assert forall k {:trigger k in kids} :: k in kids ==> Core(k) in tm;
    LitsOfGrow(tm, tm', kids);
    var x := tm[Core(f)];
    if !f.And? && !f.Or? {
      assert kids[0] in kids && kids[1] in kids;
      var y, z := tm[Core(kids[0])], tm[Core(kids[1])];
    }
  }

  // ---------------------------------------------------------------------------
  // Valuations of the SAT variables and of the atoms

  /** The atoms' values read off a SAT valuation. */
  ghost function AtomsUnder(tm: Mapping, val: Valuation): Valuation {
    iset x | Atom(x) in tm && tm[Atom(x)] in val
  }

  /** Every mapped formula's variable has the formula's value under `a`. */
  ghost predicate Intended(tm: Mapping, val: Valuation, a: Valuation) {
    forall t {:trigger tm[t]} :: t in tm ==> (tm[t] in val <==> Eval(t, a))
  }

  /** The constants are mapped and have their values. */
  ghost predicate ConstantsRight(tm: Mapping, val: Valuation) {
    True in tm && False in tm && tm[True] in val && tm[False] !in val
  }

  ghost predicate HoldsFor(db: set<Tagged>, k: FrameId, val: Valuation) {
    forall d {:trigger d in db} :: d in db && (d.frame == k || d.frame == 0) ==> ClauseHolds(d.clause, val)
  }

  lemma IntendedSays(tm: Mapping, val: Valuation, a: Valuation, f: Fla)
    requires Intended(tm, val, a) && Core(f) in tm
    ensures Says(tm, f, val) <==> Eval(f, a)
  {
    CoreMeans(f, a);
    var x := tm[Core(f)];
  }

  /** Under an intended valuation every definition holds. */
  lemma IntendedDefinitions(tm: Mapping, val: Valuation, a: Valuation, f: Fla)
    requires Intended(tm, val, a) && Connective(f) && Mapped(tm, f)
    ensures AllHold(DefClauses(tm, f), val)
  {
    IntendedSays(tm, val, a, f);
    forall k | k in Kids(f) ensures Says(tm, k, val) <==> Eval(k, a) {
      IntendedSays(tm, val, a, k);
    }
    AppliedMeans(tm, f, val, a);
    DefinitionDefines(tm, f, val);
  }

  /** If the arguments' literals have their values, applying the connective evaluates the formula. */
  lemma AppliedMeans(tm: Mapping, f: Fla, val: Valuation, a: Valuation)
    requires Connective(f) && Mapped(tm, f)
    requires forall k {:trigger k in Kids(f)} :: k in Kids(f) ==> (Says(tm, k, val) <==> Eval(k, a))
    ensures Applied(tm, f, val) <==> Eval(f, a)
  {
    match f
    case And(args) =>
      assert Kids(f) == args;
      AndNode(args, a);
    case Or(args) =>
      assert Kids(f) == args;
      OrNode(args, a);
      if Eval(f, a) {
        var k :| k in args && Eval(k, a);
        assert k in Kids(f) && Says(tm, k, val);
      }
    case Xor(g, h) => assert g in Kids(f) && h in Kids(f);
    case Iff(g, h) => assert g in Kids(f) && h in Kids(f);
    case Implies(g, h) => assert g in Kids(f) && h in Kids(f);
  }

  lemma {:induction false} SameAtomsSameValue(f: Fla, a: Valuation, b: Valuation)
    requires forall x {:trigger x in a} {:trigger x in b} :: x in Atoms(f) ==> (x in a <==> x in b)
    ensures Eval(f, a) <==> Eval(f, b)
    decreases f
  {
    match f
    case And(args) =>
      forall i | 0 <= i < |args| ensures Eval(args[i], a) <==> Eval(args[i], b) { SameAtomsSameValue(args[i], a, b); }
    case Or(args) =>
      forall i | 0 <= i < |args| ensures Eval(args[i], a) <==> Eval(args[i], b) { SameAtomsSameValue(args[i], a, b); }
    case Not(g) => SameAtomsSameValue(g, a, b);
    case Xor(g, h) => SameAtomsSameValue(g, a, b); SameAtomsSameValue(h, a, b);
    case Iff(g, h) => SameAtomsSameValue(g, a, b); SameAtomsSameValue(h, a, b);
    case Implies(g, h) => SameAtomsSameValue(g, a, b); SameAtomsSameValue(h, a, b);
    case Atom(x) => assert x in Atoms(f);
    case _ =>
  }

  // ---------------------------------------------------------------------------
  // The cache of definitions

  /** The formula's definition was emitted for the frame; its children are cached for the frame or still
      `pending`. */
  ghost predicate EntryOk(tm: Mapping, db: set<Tagged>, cache: Cache, pending: set<Fla>, t: Fla, k: FrameId) {
    && Mapped(tm, t)
    && (Connective(t) ==> forall c {:trigger c in DefClauses(tm, t)} :: c in DefClauses(tm, t) ==> Tagged(k, c) in db)
    && (forall kid {:trigger kid in Kids(t)} :: kid in Kids(t) ==> Contains(cache, kid, k) || kid in pending)
  }

  /** Entries of the frames other than `frame` have nothing pending. */
  ghost predicate CacheOk(tm: Mapping, db: set<Tagged>, cache: Cache, pending: set<Fla>, frame: FrameId) {
    forall t, k {:trigger (t, k) in cache} :: (t, k) in cache ==> EntryOk(tm, db, cache, if k == frame then pending else {}, t, k)
  }

  lemma EntryGrows(tm: Mapping, tm': Mapping, db: set<Tagged>, db': set<Tagged>, cache: Cache, cache': Cache, pending: set<Fla>, pending': set<Fla>, t: Fla, k: FrameId)
    requires EntryOk(tm, db, cache, pending, t, k) && Grows(tm, tm') && db <= db' && cache <= cache'
    requires forall kid {:trigger kid in pending} :: kid in pending ==> kid in pending' || Contains(cache', kid, k)
    ensures EntryOk(tm', db', cache', pending', t, k)
  {
    GrowsMapped(tm, tm', t);
    if Connective(t) { DefClausesGrow(tm, tm', t); }
  }

  /** A valuation that satisfies the clauses of the base frame and of frame `k` gives every formula
      cached for `k` the value it has under the atoms. */
  lemma {:induction false} CachedMeans(tm: Mapping, db: set<Tagged>, cache: Cache, k: FrameId, val: Valuation, t: Fla)
    requires CacheOk(tm, db, cache, {}, k) && Contains(cache, t, k)
    requires HoldsFor(db, k, val) && ConstantsRight(tm, val)
    ensures Core(t) in tm && (Says(tm, t, val) <==> Eval(t, AtomsUnder(tm, val)))
    decreases t
  {
    hide DefClauses, HoldsFor;
    var j := if (t, k) in cache then k else 0;
    assert (t, j) in cache && EntryOk(tm, db, cache, {}, t, j);
    forall kid | kid in Kids(t) ensures Core(kid) in tm && (Says(tm, kid, val) <==> Eval(kid, AtomsUnder(tm, val))) {
      KidIsSmaller(t, kid);
      CachedMeans(tm, db, cache, k, val, kid);
    }
    if Connective(t) {
      forall c | c in DefClauses(tm, t) ensures ClauseHolds(c, val) {
        TaggedHolds(db, k, val, Tagged(j, c));
      }
      DefinitionDefines(tm, t, val);
      AppliedMeans(tm, t, val, AtomsUnder(tm, val));
    } else if t.Not? {
      assert t.arg in Kids(t);
    }
  }

  lemma TaggedHolds(db: set<Tagged>, k: FrameId, val: Valuation, d: Tagged)
    requires HoldsFor(db, k, val) && d in db && (d.frame == k || d.frame == 0)
    ensures ClauseHolds(d.clause, val)
  {
  }

  lemma KidIsSmaller(t: Fla, kid: Fla)
    requires kid in Kids(t)
    ensures kid < t
  {
    match t
    case And(args) => var i :| 0 <= i < |args| && args[i] == kid;
    case Or(args) => var i :| 0 <= i < |args| && args[i] == kid;
    case _ =>
  }

  // ---------------------------------------------------------------------------
  // Steps of the conversion

  /** Dropping a pending formula that is cached. */
  lemma SkipCached(tm: Mapping, db: set<Tagged>, cache: Cache, pending: set<Fla>, frame: FrameId, t: Fla, rest: set<Fla>)
    requires CacheOk(tm, db, cache, pending, frame) && Contains(cache, t, frame)
    requires forall x {:trigger x in pending} :: x in pending ==> x == t || x in rest
    ensures CacheOk(tm, db, cache, rest, frame)
  {
    forall x, k | (x, k) in cache ensures EntryOk(tm, db, cache, if k == frame then rest else {}, x, k) {
      assert EntryOk(tm, db, cache, if k == frame then pending else {}, x, k);
    }
  }

  /** Caching a formula whose definition was just emitted; its children become pending. */
  lemma CacheOne(tm: Mapping, tm': Mapping, db: set<Tagged>, db': set<Tagged>, cache: Cache, pending: set<Fla>, frame: FrameId, t: Fla, pending': set<Fla>)
    requires CacheOk(tm, db, cache, pending, frame) && Grows(tm, tm') && db <= db'
    requires Mapped(tm', t)
    requires Connective(t) ==> forall c {:trigger c in DefClauses(tm', t)} :: c in DefClauses(tm', t) ==> Tagged(frame, c) in db'
    requires forall x {:trigger x in pending} :: x in pending ==> x == t || x in pending'
    requires forall x {:trigger x in Kids(t)} :: x in Kids(t) ==> x in pending'
    ensures CacheOk(tm', db', cache + {(t, frame)}, pending', frame)
  {
    hide DefClauses, Mapped;
    var cache' := cache + {(t, frame)};
    forall x, k | (x, k) in cache' ensures EntryOk(tm', db', cache', if k == frame then pending' else {}, x, k) {
      if (x, k) in cache {
        EntryGrows(tm, tm', db, db', cache, cache', if k == frame then pending else {}, if k == frame then pending' else {}, x, k);
      }
    }
  }

  lemma CacheGrows(tm: Mapping, tm': Mapping, db: set<Tagged>, db': set<Tagged>, cache: Cache, pending: set<Fla>, pending': set<Fla>, frame: FrameId, frame': FrameId)
    requires CacheOk(tm, db, cache, pending, frame) && Grows(tm, tm') && db <= db' && (pending == {} || (frame == frame' && pending <= pending'))
    ensures CacheOk(tm', db', cache, pending', frame')
  {
    hide DefClauses, Mapped;
    forall x, k | (x, k) in cache ensures EntryOk(tm', db', cache, if k == frame' then pending' else {}, x, k) {
      EntryGrows(tm, tm', db, db', cache, cache, if k == frame then pending else {}, if k == frame' then pending' else {}, x, k);
    }
  }

  // ---------------------------------------------------------------------------
  // The cache of top-level formulas

  ghost predicate AtomsMapped(tm: Mapping, f: Fla) {
    forall x {:trigger x in Atoms(f)} :: x in Atoms(f) ==> Atom(x) in tm
  }

  /** Whatever satisfies the clauses of the base frame and of frame `k` satisfies the formula. */
  ghost predicate Enforced(tm: Mapping, db: set<Tagged>, t: Fla, k: FrameId) {
    && AtomsMapped(tm, t)
    && forall val {:trigger HoldsFor(db, k, val)} :: HoldsFor(db, k, val) && ConstantsRight(tm, val) ==> Eval(t, AtomsUnder(tm, val))
  }

  ghost predicate ProcessedOk(tm: Mapping, db: set<Tagged>, cache: Cache) {
    forall t, k {:trigger (t, k) in cache} :: (t, k) in cache ==> Enforced(tm, db, t, k)
  }

  lemma EnforcedGrows(tm: Mapping, tm': Mapping, db: set<Tagged>, db': set<Tagged>, t: Fla, k: FrameId)
    requires Enforced(tm, db, t, k) && Grows(tm, tm') && db <= db' && True in tm && False in tm
    ensures Enforced(tm', db', t, k)
  {
    forall x | x in Atoms(t) ensures Atom(x) in tm' { var y := tm[Atom(x)]; }
    forall val | HoldsFor(db', k, val) && ConstantsRight(tm', val) ensures Eval(t, AtomsUnder(tm', val)) {
      assert HoldsFor(db, k, val);
      var y, z := tm[True], tm[False];
      forall x | x in Atoms(t) ensures x in AtomsUnder(tm, val) <==> x in AtomsUnder(tm', val) { var w := tm[Atom(x)]; }
      SameAtomsSameValue(t, AtomsUnder(tm, val), AtomsUnder(tm', val));
    }
  }

  /** A base-frame entry serves every frame. */
  lemma EnforcedInFrame(tm: Mapping, db: set<Tagged>, cache: Cache, t: Fla, k: FrameId)
    requires ProcessedOk(tm, db, cache) && Contains(cache, t, k)
    ensures Enforced(tm, db, t, k)
  {
    if (t, k) !in cache {
      assert Enforced(tm, db, t, 0);
      forall val | HoldsFor(db, k, val) && ConstantsRight(tm, val) ensures Eval(t, AtomsUnder(tm, val)) {
        assert HoldsFor(db, 0, val);
      }
    }
  }

  /** The atoms of a cached formula are mapped. */
  lemma {:induction false} CachedAtoms(tm: Mapping, db: set<Tagged>, cache: Cache, k: FrameId, t: Fla)
    requires CacheOk(tm, db, cache, {}, k) && Contains(cache, t, k)
    ensures AtomsMapped(tm, t)
    decreases t
  {
    hide DefClauses;
    var j := if (t, k) in cache then k else 0;
    assert (t, j) in cache && EntryOk(tm, db, cache, {}, t, j);
    forall kid | kid in Kids(t) ensures AtomsMapped(tm, kid) {
      KidIsSmaller(t, kid);
      CachedAtoms(tm, db, cache, k, kid);
    }
    forall x | x in Atoms(t) ensures Atom(x) in tm {
      match t
      case And(args) => var i :| 0 <= i < |args| && x in Atoms(args[i]); assert args[i] in Kids(t);
      case Or(args) => var i :| 0 <= i < |args| && x in Atoms(args[i]); assert args[i] in Kids(t);
      case Not(g) => assert g in Kids(t) && x in Atoms(g);
      case Xor(g, h) => assert g in Kids(t) && h in Kids(t) && (x in Atoms(g) || x in Atoms(h));
      case Iff(g, h) => assert g in Kids(t) && h in Kids(t) && (x in Atoms(g) || x in Atoms(h));
      case Implies(g, h) => assert g in Kids(t) && h in Kids(t) && (x in Atoms(g) || x in Atoms(h));
      case Atom(y) => assert Core(t) == t;
    }
  }

  // ---------------------------------------------------------------------------
  // What the emitted clauses follow from

  /** The clauses hold wherever every variable has its formula's value. */
  ghost predicate Definitional(tm: Mapping, cs: seq<Clause>) {
    forall val, a {:trigger Intended(tm, val, a)} :: Intended(tm, val, a) ==> AllHold(cs, val)
  }

  /** They do so if `f` is true. */
  ghost predicate FollowFrom(tm: Mapping, cs: seq<Clause>, f: Fla) {
    forall val, a {:trigger Intended(tm, val, a)} :: Intended(tm, val, a) && Eval(f, a) ==> AllHold(cs, val)
  }

  lemma IntendedShrinks(tm: Mapping, tm': Mapping, val: Valuation, a: Valuation)
    requires Grows(tm, tm') && Intended(tm', val, a)
    ensures Intended(tm, val, a)
  {
    forall t | t in tm ensures tm[t] in val <==> Eval(t, a) { var x := tm'[t]; }
  }

  lemma DefinitionalMore(tm: Mapping, tm': Mapping, cs: seq<Clause>, ds: seq<Clause>)
    requires Grows(tm, tm') && Definitional(tm, cs) && Definitional(tm', ds)
    ensures Definitional(tm', cs + ds)
  {
    forall val, a | Intended(tm', val, a) ensures AllHold(cs + ds, val) {
      IntendedShrinks(tm, tm', val, a);
      AllHoldSplit(cs, ds, val);
    }
  }

  lemma FollowMore(tm: Mapping, tm': Mapping, cs: seq<Clause>, ds: seq<Clause>, f: Fla)
    requires Grows(tm, tm') && FollowFrom(tm, cs, f) && FollowFrom(tm', ds, f)
    ensures FollowFrom(tm', cs + ds, f)
  {
    forall val, a | Intended(tm', val, a) && Eval(f, a) ensures AllHold(cs + ds, val) {
      IntendedShrinks(tm, tm', val, a);
      AllHoldSplit(cs, ds, val);
    }
  }

  lemma DefinitionsAreDefinitional(tm: Mapping, f: Fla)
    requires Connective(f) && Mapped(tm, f)
    ensures Definitional(tm, DefClauses(tm, f))
  {
    forall val, a | Intended(tm, val, a) ensures AllHold(DefClauses(tm, f), val) {
      IntendedDefinitions(tm, val, a, f);
    }
  }
}
