/** The incremental CNF conversion: top-level dispatch, clause extraction and the definitional
    conversion, with caches per frame. */
module Cnfizers {
  import opened Clauses
  import opened Formulas
  import opened TermMappers
  import opened Tseitin
  import opened Caches

  // ---------------------------------------------------------------------------
  // Shapes

  predicate IsAtom(f: Fla) {
    f.Atom? || f.True? || f.False?
  }

  predicate IsLiteral(f: Fla) {
    IsAtom(f) || (f.Not? && IsAtom(f.arg))
  }

  /** The leaves of a tree of disjunctions, of conjunctions, from left to right. */
  function OrLeaves(f: Fla): seq<Fla> {
    if f.Or? then OrLeavesOf(f.args) else [f]
  }

  function OrLeavesOf(fs: seq<Fla>): seq<Fla> {
    if fs == [] then [] else OrLeaves(fs[0]) + OrLeavesOf(fs[1..])
  }

  function AndLeaves(f: Fla): seq<Fla> {
    if f.And? then AndLeavesOf(f.args) else [f]
  }

  function AndLeavesOf(fs: seq<Fla>): seq<Fla> {
    if fs == [] then [] else AndLeaves(fs[0]) + AndLeavesOf(fs[1..])
  }

  ghost predicate AllLiterals(fs: seq<Fla>) {
    forall f {:trigger f in fs} :: f in fs ==> IsLiteral(f)
  }

  lemma {:induction false} OrLeavesMean(f: Fla, val: Valuation)
    ensures Eval(f, val) <==> Some(OrLeaves(f), val)
    decreases f
  {
    if f.Or? {
      OrNode(f.args, val);
      OrLeavesOfMean(f.args, val);
    } else {
      assert f in OrLeaves(f);
    }
  }

  lemma {:induction false} OrLeavesOfMean(fs: seq<Fla>, val: Valuation)
    ensures Some(fs, val) <==> Some(OrLeavesOf(fs), val)
    decreases fs
  {
    if fs != [] {
      OrLeavesMean(fs[0], val);
      OrLeavesOfMean(fs[1..], val);
      SomeSplit([fs[0]], fs[1..], val);
      SomeSplit(OrLeaves(fs[0]), OrLeavesOf(fs[1..]), val);
      assert fs == [fs[0]] + fs[1..];
      assert fs[0] in [fs[0]];
    }
  }

  lemma {:induction false} AndLeavesMean(f: Fla, val: Valuation)
    ensures Eval(f, val) <==> All(AndLeaves(f), val)
    decreases f
  {
    if f.And? {
      AndNode(f.args, val);
      AndLeavesOfMean(f.args, val);
    } else {
      assert f in AndLeaves(f);
    }
  }

  lemma {:induction false} AndLeavesOfMean(fs: seq<Fla>, val: Valuation)
    ensures All(fs, val) <==> All(AndLeavesOf(fs), val)
    decreases fs
  {
    if fs != [] {
      AndLeavesMean(fs[0], val);
      AndLeavesOfMean(fs[1..], val);
      SomeSplit([fs[0]], fs[1..], val);
      SomeSplit(AndLeaves(fs[0]), AndLeavesOf(fs[1..]), val);
      assert fs == [fs[0]] + fs[1..];
      assert fs[0] in [fs[0]];
    }
  }

  lemma SomeSplit(fs: seq<Fla>, gs: seq<Fla>, val: Valuation)
    ensures Some(fs + gs, val) <==> Some(fs, val) || Some(gs, val)
    ensures All(fs + gs, val) <==> All(fs, val) && All(gs, val)
  {
    assert forall f {:trigger f in fs + gs} {:trigger f in fs} {:trigger f in gs} :: f in fs + gs <==> f in fs || f in gs;
  }

  lemma {:induction false} LeavesAtoms(f: Fla)
    ensures AtomsOf(OrLeaves(f)) == Atoms(f) && AtomsOf(AndLeaves(f)) == Atoms(f)
    decreases f
  {
    AtomsOfOne(f);
    if f.Or? {
      ListLeavesAtoms(f.args);
    } else if f.And? {
      ListLeavesAtoms(f.args);
    }
  }

  lemma {:induction false} ListLeavesAtoms(fs: seq<Fla>)
    ensures AtomsOf(OrLeavesOf(fs)) == AtomsOf(fs) && AtomsOf(AndLeavesOf(fs)) == AtomsOf(fs)
    decreases fs
  {
    if fs != [] {
      LeavesAtoms(fs[0]);
      ListLeavesAtoms(fs[1..]);
      AtomsOfOne(fs[0]);
      AtomsOfSplit(OrLeaves(fs[0]), OrLeavesOf(fs[1..]));
      AtomsOfSplit(AndLeaves(fs[0]), AndLeavesOf(fs[1..]));
      AtomsOfSplit([fs[0]], fs[1..]);
      assert fs == [fs[0]] + fs[1..];
    }
  }

  lemma AtomsOfOne(f: Fla)
    ensures AtomsOf([f]) == Atoms(f)
  {
    assert [f][0] == f;
  }

  lemma AtomsOfSplit(fs: seq<Fla>, gs: seq<Fla>)
    ensures AtomsOf(fs + gs) == AtomsOf(fs) + AtomsOf(gs)
  {
    hide Atoms;
    var all := fs + gs;
    forall x | x in AtomsOf(fs) ensures x in AtomsOf(all) {
      var i :| 0 <= i < |fs| && x in Atoms(fs[i]);
      assert all[i] == fs[i];
    }
    forall x | x in AtomsOf(gs) ensures x in AtomsOf(all) {
      var i :| 0 <= i < |gs| && x in Atoms(gs[i]);
      assert all[|fs| + i] == gs[i];
    }
    forall x | x in AtomsOf(all) ensures x in AtomsOf(fs) + AtomsOf(gs) {
      var i :| 0 <= i < |all| && x in Atoms(all[i]);
      assert i < |fs| ==> all[i] == fs[i];
      assert i >= |fs| ==> all[i] == gs[i - |fs|];
    }
  }

  // ---------------------------------------------------------------------------
  // Termination measures

  ghost function Weight(f: Fla): nat {
    match f
    case Not(g) => 1 + Weight(g)
    case And(args) => 1 + WeightAll(args)
    case Or(args) => 1 + WeightAll(args)
    case Xor(a, b) => 1 + Weight(a) + Weight(b)
    case Iff(a, b) => 1 + Weight(a) + Weight(b)
    case Implies(a, b) => 1 + Weight(a) + Weight(b)
    case _ => 1
  }

  ghost function WeightAll(fs: seq<Fla>): nat {
    if fs == [] then 0 else Weight(fs[0]) + WeightAll(fs[1..])
  }

  lemma {:induction false} WeightSplit(fs: seq<Fla>, gs: seq<Fla>)
    ensures WeightAll(fs + gs) == WeightAll(fs) + WeightAll(gs)
  {
    if fs == [] {
      assert fs + gs == gs;
    } else {
      WeightSplit(fs[1..], gs);
      assert (fs + gs)[1..] == fs[1..] + gs;
    }
  }

  lemma WeightTop(fs: seq<Fla>)
    requires fs != []
    ensures WeightAll(fs) == WeightAll(fs[..|fs| - 1]) + Weight(fs[|fs| - 1])
  {
    assert fs == fs[..|fs| - 1] + [fs[|fs| - 1]];
    WeightSplit(fs[..|fs| - 1], [fs[|fs| - 1]]);
    assert [fs[|fs| - 1]][1..] == [];
  }

  /** The subformulas of a formula, itself included. */
  function Parts(f: Fla): set<Fla> {
    match f
    case Not(g) => {f} + Parts(g)
    case And(args) => {f} + set i, x | 0 <= i < |args| && x in Parts(args[i]) :: x
    case Or(args) => {f} + set i, x | 0 <= i < |args| && x in Parts(args[i]) :: x
    case Xor(a, b) => {f} + Parts(a) + Parts(b)
    case Iff(a, b) => {f} + Parts(a) + Parts(b)
    case Implies(a, b) => {f} + Parts(a) + Parts(b)
    case _ => {f}
  }

  lemma {:induction false} PartsClosed(f: Fla, x: Fla, y: Fla)
    requires x in Parts(f) && y in Kids(x)
    ensures y in Parts(f)
    decreases f
  {
    assert y in Parts(y);
    if x == f {
      match f
      case And(args) => var i :| 0 <= i < |args| && args[i] == y;
      case Or(args) => var i :| 0 <= i < |args| && args[i] == y;
      case _ =>
    } else {
      match f
      case Not(g) => PartsClosed(g, x, y);
      case And(args) => var i :| 0 <= i < |args| && x in Parts(args[i]); PartsClosed(args[i], x, y);
      case Or(args) => var i :| 0 <= i < |args| && x in Parts(args[i]); PartsClosed(args[i], x, y);
      case Xor(a, b) => if x in Parts(a) { PartsClosed(a, x, y); } else { PartsClosed(b, x, y); }
      case Iff(a, b) => if x in Parts(a) { PartsClosed(a, x, y); } else { PartsClosed(b, x, y); }
      case Implies(a, b) => if x in Parts(a) { PartsClosed(a, x, y); } else { PartsClosed(b, x, y); }
    }
  }

  // ---------------------------------------------------------------------------
  // Recognising clauses and negated conjunctions

  ghost predicate OrOk(f: Fla) { AllLiterals(OrLeaves(f)) }
  ghost predicate AndOk(f: Fla) { AllLiterals(AndLeaves(f)) }

  lemma {:induction false} LeavesOfList(fs: seq<Fla>)
    ensures AllLiterals(OrLeavesOf(fs)) <==> forall f {:trigger f in fs} :: f in fs ==> OrOk(f)
    ensures AllLiterals(AndLeavesOf(fs)) <==> forall f {:trigger f in fs} :: f in fs ==> AndOk(f)
  {
    if fs != [] {
      LeavesOfList(fs[1..]);
      assert fs == [fs[0]] + fs[1..];
      assert forall f {:trigger f in fs} {:trigger f in fs[1..]} :: f in fs <==> f == fs[0] || f in fs[1..];
      var x, y := OrLeaves(fs[0]), OrLeavesOf(fs[1..]);
      assert forall f {:trigger f in x + y} {:trigger f in x} {:trigger f in y} :: f in x + y <==> f in x || f in y;
      var z, w := AndLeaves(fs[0]), AndLeavesOf(fs[1..]);
      assert forall f {:trigger f in z + w} {:trigger f in z} {:trigger f in w} :: f in z + w <==> f in z || f in w;
      assert fs[0] in fs;
    }
  }

  lemma NotATree(f: Fla)
    ensures !f.Or? ==> (OrOk(f) <==> IsLiteral(f))
    ensures !f.And? ==> (AndOk(f) <==> IsLiteral(f))
    ensures f.Or? ==> (OrOk(f) <==> forall k {:trigger k in f.args} :: k in f.args ==> OrOk(k))
    ensures f.And? ==> (AndOk(f) <==> forall k {:trigger k in f.args} :: k in f.args ==> AndOk(k))
  {
    assert f in [f];
    if f.Or? || f.And? { LeavesOfList(f.args); }
  }

  ghost predicate TodoOk(todo: seq<Fla>, or: bool) {
    forall f {:trigger f in todo} :: f in todo ==> if or then OrOk(f) else AndOk(f)
  }

  /** Whether the formula is a literal or a tree of disjunctions over literals. */
  method IsClause(e: Fla) returns (r: bool)
    ensures r <==> OrOk(e)
  {
    hide OrOk, AndOk, Weight;
    NotATree(e);
    if IsLiteral(e) {
      return true;
    }
    if !e.Or? {
      return false;
    }
    var toProcess := [e];
    SplitAppend([], e, true);
    assert [] + [e] == [e];
    while toProcess != []
      invariant forall f {:trigger f in toProcess} :: f in toProcess ==> f.Or?
      invariant OrOk(e) <==> TodoOk(toProcess, true)
      decreases WeightAll(toProcess)
    {
      ghost var todo := toProcess;
      var current := toProcess[|toProcess| - 1];
      WeightTop(toProcess);
      WeightOfTree(current);
      SplitTop(toProcess, true);
      NotATree(current);
      assert current in toProcess;
      toProcess := toProcess[..|toProcess| - 1];
      ghost var rest := toProcess;
      assert forall f {:trigger f in rest} :: f in rest ==> f in todo;
      for i := 0 to |current.args|
        invariant forall f {:trigger f in toProcess} :: f in toProcess ==> f.Or?
        invariant WeightAll(toProcess) <= WeightAll(rest) + WeightAll(current.args[..i])
        invariant TodoOk(toProcess, true) <==> TodoOk(rest, true) && TodoOk(current.args[..i], true)
      {
        var child := current.args[i];
        assert current.args[..i + 1] == current.args[..i] + [child];
        WeightSplit(current.args[..i], [child]);
        assert [child][1..] == [];
        SplitAppend(current.args[..i], child, true);
        NotATree(child);
        if child.Or? {
          WeightSplit(toProcess, [child]);
          SplitAppend(toProcess, child, true);
          toProcess := toProcess + [child];
        } else if !IsLiteral(child) {
          assert child in current.args;
          return false;
        }
      }
      assert current.args[..|current.args|] == current.args;
    }
    assert TodoOk([], true);
    r := true;
  }

  lemma WeightOfTree(f: Fla)
    ensures f.Or? ==> Weight(f) == 1 + WeightAll(f.args)
    ensures f.And? ==> Weight(f) == 1 + WeightAll(f.args)
    ensures Weight(f) >= 1
  {
  }

  lemma SplitAppend(todo: seq<Fla>, f: Fla, or: bool)
    ensures TodoOk(todo + [f], or) <==> TodoOk(todo, or) && TodoOk([f], or)
    ensures TodoOk([f], or) <==> if or then OrOk(f) else AndOk(f)
  {
    assert forall x {:trigger x in todo + [f]} {:trigger x in todo} :: x in todo + [f] <==> x in todo || x == f;
    assert f in [f] && f in todo + [f];
  }

  lemma SplitTop(todo: seq<Fla>, or: bool)
    requires todo != []
    ensures TodoOk(todo, or) <==> TodoOk(todo[..|todo| - 1], or) && if or then OrOk(todo[|todo| - 1]) else AndOk(todo[|todo| - 1])
  {
    assert todo == todo[..|todo| - 1] + [todo[|todo| - 1]];
    SplitAppend(todo[..|todo| - 1], todo[|todo| - 1], or);
  }

  lemma SplitMany(todo: seq<Fla>, more: seq<Fla>, or: bool)
    ensures TodoOk(todo + more, or) <==> TodoOk(todo, or) && TodoOk(more, or)
  {
    assert forall x {:trigger x in todo + more} {:trigger x in todo} {:trigger x in more} :: x in todo + more <==> x in todo || x in more;
  }

  /** Whether the formula is the negation of a pure conjunction of literals. */
  method CheckDeMorgan(e: Fla) returns (r: bool)
    ensures r <==> e.Not? && e.arg.And? && AndOk(e.arg)
  {
    if !e.Not? {
      return false;
    }
    r := CheckPureConj(e.arg);
  }

  method CheckPureConj(e: Fla) returns (r: bool)
    ensures r <==> e.And? && AndOk(e)
  {
    hide OrOk, AndOk, Weight;
    if !e.And? {
      return false;
    }
    var toProcess := [e];
    SplitAppend([], e, false);
    assert [] + [e] == [e];
    while toProcess != []
      invariant AndOk(e) <==> TodoOk(toProcess, false)
      decreases WeightAll(toProcess)
    {
      var current := toProcess[|toProcess| - 1];
      WeightTop(toProcess);
      WeightOfTree(current);
      SplitTop(toProcess, false);
      NotATree(current);
      toProcess := toProcess[..|toProcess| - 1];
      if current.And? {
        WeightSplit(toProcess, current.args);
        SplitMany(toProcess, current.args, false);
        toProcess := toProcess + current.args;
      } else if !IsLiteral(current) {
        return false;
      }
    }
    r := true;
  }
}
