/** Propositional formulas with the solver's simplifying constructors, and their meaning. */
module Formulas {
  import opened Clauses

  /** The variables that are true. */
  type Valuation = iset<Var>

  datatype Fla =
    | True
    | False
    | Atom(v: Var)
    | Not(arg: Fla)
    | And(args: seq<Fla>)
    | Or(args: seq<Fla>)
    | Xor(left: Fla, right: Fla)
    | Iff(left: Fla, right: Fla)
    | Implies(left: Fla, right: Fla)

  ghost predicate Eval(f: Fla, val: Valuation) {
    match f
    case True => true
    case False => false
    case Atom(v) => v in val
    case Not(g) => !Eval(g, val)
    case And(args) => forall i {:trigger args[i]} :: 0 <= i < |args| ==> Eval(args[i], val)
    case Or(args) => exists i {:trigger args[i]} :: 0 <= i < |args| && Eval(args[i], val)
    case Xor(a, b) => Eval(a, val) != Eval(b, val)
    case Iff(a, b) => Eval(a, val) == Eval(b, val)
    case Implies(a, b) => Eval(a, val) ==> Eval(b, val)
  }

  function Atoms(f: Fla): set<Var> {
    match f
    case True => {}
    case False => {}
    case Atom(v) => {v}
    case Not(g) => Atoms(g)
    case And(args) => set i, v | 0 <= i < |args| && v in Atoms(args[i]) :: v
    case Or(args) => set i, v | 0 <= i < |args| && v in Atoms(args[i]) :: v
    case Xor(a, b) => Atoms(a) + Atoms(b)
    case Iff(a, b) => Atoms(a) + Atoms(b)
    case Implies(a, b) => Atoms(a) + Atoms(b)
  }

  /** The atoms of a list of formulas. */
  function AtomsOf(fs: seq<Fla>): set<Var> {
    set i, v | 0 <= i < |fs| && v in Atoms(fs[i]) :: v
  }

  ghost predicate All(fs: seq<Fla>, val: Valuation) {
    forall f {:trigger f in fs} :: f in fs ==> Eval(f, val)
  }

  ghost predicate Some(fs: seq<Fla>, val: Valuation) {
    exists f {:trigger f in fs} :: f in fs && Eval(f, val)
  }

  function MkNot(f: Fla): Fla {
    match f
    case Not(g) => g
    case True => False
    case False => True
    case _ => Not(f)
  }

  /** The list without `unit` and without repetitions. */
  function Keep(fs: seq<Fla>, unit: Fla): seq<Fla> {
    if fs == [] then []
    else if fs[0] == unit || fs[0] in fs[1..] then Keep(fs[1..], unit)
    else [fs[0]] + Keep(fs[1..], unit)
  }

  /** Some formula is in the list together with its negation. */
  predicate Clash(fs: seq<Fla>) {
    exists f :: f in fs && Not(f) in fs
  }

  function MkAnd(fs: seq<Fla>): Fla {
    if False in fs || Clash(fs) then False
    else
      var kept := Keep(fs, True);
      if kept == [] then True else if |kept| == 1 then kept[0] else And(kept)
  }

  function MkOr(fs: seq<Fla>): Fla {
    if True in fs || Clash(fs) then True
    else
      var kept := Keep(fs, False);
      if kept == [] then False else if |kept| == 1 then kept[0] else Or(kept)
  }

  lemma {:induction false} KeepElems(fs: seq<Fla>, unit: Fla, f: Fla)
    ensures f in Keep(fs, unit) <==> f in fs && f != unit
  {
    if fs != [] {
      KeepElems(fs[1..], unit, f);
      assert fs == [fs[0]] + fs[1..];
    }
  }

  lemma KeptElems(fs: seq<Fla>, unit: Fla)
    ensures forall f {:trigger f in fs} {:trigger f in Keep(fs, unit)} :: f in Keep(fs, unit) <==> f in fs && f != unit
  {
    forall f ensures f in Keep(fs, unit) <==> f in fs && f != unit {
      KeepElems(fs, unit, f);
    }
  }

  lemma AndNode(fs: seq<Fla>, val: Valuation)
    ensures Eval(And(fs), val) <==> All(fs, val)
  {
    forall f | f in fs && Eval(And(fs), val) ensures Eval(f, val) {
      var i :| 0 <= i < |fs| && fs[i] == f;
    }
    forall i | 0 <= i < |fs| && All(fs, val) ensures Eval(fs[i], val) {
      assert fs[i] in fs;
    }
  }

  lemma OrNode(fs: seq<Fla>, val: Valuation)
    ensures Eval(Or(fs), val) <==> Some(fs, val)
  {
    if f :| f in fs && Eval(f, val) {
      var i :| 0 <= i < |fs| && fs[i] == f;
    }
  }

  lemma NotMeans(f: Fla, val: Valuation)
    ensures Eval(MkNot(f), val) <==> !Eval(f, val)
    ensures Atoms(MkNot(f)) == Atoms(f)
  {
  }

  lemma AndMeans(fs: seq<Fla>, val: Valuation)
    ensures Eval(MkAnd(fs), val) <==> All(fs, val)
  {
    var kept := Keep(fs, True);
    KeptElems(fs, True);
    if False in fs || Clash(fs) {
      if Clash(fs) {
        var f :| f in fs && Not(f) in fs;
        assert Eval(Not(f), val) != Eval(f, val);
      }
    } else {
      assert All(fs, val) <==> All(kept, val);
      if |kept| == 1 { assert kept[0] in kept; }
      AndNode(kept, val);
    }
  }

  lemma OrMeans(fs: seq<Fla>, val: Valuation)
    ensures Eval(MkOr(fs), val) <==> Some(fs, val)
  {
    var kept := Keep(fs, False);
    KeptElems(fs, False);
    if True in fs || Clash(fs) {
      if Clash(fs) {
        var f :| f in fs && Not(f) in fs;
        assert Eval(Not(f), val) != Eval(f, val);
      }
    } else {
      assert Some(fs, val) <==> Some(kept, val);
      if |kept| == 1 { assert kept[0] in kept; }
      OrNode(kept, val);
    }
  }

  lemma KeptAtoms(fs: seq<Fla>, unit: Fla)
    ensures AtomsOf(Keep(fs, unit)) <= AtomsOf(fs)
  {
    KeptElems(fs, unit);
    forall v | v in AtomsOf(Keep(fs, unit)) ensures v in AtomsOf(fs) {
      var kept := Keep(fs, unit);
      var i :| 0 <= i < |kept| && v in Atoms(kept[i]);
      assert kept[i] in fs;
      var j :| 0 <= j < |fs| && fs[j] == kept[i];
    }
  }

  lemma NodeAtoms(fs: seq<Fla>)
    ensures Atoms(And(fs)) == AtomsOf(fs) && Atoms(Or(fs)) == AtomsOf(fs)
    ensures |fs| == 1 ==> Atoms(fs[0]) == AtomsOf(fs)
  {
  }

  lemma MkAtoms(fs: seq<Fla>)
    ensures Atoms(MkAnd(fs)) <= AtomsOf(fs) && Atoms(MkOr(fs)) <= AtomsOf(fs)
  {
    KeptAtoms(fs, True);
    KeptAtoms(fs, False);
    NodeAtoms(Keep(fs, True));
    NodeAtoms(Keep(fs, False));
  }
}
