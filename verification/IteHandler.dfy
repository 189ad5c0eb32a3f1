/** If-then-else elimination as a whole: switches are added, every if-then-else is replaced with an
    auxiliary variable, and the result is a conservative extension of the original. */
module IteHandlers {
  import opened Decimals
  import opened Terms
  import opened TermStacks
  import opened IteDags
  import opened IteToSwitches

  // ---------------------------------------------------------------------------
  // Names of auxiliary variables

  const ITE_PREFIX := ".ite"

  /** The suffix is empty or names a partition, so it does not start with a digit. */
  predicate IsSuffix(suffix: string) {
    suffix == [] || !IsDigit(suffix[0])
  }

  function AuxName(ite: nat, suffix: string): string {
    ITE_PREFIX + Decimal(ite) + suffix
  }

  /** The number of the if-then-else a variable stands for: the digits after the prefix. */
  method GetIteTermFor(name: string) returns (number: nat)
    requires ITE_PREFIX <= name
    ensures forall ite: nat, suffix {:trigger AuxName(ite, suffix)} :: IsSuffix(suffix) && name == AuxName(ite, suffix) ==> number == ite
  {
    var numberStr := "";
    var i := |ITE_PREFIX|;
    while i < |name| && IsDigit(name[i])
      invariant |ITE_PREFIX| <= i <= |name| && numberStr == name[|ITE_PREFIX|..i]
      invariant forall k :: 0 <= k < |numberStr| ==> IsDigit(numberStr[k])
    {
      numberStr := numberStr + [name[i]];
      i := i + 1;
    }
    number := ParseDecimal(numberStr);
    forall ite: nat, suffix | IsSuffix(suffix) && name == AuxName(ite, suffix) ensures number == ite {
      DigitsEnd(name, ite, suffix, i);
      DecimalParses(ite);
    }
  }

  /** The digits after the prefix end where the number ends. */
  lemma DigitsEnd(name: string, ite: nat, suffix: string, i: nat)
    requires IsSuffix(suffix) && name == AuxName(ite, suffix) && |ITE_PREFIX| <= i <= |name|
    requires forall k :: |ITE_PREFIX| <= k < i ==> IsDigit(name[k])
    requires i == |name| || !IsDigit(name[i])
    ensures name[|ITE_PREFIX|..i] == Decimal(ite)
  {
    var end := |ITE_PREFIX| + |Decimal(ite)|;
    assert name == ITE_PREFIX + (Decimal(ite) + suffix);
    assert forall k :: |ITE_PREFIX| <= k < end ==> name[k] == Decimal(ite)[k - |ITE_PREFIX|];
    assert end < |name| ==> name[end] == suffix[0];
    assert i == end;
  }

  /** Different if-then-elses get different names. */
  lemma NamesDiffer(ite1: nat, ite2: nat, suffix: string)
    requires IsSuffix(suffix) && AuxName(ite1, suffix) == AuxName(ite2, suffix)
    ensures ite1 == ite2
  {
    var name := AuxName(ite1, suffix);
    var end := |ITE_PREFIX| + |Decimal(ite1)|;
    DigitsStop(name, ite1, suffix);
    DigitsEnd(name, ite2, suffix, end);
    DigitsEnd(name, ite1, suffix, end);
    DecimalParses(ite1);
    DecimalParses(ite2);
  }

  lemma DigitsStop(name: string, ite: nat, suffix: string)
    requires IsSuffix(suffix) && name == AuxName(ite, suffix)
    ensures var end := |ITE_PREFIX| + |Decimal(ite)|;
            && |ITE_PREFIX| <= end <= |name| && (forall k :: |ITE_PREFIX| <= k < end ==> IsDigit(name[k]))
            && (end == |name| || !IsDigit(name[end]))
  {
    assert name == ITE_PREFIX + (Decimal(ite) + suffix);
  }

  // ---------------------------------------------------------------------------
  // Replacing

  /** Every if-then-else that is not inside another one becomes the variable named after it. */
  function Replace(name: Term -> string, t: Term): Term {
    match t
    case Var(_) => t
    case App(op, args) => App(op, seq(|args|, i requires 0 <= i < |args| => Replace(name, args[i])))
    case Ite(_, _, _) => Var(name(t))
  }

  ghost predicate IteFree(t: Term) {
    forall x {:trigger x in Subterms(t)} :: x in Subterms(t) ==> !x.Ite?
  }

  lemma {:induction false} ReplaceIsIteFree(name: Term -> string, t: Term)
    ensures IteFree(Replace(name, t))
    decreases t
  {
    if t.App? {
      forall i | 0 <= i < |t.args| ensures IteFree(Replace(name, t.args[i])) {
        ReplaceIsIteFree(name, t.args[i]);
      }
    }
  }

  /** The values the auxiliary variables have in `m`, read as the values of the if-then-elses. */
  ghost function Reading(m: Model, name: Term -> string): Model {
    Model(m.vars, m.fun, Named(t => m.vars(name(t))))
  }

  /** The replaced term means what the original means under that reading. */
  lemma {:induction false} ReplaceMeans(m: Model, name: Term -> string, t: Term)
    ensures Eval(m, Replace(name, t)) == Eval(Reading(m, name), t)
    decreases t
  {
    if t.App? {
      var args' := seq(|t.args|, i requires 0 <= i < |t.args| => Replace(name, t.args[i]));
      EvalApp(m, t.op, args');
      EvalApp(Reading(m, name), t.op, t.args);
      forall i | 0 <= i < |t.args| ensures Eval(m, args'[i]) == Eval(Reading(m, name), t.args[i]) {
        ReplaceMeans(m, name, t.args[i]);
      }
      assert Values(m, args') == Values(Reading(m, name), t.args);
    }
  }

  // ---------------------------------------------------------------------------
  // Conservativity

  /** `m` gives the original variables and functions of `root` the meaning they have in `m0`. */
  ghost predicate Extends(root: Term, m0: Model, m: Model) {
    && m.fun == m0.fun
    && forall x {:trigger x in Subterms(root)} :: x in Subterms(root) && x.Var? ==> m.vars(x.name) == m0.vars(x.name)
  }

  /** Each top-level if-then-else has its own value, or that of the term its conditions select. */
  ghost predicate Settled(root: Term, m0: Model, r: Model) {
    forall u {:trigger u in TopLevels(root)} :: u in TopLevels(root) ==>
      Eval(r, u) == Eval(m0, u) || Eval(r, u) == Eval(r, Select(r, u))
  }

  ghost predicate Visible(root: Term, t: Term) {
    t in Subterms(root) && (t.Ite? ==> t in TopLevels(root))
  }

  lemma ChildVisible(root: Term, t: Term, c: Term)
    requires t in Subterms(root) && c in Children(t) && (t.Ite? ==> c == t.cond)
    ensures Visible(root, c)
  {
    SubtermsClosed(root, t, c);
    assert c.Ite? ==> c in Exposed(t);
  }

  /** Then every visible subterm has its original value, */
  lemma {:induction false} VisibleValue(root: Term, m0: Model, r: Model, t: Term)
    requires m0.ites == Defined && Extends(root, m0, r) && Settled(root, m0, r) && r.ites.Named? && Visible(root, t)
    ensures Eval(r, t) == Eval(m0, t)
    decreases t, if t.Ite? then 1 else 0
  {
    match t
    case Var(_) =>
    case App(op, args) =>
      EvalApp(r, op, args);
      EvalApp(m0, op, args);
      forall i | 0 <= i < |args| ensures Eval(r, args[i]) == Eval(m0, args[i]) {
        ChildVisible(root, t, args[i]);
        VisibleValue(root, m0, r, args[i]);
      }
      assert Values(r, args) == Values(m0, args);
    case Ite(_, _, _) =>
      SelectedValue(root, m0, r, t);
  }

  /** and whatever an if-then-else selects has its original value. */
  lemma {:induction false} SelectedValue(root: Term, m0: Model, r: Model, t: Term)
    requires m0.ites == Defined && Extends(root, m0, r) && Settled(root, m0, r) && r.ites.Named? && t in Subterms(root)
    ensures Eval(r, Select(r, t)) == Eval(m0, t)
    decreases t, if t.Ite? then 0 else 1
  {
    if t.Ite? {
      assert t.cond in Children(t) && t.tt in Children(t) && t.ff in Children(t);
      ChildVisible(root, t, t.cond);
      VisibleValue(root, m0, r, t.cond);
      SubtermsClosed(root, t, t.tt);
      SubtermsClosed(root, t, t.ff);
      SelectedValue(root, m0, r, if Holds(r, t.cond) then t.tt else t.ff);
    } else {
      VisibleValue(root, m0, r, t);
    }
  }

  /** What the elimination produces. */
  function Eliminate(name: Term -> string, root: Term, switches: seq<Term>): Term {
    Replace(name, Conjoin(root, switches))
  }

  /** The auxiliary variables have the values of the if-then-elses they are named after. */
  ghost predicate AuxAgree(root: Term, m0: Model, m: Model, name: Term -> string) {
    forall u {:trigger u in TopLevels(root)} :: u in TopLevels(root) ==> m.vars(name(u)) == Eval(m0, u)
  }

  lemma ConjoinHolds(m: Model, root: Term, switches: seq<Term>)
    ensures Holds(m, Conjoin(root, switches)) <==> Holds(m, root) && forall s {:trigger s in switches} :: s in switches ==> Holds(m, s)
  {
    if switches != [] {
      AndHolds(m, [root, And(switches)]);
      AndHolds(m, switches);
      assert root in [root, And(switches)] && And(switches) in [root, And(switches)];
    }
  }

  lemma TopsAreItes(root: Term, u: Term)
    requires u in TopLevels(root)
    ensures u.Ite? && Visible(root, u)
  {
    assert root in Subterms(root);
    if u != root || !root.Ite? {
      var s :| s in Subterms(root) && u in Exposed(s);
      assert u in Children(s);
      SubtermsClosed(root, s, u);
    }
  }

  lemma RootVisible(root: Term)
    ensures Visible(root, root)
  {
  }

  /** The switches hold exactly if the auxiliary variables have the right values. */
  lemma SwitchesFixAux(root: Term, tops: seq<Term>, switches: seq<Term>, m0: Model, m: Model, name: Term -> string)
    requires SwitchesFor(root, tops, switches) && m0.ites == Defined && Extends(root, m0, m)
    ensures (forall s {:trigger s in switches} :: s in switches ==> Holds(Reading(m, name), s)) <==> AuxAgree(root, m0, m, name)
  {
    var r := Reading(m, name);
    hide Select, Eval, Subterms, TopLevels, Extends, IsSwitch;
    assert Extends(root, m0, r) by { ExtendsReading(root, m0, m, name); }
    if forall s {:trigger s in switches} :: s in switches ==> Holds(r, s) {
      forall u | u in TopLevels(root) ensures Eval(r, u) == Eval(r, Select(r, u)) {
        assert u in tops;
        var k :| 0 <= k < |tops| && tops[k] == u;
        assert switches[k] in switches;
        SwitchMeans(r, u, switches[k]);
      }
      forall u | u in TopLevels(root) ensures m.vars(name(u)) == Eval(m0, u) {
        TopsAreItes(root, u);
        VisibleValue(root, m0, r, u);
        ReadingOfIte(m, name, u);
      }
    }
    if AuxAgree(root, m0, m, name) {
      forall u | u in TopLevels(root) ensures Eval(r, u) == Eval(m0, u) {
        TopsAreItes(root, u);
        ReadingOfIte(m, name, u);
      }
      forall s | s in switches ensures Holds(r, s) {
        var k :| 0 <= k < |switches| && switches[k] == s;
        assert tops[k] in tops;
        TopsAreItes(root, tops[k]);
        SelectedValue(root, m0, r, tops[k]);
        SwitchMeans(r, tops[k], s);
      }
    }
  }

  lemma ExtendsReading(root: Term, m0: Model, m: Model, name: Term -> string)
    requires Extends(root, m0, m)
    ensures Extends(root, m0, Reading(m, name))
  {
  }

  lemma ReadingOfIte(m: Model, name: Term -> string, u: Term)
    requires u.Ite?
    ensures Eval(Reading(m, name), u) == m.vars(name(u))
  {
  }

  lemma SwitchMeans(m: Model, u: Term, s: Term)
    requires IsSwitch(u, s)
    ensures Holds(m, s) <==> Eval(m, u) == Eval(m, Select(m, u))
  {
  }

  /** Conservativity: under a valuation that extends one of the original variables, the ite-free formula
      holds exactly if the auxiliary variables have the values of their if-then-elses and the original
      formula holds. */
  lemma EliminationIsConservative(root: Term, tops: seq<Term>, switches: seq<Term>, m0: Model, m: Model, name: Term -> string)
    requires SwitchesFor(root, tops, switches) && m0.ites == Defined && Extends(root, m0, m)
    ensures Holds(m, Eliminate(name, root, switches)) <==> AuxAgree(root, m0, m, name) && Holds(m0, root)
    ensures AuxAgree(root, m0, m, name) ==> (Holds(m, Eliminate(name, root, switches)) <==> Holds(m0, root))
  {
    var r := Reading(m, name);
    hide Eval, Subterms, TopLevels, IsSwitch, Replace;
    ReplaceMeans(m, name, Conjoin(root, switches));
    ConjoinHolds(r, root, switches);
    SwitchesFixAux(root, tops, switches, m0, m, name);
    if AuxAgree(root, m0, m, name) {
      ExtendsReading(root, m0, m, name);
      forall u | u in TopLevels(root) ensures Eval(r, u) == Eval(m0, u) {
        TopsAreItes(root, u);
        ReadingOfIte(m, name, u);
      }
      RootVisible(root);
      VisibleValue(root, m0, r, root);
    }
  }

  /** The names are new and tell the top-level if-then-elses apart. */
  ghost predicate FreshNames(root: Term, name: Term -> string) {
    && (forall u, x {:trigger name(u), x in Subterms(root)} :: u in TopLevels(root) && x in Subterms(root) && x.Var? ==> x.name != name(u))
    && (forall u, w {:trigger name(u), name(w)} :: u in TopLevels(root) && w in TopLevels(root) && name(u) == name(w) ==> u == w)
  }

  /** Names made from distinct numbers are fresh if no variable of the formula has the prefix. */
  lemma AuxNamesAreFresh(root: Term, id: Term -> nat, suffix: string)
    requires IsSuffix(suffix) && forall t, u {:trigger id(t), id(u)} :: id(t) == id(u) ==> t == u
    requires forall x {:trigger x in Subterms(root)} :: x in Subterms(root) && x.Var? ==> !(ITE_PREFIX <= x.name)
    ensures FreshNames(root, t => AuxName(id(t), suffix))
  {
    hide Subterms, TopLevels;
    var name := t => AuxName(id(t), suffix);
    forall u, x | u in TopLevels(root) && x in Subterms(root) && x.Var? ensures x.name != name(u) {
      assert name(u) == ITE_PREFIX + (Decimal(id(u)) + suffix);
    }
    forall u, w | name(u) == name(w) ensures u == w {
      NamesDiffer(id(u), id(w), suffix);
    }
  }

  /** The extension of a valuation by the values of the if-then-elses. */
  ghost function Extension(root: Term, m0: Model, name: Term -> string): Model {
    Model(x => if exists u :: u in TopLevels(root) && name(u) == x
               then Eval(m0, var u :| u in TopLevels(root) && name(u) == x; u) else m0.vars(x),
          m0.fun, m0.ites)
  }

  /** Every valuation of the original variables has an extension that gives the auxiliary variables
      their values; by EliminationIsConservative no other one satisfies the switches. */
  lemma ExtensionExists(root: Term, m0: Model, name: Term -> string)
    requires m0.ites == Defined && FreshNames(root, name)
    ensures Extends(root, m0, Extension(root, m0, name)) && AuxAgree(root, m0, Extension(root, m0, name), name)
  {
    hide Eval, Subterms, TopLevels;
    var m := Extension(root, m0, name);
    forall u | u in TopLevels(root) ensures m.vars(name(u)) == Eval(m0, u) {
      var w :| w in TopLevels(root) && name(w) == name(u);
    }
  }

  /** A satisfiable formula stays satisfiable, and an unsatisfiable one unsatisfiable. */
  lemma EliminationIsEquisatisfiable(root: Term, tops: seq<Term>, switches: seq<Term>, name: Term -> string)
    requires SwitchesFor(root, tops, switches) && FreshNames(root, name)
    ensures (exists m: Model {:trigger Holds(m, root)} :: m.ites == Defined && Holds(m, root)) <==>
            (exists m: Model {:trigger Holds(m, Eliminate(name, root, switches))} :: m.ites == Defined && Holds(m, Eliminate(name, root, switches)))
  {
    hide Eval, Subterms, TopLevels, IsSwitch, Replace, Conjoin;
    if m0: Model :| m0.ites == Defined && Holds(m0, root) {
      var m := Extension(root, m0, name);
      ExtensionExists(root, m0, name);
      EliminationIsConservative(root, tops, switches, m0, m, name);
      assert m.ites == Defined && Holds(m, Eliminate(name, root, switches));
    }
    if m: Model :| m.ites == Defined && Holds(m, Eliminate(name, root, switches)) {
      EliminationIsConservative(root, tops, switches, m, m, name);
      assert Holds(m, root);
    }
  }

  // ---------------------------------------------------------------------------
  // The replacement as a loop

  /** `substitutions` has an entry for exactly those finished terms that change, with their result. */
  ghost predicate Substituted(name: Term -> string, done: set<Term>, substitutions: map<Term, Term>) {
    forall t {:trigger t in done} {:trigger t in substitutions} ::
      && (t in substitutions ==> t in done && substitutions[t] == Replace(name, t))
      && (t in done && t !in substitutions ==> Replace(name, t) == t)
  }

  /** The new arguments of a term whose children are finished. */
  method NewArgs(name: Term -> string, ghost done: set<Term>, substitutions: map<Term, Term>, t: Term) returns (newTerm: Term, needsChange: bool)
    requires !t.Ite? && Substituted(name, done, substitutions) && forall k {:trigger Children(t)[k]} :: 0 <= k < |Children(t)| ==> Children(t)[k] in done
    ensures newTerm == Replace(name, t) && (!needsChange ==> newTerm == t)
  {
    var cs := Children(t);
    var newArgs: seq<Term> := [];
    needsChange := false;
    for i := 0 to |cs|
      invariant |newArgs| == i && forall k {:trigger newArgs[k]} :: 0 <= k < i ==> newArgs[k] == Replace(name, cs[k])
      invariant !needsChange ==> newArgs == cs[..i]
    {
      assert Children(t)[i] in done;
      var childChanged := cs[i] in substitutions;
      needsChange := needsChange || childChanged;
      newArgs := newArgs + [if childChanged then substitutions[cs[i]] else cs[i]];
    }
    assert cs[..|cs|] == cs;
    newTerm := if t.App? && needsChange then App(t.op, newArgs) else t;
    Rebuilt(name, t, newArgs);
  }

  lemma Rebuilt(name: Term -> string, t: Term, newArgs: seq<Term>)
    requires !t.Ite? && |newArgs| == |Children(t)| && forall k {:trigger newArgs[k]} :: 0 <= k < |newArgs| ==> newArgs[k] == Replace(name, Children(t)[k])
    ensures Replace(name, t) == if t.App? then App(t.op, newArgs) else t
  {
    if t.App? {
      assert newArgs == seq(|t.args|, i requires 0 <= i < |t.args| => Replace(name, t.args[i]));
    }
  }

  /** Depth first with a child counter per entry; an if-then-else is replaced without a look at its
      children. */
  method ReplaceItes(name: Term -> string, root: Term) returns (res: Term)
    ensures res == Replace(name, root)
  {
    hide Replace, Substituted, StackOk, WorkLeft;
    var done: set<Term> := {};
    var substitutions: map<Term, Term> := map[];
    var toProcess := [Entry(root, 0)];
    NothingReplaced(name, toProcess);
    while toProcess != []
      invariant Substituted(name, done, substitutions) && StackOk(toProcess, done)
      invariant if toProcess == [] then root in done else toProcess[0].term == root
      decreases WorkLeft(toProcess)
    {
      var top := |toProcess| - 1;
      var current := toProcess[top];
      ghost var stack := toProcess;
      TopOk(toProcess, done);
      if current.term.Ite? {
        IteReplaced(name, done, substitutions, current.term);
        PopEntry(toProcess, done);
        substitutions := substitutions[current.term := Var(name(current.term))];
        done := done + {current.term};
        toProcess := toProcess[..top];
        continue;
      }
      if current.next < |Children(current.term)| {
        var child := Children(current.term)[current.next];
        toProcess := toProcess[top := Entry(current.term, current.next + 1)] + if child in done then [] else [Entry(child, 0)];
        NextEntry(stack, done, current, toProcess);
        continue;
      }
      var newTerm, needsChange := NewArgs(name, done, substitutions, current.term);
      Finished(name, done, substitutions, current.term, newTerm, needsChange);
      PopEntry(toProcess, done);
      if needsChange {
        substitutions := substitutions[current.term := newTerm];
      }
      done := done + {current.term};
      toProcess := toProcess[..top];
    }
    res := if root in substitutions then substitutions[root] else root;
    RootReplaced(name, done, substitutions, root);
  }

  lemma NothingReplaced(name: Term -> string, stack: seq<Entry>)
    requires |stack| == 1 && stack[0].next == 0
    ensures Substituted(name, {}, map[]) && StackOk(stack, {})
  {
  }

  lemma IteReplaced(name: Term -> string, done: set<Term>, substitutions: map<Term, Term>, t: Term)
    requires Substituted(name, done, substitutions) && t.Ite?
    ensures Substituted(name, done + {t}, substitutions[t := Var(name(t))])
  {
  }

  lemma Finished(name: Term -> string, done: set<Term>, substitutions: map<Term, Term>, t: Term, newTerm: Term, needsChange: bool)
    requires Substituted(name, done, substitutions) && t !in done && newTerm == Replace(name, t) && (!needsChange ==> newTerm == t)
    ensures Substituted(name, done + {t}, if needsChange then substitutions[t := newTerm] else substitutions)
  {
    hide Replace;
  }

  lemma RootReplaced(name: Term -> string, done: set<Term>, substitutions: map<Term, Term>, root: Term)
    requires Substituted(name, done, substitutions) && root in done
    ensures Replace(name, root) == if root in substitutions then substitutions[root] else root
  {
    hide Replace;
  }

  /** The whole pass. */
  method Rewrite(root: Term, name: Term -> string) returns (res: Term, ghost tops: seq<Term>, ghost switches: seq<Term>)
    ensures SwitchesFor(root, tops, switches) && res == Eliminate(name, root, switches) && IteFree(res)
  {
    var iteDag := ConstructIteDag(root);
    var found := ConstructSwitches(iteDag, root);
    tops, switches := iteDag.topLevelItes, found;
    var newRoot := Conjoin(root, found);
    if newRoot == root {
      NoItesLeft(name, root, tops, found);
      res := root;
    } else {
      res := ReplaceItes(name, newRoot);
    }
    ReplaceIsIteFree(name, newRoot);
  }

  /** A term without top-level if-then-elses has none at all, and replacing changes nothing. */
  lemma {:induction false} NoItesBelow(name: Term -> string, root: Term, t: Term)
    requires t in Subterms(root) && TopLevels(root) == {} && !t.Ite?
    ensures Replace(name, t) == t
    decreases t
  {
    if t.App? {
      forall i | 0 <= i < |t.args| ensures Replace(name, t.args[i]) == t.args[i] {
        ChildVisible(root, t, t.args[i]);
        NoItesBelow(name, root, t.args[i]);
      }
    }
  }

  lemma NoItesLeft(name: Term -> string, root: Term, tops: seq<Term>, switches: seq<Term>)
    requires SwitchesFor(root, tops, switches) && Conjoin(root, switches) == root
    ensures Eliminate(name, root, switches) == root
  {
    ConjoinGrows(root, switches);
    forall t ensures t !in TopLevels(root) {
      assert t !in tops;
    }
    assert TopLevels(root) == {};
    RootVisible(root);
    NoItesBelow(name, root, root);
  }

  lemma ConjoinGrows(root: Term, switches: seq<Term>)
    ensures Conjoin(root, switches) == root ==> switches == []
  {
    if switches != [] {
      assert root in Children(Conjoin(root, switches));
      ChildIsSmaller(Conjoin(root, switches), root);
    }
  }
}
