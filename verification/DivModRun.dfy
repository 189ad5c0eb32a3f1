/** The div/mod rewriter at work: a cache of dividends and divisors, a growing list of definitions, and one pass
    over the formula. */
module DivModRuns {
  import opened Terms
  import opened TermStacks
  import opened Rewriters
  import opened DivMods
  import opened DivModRewriters

  datatype DivModPair = DivModPair(div: Term, mod: Term)

  /** Pairs, definitions and cache belong together. */
  ghost predicate Consistent(c: Config, pairs: seq<(Term, Term)>, definitions: seq<Term>, cache: map<(Term, Term), DivModPair>) {
    && Ordered(c, pairs) && |definitions| == |pairs| && (forall p {:trigger p in cache} :: p in cache <==> p in pairs)
    && (forall i {:trigger definitions[i]} {:trigger pairs[i]} :: 0 <= i < |pairs| ==>
          DivisionFree(pairs[i].0) && IsNum(pairs[i].1) && NumOf(pairs[i].1) != 0 && definitions[i] == Definition(c, pairs[i].0, pairs[i].1))
    && forall p {:trigger cache[p]} :: p in cache ==> cache[p] == DivModPair(Var(DivName(c, p.0, p.1)), Var(ModName(c, p.0, p.1)))
  }

  /** The variables of a dividend are original ones, or have definitions already. */
  ghost predicate Known(c: Config, t: Term, pairs: seq<(Term, Term)>) {
    forall x {:trigger x in Names(t)} :: x in Names(t) ==> !IsAux(x) || x in AuxNames(c, PairSet(pairs))
  }

  lemma OrderedMore(c: Config, pairs: seq<(Term, Term)>, p: (Term, Term))
    requires Ordered(c, pairs) && p !in pairs && IsInt(c.sig, p.0) && IsNum(p.1) && NumOf(p.1) != 0 && Known(c, p.0, pairs)
    ensures Ordered(c, pairs + [p])
  {
    var more := pairs + [p];
    forall i: nat | i < |more| ensures OrderedAt(c, more, i) {
      if i < |pairs| {
        assert OrderedAt(c, pairs, i) && more[i] == pairs[i] && more[..i] == pairs[..i];
      } else {
        assert more[..i] == pairs;
      }
    }
  }

  /** A new pair with its definition. */
  lemma ConsistentMore(c: Config, pairs: seq<(Term, Term)>, definitions: seq<Term>, cache: map<(Term, Term), DivModPair>, a: Term, d: Term)
    requires Consistent(c, pairs, definitions, cache) && (a, d) !in cache
    requires IsInt(c.sig, a) && IsNum(d) && NumOf(d) != 0 && Known(c, a, pairs) && DivisionFree(a)
    ensures Consistent(c, pairs + [(a, d)], definitions + [Definition(c, a, d)], cache[(a, d) := DivModPair(Var(DivName(c, a, d)), Var(ModName(c, a, d)))])
  {
    hide Ordered, Known, IsInt, Definition, IsNum, DivisionFree;
    OrderedMore(c, pairs, (a, d));
    assert forall p {:trigger p in pairs} :: p in pairs + [(a, d)] <==> p in pairs || p == (a, d);
  }

  lemma CacheHas(c: Config, pairs: seq<(Term, Term)>, definitions: seq<Term>, cache: map<(Term, Term), DivModPair>, p: (Term, Term))
    requires Consistent(c, pairs, definitions, cache)
    ensures p in cache <==> p in pairs
    ensures p in cache ==> cache[p] == DivModPair(Var(DivName(c, p.0, p.1)), Var(ModName(c, p.0, p.1)))
  {
    hide Ordered;
  }

  class DivModConfig {
    const c: Config
    var divModCache: map<(Term, Term), DivModPair>
    var definitions: seq<Term>
    ghost var pairs: seq<(Term, Term)>

    constructor (c: Config)
      ensures this.c == c && Valid() && pairs == [] && definitions == []
    {
      this.c, divModCache, definitions, pairs := c, map[], [], [];
    }

    ghost predicate Valid()
      reads this
    {
      Consistent(c, pairs, definitions, divModCache)
    }

    function FreshDivModPair(dividend: Term, divisor: Term): DivModPair {
      DivModPair(Var(DivName(c, dividend, divisor)), Var(ModName(c, dividend, divisor)))
    }

    /** A division or modulo becomes its variable; the first time for a pair, the definition is added. */
    method Rewrite(term: Term) returns (res: Term)
      requires Valid() && (IsDivMod(term) ==> IsInt(c.sig, term.args[0]) && Known(c, term.args[0], pairs) && DivisionFree(term.args[0]))
      modifies this
      ensures Valid() && res == Target(c, term)
      ensures PairSet(pairs) == old(PairSet(pairs)) + if IsDivMod(term) then {(term.args[0], term.args[1])} else {}
    {
      hide Consistent, Known, IsInt, Definition, DivName, ModName, DivisionFree;
      if !IsDivMod(term) {
        return term;
      }
      var dividend, divisor := term.args[0], term.args[1];
      CacheHas(c, pairs, definitions, divModCache, (dividend, divisor));
      var inCache := (dividend, divisor) in divModCache;
      var divMod := if inCache then divModCache[(dividend, divisor)] else FreshDivModPair(dividend, divisor);
      if !inCache {
        ConsistentMore(c, pairs, definitions, divModCache, dividend, divisor);
        divModCache := divModCache[(dividend, divisor) := divMod];
        definitions := definitions + [Definition(c, dividend, divisor)];
        pairs := pairs + [(dividend, divisor)];
      }
      res := if term.op == Uf(DIV) then divMod.div else divMod.mod;
    }
  }

  // ---------------------------------------------------------------------------
  // One pass

  /** The table holds the rewritten form of every marked term that changed. The pairs of all of them, and those of
      earlier passes, are known. */
  ghost predicate Walked(c: Config, root: Term, marked: set<Term>, table: map<Term, Term>, earlier: set<(Term, Term)>, ps: set<(Term, Term)>) {
    && marked <= Subterms(root) && earlier <= ps <= earlier + Pairs(c, root)
    && (forall t {:trigger t in table} :: t in table ==> t in marked)
    && forall t {:trigger t in marked} :: t in marked ==> Done(c, table, ps, t)
  }

  ghost predicate Done(c: Config, table: map<Term, Term>, ps: set<(Term, Term)>, t: Term) {
    && (t in table <==> Rd(c, t).changed) && (t in table ==> table[t] == Rd(c, t).term) && Pairs(c, t) <= ps
  }

  lemma {:induction false} PairsOfSubterm(c: Config, root: Term, t: Term)
    requires t in Subterms(root)
    ensures Pairs(c, t) <= Pairs(c, root)
    decreases Size(root)
  {
    hide KidPairs, OwnPair, Size;
    if t != root {
      SubtermsOfChildren(root, t);
      var i :| 0 <= i < |Children(root)| && t in Subterms(Children(root)[i]);
      ChildIsSmaller(root, Children(root)[i]);
      PairsOfSubterm(c, Children(root)[i], t);
      PairsOfChild(c, root, i);
    }
  }

  lemma PairsOfChild(c: Config, t: Term, i: nat)
    requires i < |Children(t)|
    ensures Pairs(c, Children(t)[i]) <= KidPairs(c, t) <= Pairs(c, t)
  {
    forall p | p in Pairs(c, Children(t)[i]) ensures p in KidPairs(c, t) {
      FirstPairsAre(c, t, |Children(t)|, p);
      KidPairsAre(c, t);
    }
  }

  lemma KidPairsKnown(c: Config, t: Term, ps: set<(Term, Term)>)
    requires forall i {:trigger Children(t)[i]} :: 0 <= i < |Children(t)| ==> Pairs(c, Children(t)[i]) <= ps
    ensures KidPairs(c, t) <= ps
  {
    hide Pairs;
    forall p | p in KidPairs(c, t) ensures p in ps {
      KidPairsAre(c, t);
      FirstPairsAre(c, t, |Children(t)|, p);
      var i :| 0 <= i < |Children(t)| && p in Pairs(c, Children(t)[i]);
    }
  }

  /** All children of the finished entry are marked, so its new arguments are its rewritten children. */
  lemma RdKidsReady(c: Config, root: Term, marked: set<Term>, table: map<Term, Term>, earlier: set<(Term, Term)>, ps: set<(Term, Term)>, t: Term, needsChange: bool, args: seq<Term>)
    requires Walked(c, root, marked, table, earlier, ps) && |args| == |Children(t)|
    requires forall j {:trigger Children(t)[j]} :: 0 <= j < |Children(t)| ==> Children(t)[j] in marked
    requires forall j {:trigger args[j]} {:trigger Children(t)[j]} :: 0 <= j < |args| ==> args[j] == if Children(t)[j] in table then table[Children(t)[j]] else Children(t)[j]
    requires needsChange <==> exists j :: 0 <= j < |args| && Children(t)[j] in table
    ensures args == RdKids(c, t) && (needsChange <==> RdKidChanged(c, t)) && KidPairs(c, t) <= ps
  {
    hide Pairs, KidPairs, Rd;
    var cs, ks := Children(t), RdKids(c, t);
    forall j {:trigger cs[j]} | 0 <= j < |args| ensures args[j] == ks[j] && (cs[j] in table <==> Rd(c, cs[j]).changed) && Pairs(c, cs[j]) <= ps {
      assert cs[j] in marked && Done(c, table, ps, cs[j]);
      RdUnchanged(c, cs[j]);
    }
    KidPairsKnown(c, t, ps);
  }

  lemma PartOf(sig: Signature, root: Term, t: Term)
    requires WellFormed(sig, root) && t in Subterms(root)
    ensures WellFormed(sig, t) && Names(t) <= Names(root)
  {
    forall s | s in Subterms(t) ensures s in Subterms(root) { SubtermsTransitive(root, t, s); }
  }

  lemma MoreAuxNames(c: Config, ps: set<(Term, Term)>, qs: set<(Term, Term)>)
    requires ps <= qs
    ensures AuxNames(c, ps) <= AuxNames(c, qs)
  {
  }

  lemma DividendOf(sig: Signature, u: Term)
    requires WellFormed(sig, u) && IsDivMod(u)
    ensures IsInt(sig, u.args[0]) && Names(u.args[0]) <= Names(u)
  {
    assert u in Subterms(u) && WellFormedAt(sig, u);
    assert u.args[0] in Subterms(u.args[0]) && u.args[0] == Children(u)[0];
    SubtermsOfChildren(u, u.args[0]);
    PartOf(sig, u, u.args[0]);
  }

  /** The rebuilt term may be handed to the configuration. */
  lemma MidKnown(c: Config, root: Term, t: Term, pairs: seq<(Term, Term)>)
    requires Proper(c) && WellFormed(c.sig, root) && t in Subterms(root) && KidPairs(c, t) <= PairSet(pairs)
    requires forall x {:trigger x in Names(root)} :: x in Names(root) ==> !IsAux(x)
    ensures IsDivMod(RdMid(c, t)) ==> IsInt(c.sig, RdMid(c, t).args[0]) && Known(c, RdMid(c, t).args[0], pairs) && DivisionFree(RdMid(c, t).args[0])
  {
    hide RdMid, KidPairs, IsAux, Names, AuxNames, WellFormed, Proper, IsDivMod, DivisionFree;
    PartOf(c.sig, root, t);
    NoneLeft(c, t);
    RdWellFormed(c, t);
    RdNames(c, t);
    MoreAuxNames(c, KidPairs(c, t), PairSet(pairs));
    if IsDivMod(RdMid(c, t)) { DividendOf(c.sig, RdMid(c, t)); }
  }

  lemma MarkMore(c: Config, root: Term, marked: set<Term>, table: map<Term, Term>, earlier: set<(Term, Term)>, ps: set<(Term, Term)>, t: Term, res: Term, changed: bool)
    requires Walked(c, root, marked, table, earlier, ps) && t !in marked && t in Subterms(root) && KidPairs(c, t) <= ps
    requires Rd(c, t) == Rewriting(changed, res)
    ensures Walked(c, root, marked + {t}, if changed then table[t := res] else table, earlier, ps + OwnPair(c, t))
  {
    hide Rd, KidPairs, OwnPair;
    PairsOfSubterm(c, root, t);
    var table' := if changed then table[t := res] else table;
    forall s | s in marked + {t} ensures Done(c, table', ps + OwnPair(c, t), s) {
      if s != t { assert Done(c, table, ps, s); }
    }
  }

  lemma RdFrom(c: Config, t: Term, mid: Term, res: Term)
    requires mid == if RdKidChanged(c, t) then c.mk(WithChildren(t, RdKids(c, t))) else t
    requires res == Target(c, mid)
    ensures mid == RdMid(c, t) && Rd(c, t) == Rewriting(res != mid || RdKidChanged(c, t), res)
    ensures OwnPair(c, t) == if IsDivMod(mid) then {(mid.args[0], mid.args[1])} else {}
  {
  }

  lemma WalkStarts(c: Config, root: Term, earlier: set<(Term, Term)>)
    ensures Walked(c, root, {}, map[], earlier, earlier) && StackOk([Entry(root, 0)], {}) && root in Subterms(root)
  {
  }

  lemma RootDone(c: Config, root: Term, marked: set<Term>, table: map<Term, Term>, earlier: set<(Term, Term)>, ps: set<(Term, Term)>)
    requires Walked(c, root, marked, table, earlier, ps) && root in marked
    ensures (if root in table then table[root] else root) == Rd(c, root).term && ps == earlier + Pairs(c, root)
  {
    assert Done(c, table, ps, root);
    RdUnchanged(c, root);
  }

  lemma AllDefined(c: Config, pairs: seq<(Term, Term)>, definitions: seq<Term>, cache: map<(Term, Term), DivModPair>)
    requires Consistent(c, pairs, definitions, cache)
    ensures DefinitionsFor(c, PairSet(pairs), definitions)
  {
    hide Definition;
    forall p | p in PairSet(pairs) ensures IsInt(c.sig, p.0) && IsNum(p.1) && NumOf(p.1) != 0 && Definition(c, p.0, p.1) in definitions {
      var i: nat :| i < |pairs| && pairs[i] == p;
      assert OrderedAt(c, pairs, i) && definitions[i] in definitions;
    }
    forall d | d in definitions ensures exists p {:trigger p in PairSet(pairs)} :: p in PairSet(pairs) && IsNum(p.1) && NumOf(p.1) != 0 && d == Definition(c, p.0, p.1) {
      var i: nat :| i < |definitions| && definitions[i] == d;
      assert pairs[i] in PairSet(pairs);
    }
  }

  lemma PairDivisionFree(op: Op, a: Term, b: Term)
    requires op != Uf(DIV) && op != Uf(MOD) && DivisionFree(a) && DivisionFree(b)
    ensures DivisionFree(App(op, [a, b]))
  {
    hide DivisionFree;
    DivisionFreeChildren(App(op, [a, b]));
  }

  lemma DefinitionDivisionFree(c: Config, a: Term, d: Term)
    requires DivisionFree(a) && IsNum(d) && NumOf(d) != 0
    ensures DivisionFree(Definition(c, a, d))
  {
    var div, mod, top := Var(DivName(c, a, d)), Var(ModName(c, a, d)), Num(Magnitude(NumOf(d)) - 1);
    hide DivisionFree, DivName, ModName, NumCode;
    DivisionFreeChildren(d);
    DivisionFreeChildren(div);
    DivisionFreeChildren(mod);
    DivisionFreeChildren(Num(0));
    DivisionFreeChildren(top);
    var prod, low, high := App(Uf(TIMES), [d, div]), App(Uf(LEQ), [Num(0), mod]), App(Uf(LEQ), [mod, top]);
    PairDivisionFree(Uf(TIMES), d, div);
    PairDivisionFree(Uf(PLUS), prod, mod);
    PairDivisionFree(EqOp, a, App(Uf(PLUS), [prod, mod]));
    PairDivisionFree(Uf(LEQ), Num(0), mod);
    PairDivisionFree(Uf(LEQ), mod, top);
    PairDivisionFree(AndOp, low, high);
    PairDivisionFree(AndOp, Eq(a, App(Uf(PLUS), [prod, mod])), And([low, high]));
  }

  lemma ResultDivisionFree(c: Config, root: Term, pairs: seq<(Term, Term)>, definitions: seq<Term>, cache: map<(Term, Term), DivModPair>)
    requires Consistent(c, pairs, definitions, cache) && DivisionFree(root)
    ensures DivisionFree(Result(c, root, definitions))
  {
    hide DivisionFree, Definition, Ordered;
    var parts := [root] + definitions;
    DivisionFreeChildren(And(parts));
    forall i {:trigger parts[i]} | 0 <= i < |parts| ensures DivisionFree(parts[i]) {
      if i > 0 {
        assert parts[i] == definitions[i - 1];
        DefinitionDivisionFree(c, pairs[i - 1].0, pairs[i - 1].1);
      }
    }
    assert Children(And(parts)) == parts;
  }

  class DivModRewriter {
    const config: DivModConfig

    constructor (c: Config)
      ensures config.c == c && config.Valid() && config.pairs == [] && fresh(config)
    {
      config := new DivModConfig(c);
    }

    /** Every subterm once, after its children; then the definitions, also those of earlier calls, are added to the
        formula. */
    method Rewrite(term: Term) returns (res: Term)
      requires config.Valid() && Proper(config.c) && WellFormed(config.c.sig, term)
      requires forall x {:trigger x in Names(term)} :: x in Names(term) ==> !IsAux(x)
      modifies config
      ensures config.Valid() && PairSet(config.pairs) == old(PairSet(config.pairs)) + Pairs(config.c, term) && Ordered(config.c, config.pairs)
      ensures DefinitionsFor(config.c, PairSet(config.pairs), config.definitions)
      ensures res == Result(config.c, Rd(config.c, term).term, config.definitions) && DivisionFree(res)
    {
      hide DivisionFree, Walked, StackOk, WorkLeft, Rd, RdKids, Pairs, OwnPair, KidPairs, RdKidChanged, RdMid, Proper, WellFormed, Ordered, Known, IsInt, IsDivMod, Names, AuxNames;
      var rewritten := RewriteTerm(term);
      NoneLeft(config.c, term);
      AllDefined(config.c, config.pairs, config.definitions, config.divModCache);
      ResultDivisionFree(config.c, rewritten, config.pairs, config.definitions, config.divModCache);
      res := And([rewritten] + config.definitions);
    }

    method RewriteTerm(root: Term) returns (res: Term)
      requires config.Valid() && Proper(config.c) && WellFormed(config.c.sig, root)
      requires forall x {:trigger x in Names(root)} :: x in Names(root) ==> !IsAux(x)
      modifies config
      ensures config.Valid() && PairSet(config.pairs) == old(PairSet(config.pairs)) + Pairs(config.c, root) && res == Rd(config.c, root).term
    {
      hide DivisionFree, Walked, StackOk, WorkLeft, Rd, RdKids, Pairs, OwnPair, KidPairs, RdKidChanged, RdMid, Proper, WellFormed, Consistent, Known, IsInt, IsDivMod, Names, IsAux;
      var c := config.c;
      var table: map<Term, Term> := map[];
      var marked: set<Term> := {};
      var stack := [Entry(root, 0)];
      ghost var earlier := PairSet(config.pairs);
      WalkStarts(c, root, earlier);
      while stack != []
        invariant config.Valid() && Walked(c, root, marked, table, earlier, PairSet(config.pairs)) && StackOk(stack, marked)
        invariant forall i {:trigger stack[i]} :: 0 <= i < |stack| ==> stack[i].term in Subterms(root)
        invariant if stack == [] then root in marked else stack[0].term == root
        decreases WorkLeft(stack)
      {
        var top := |stack| - 1;
        var e := stack[top];
        TopOk(stack, marked);
        if e.next < |Children(e.term)| {
          var child := Children(e.term)[e.next];
          SubtermsClosed(root, e.term, child);
          ghost var stack0 := stack;
          stack := stack[top := Entry(e.term, e.next + 1)] + if child in marked then [] else [Entry(child, 0)];
          NextEntry(stack0, marked, e, stack);
          continue;
        }
        var needsChange, args := NewArguments(e.term, table);
        ghost var ps := PairSet(config.pairs);
        RdKidsReady(c, root, marked, table, earlier, ps, e.term, needsChange, args);
        var newTerm := if needsChange then c.mk(WithChildren(e.term, args)) else e.term;
        RdFrom(c, e.term, newTerm, Target(c, newTerm));
        MidKnown(c, root, e.term, config.pairs);
        var rewritten := config.Rewrite(newTerm);
        MarkMore(c, root, marked, table, earlier, ps, e.term, rewritten, rewritten != newTerm || needsChange);
        PopEntry(stack, marked);
        if rewritten != newTerm || needsChange {
          table := table[e.term := rewritten];
        }
        marked := marked + {e.term};
        stack := stack[..top];
      }
      RootDone(c, root, marked, table, earlier, PairSet(config.pairs));
      res := if root in table then table[root] else root;
    }
  }
}
