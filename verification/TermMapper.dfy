/** The term mapper: SAT variables for formulas, with negations stripped into the literal's sign. */
module TermMappers {
  import opened Clauses
  import opened Formulas

  function Core(f: Fla): Fla {
    if f.Not? then Core(f.arg) else f
  }

  function Sign(f: Fla): bool {
    if f.Not? then !Sign(f.arg) else false
  }

  /** The two directions of the mapping, for formulas that are not negations. */
  ghost predicate Bijection(termToVar: map<Fla, Var>, varToTerm: seq<Fla>) {
    && (forall t {:trigger termToVar[t]} :: t in termToVar ==> !t.Not? && termToVar[t] < |varToTerm| && varToTerm[termToVar[t]] == t)
    && (forall v {:trigger varToTerm[v]} :: 0 <= v < |varToTerm| ==> varToTerm[v] in termToVar && termToVar[varToTerm[v]] == v)
  }

  function LitOf(termToVar: map<Fla, Var>, f: Fla): Lit
    requires Core(f) in termToVar
  {
    Lit(termToVar[Core(f)], Sign(f))
  }

  /** What a literal stands for. */
  function LitToTerm(varToTerm: seq<Fla>, l: Lit): Fla
    requires l.v < |varToTerm|
  {
    if l.neg then MkNot(varToTerm[l.v]) else varToTerm[l.v]
  }

  lemma {:induction false} CoreMeans(f: Fla, val: Valuation)
    ensures !Core(f).Not?
    ensures Eval(f, val) <==> Eval(Core(f), val) != Sign(f)
  {
    if f.Not? {
      CoreMeans(f.arg, val);
    }
  }

  /** A formula and the term its literal stands for mean the same; two formulas share a literal only
      if they differ in pairs of negations. */
  lemma LiteralRoundTrip(termToVar: map<Fla, Var>, varToTerm: seq<Fla>, f: Fla, g: Fla, val: Valuation)
    requires Bijection(termToVar, varToTerm) && Core(f) in termToVar && Core(g) in termToVar
    ensures LitOf(termToVar, f).v < |varToTerm|
    ensures Eval(LitToTerm(varToTerm, LitOf(termToVar, f)), val) <==> Eval(f, val)
    ensures LitOf(termToVar, f) == LitOf(termToVar, g) <==> Core(f) == Core(g) && Sign(f) == Sign(g)
  {
    CoreMeans(f, val);
    NotMeans(Core(f), val);
    var t, u := termToVar[Core(f)], termToVar[Core(g)];
  }

  class TermMapper {
    var termToVar: map<Fla, Var>
    var varToTerm: seq<Fla>

    ghost predicate Valid()
      reads this
    {
      Bijection(termToVar, varToTerm)
    }

    constructor ()
      ensures Valid() && termToVar == map[] && varToTerm == []
    {
      termToVar, varToTerm := map[], [];
    }

    /** Strips negations, flipping the sign at each. */
    method GetTerm(r: Fla) returns (p: Fla, sgn: bool)
      ensures p == Core(r) && sgn == Sign(r)
    {
      p, sgn := r, false;
      while p.Not?
        invariant Core(p) == Core(r) && (sgn != Sign(p)) == Sign(r)
        decreases p
      {
        p, sgn := p.arg, !sgn;
      }
    }

    method AddBinding(t: Fla) returns (v: Var)
      requires Valid() && t !in termToVar && !t.Not?
      modifies this
      ensures Valid() && termToVar == old(termToVar)[t := v] && v == |old(varToTerm)|
    {
      v := |varToTerm|;
      termToVar := termToVar[t := v];
      varToTerm := varToTerm + [t];
    }

    /** The literal of a formula; its core gets a variable if it has none yet. */
    method GetOrCreateLit(f: Fla) returns (l: Lit)
      requires Valid()
      modifies this
      ensures Valid() && Core(f) in termToVar && l == LitOf(termToVar, f)
      ensures old(termToVar).Keys <= termToVar.Keys && forall t {:trigger termToVar[t]} :: t in old(termToVar) ==> termToVar[t] == old(termToVar)[t]
      ensures termToVar.Keys == old(termToVar).Keys + {Core(f)}
      ensures Core(f) in old(termToVar) ==> termToVar == old(termToVar) && varToTerm == old(varToTerm)
    {
      var p, sgn := GetTerm(f);
      CoreMeans(f, iset{});
      if p !in termToVar {
        var v := AddBinding(p);
      }
      l := Lit(termToVar[p], sgn);
    }
  }
}
