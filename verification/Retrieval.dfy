/** From facts to substitutions: equalities with a variable or a constant on one side, and Boolean variables. */
module SubstRetrieval {
  import opened Terms
  import opened Dfs
  import opened Digraphs
  import opened TarjanRuns
  import opened LoopBreakers
  import opened SubstLoopBreakers
  import opened Rewriters
  import opened SubstClosures
  import opened SubstFacts

  /** Whether `v` occurs in a term; `v` need not be a variable. */
  method Contains(term: Term, v: Term) returns (found: bool)
    ensures found <==> v in Subterms(term)
  {
    hide Walking, Descending, Work, Pushed, Subterms, Size, NotDone;
    var proc: set<Term> := {};
    var queue := [term];
    ghost var univ := Subterms(term);
    ghost var bits, open: set<Term> := [false], {};
    SubtermsDescend(term);
    Start(Children, Size, univ, term);
    while queue != []
      invariant Walking(Children, Size, univ, term, queue, bits, open, proc) && v !in proc
      decreases Work<Term>(univ, open, proc), |queue|
    {
      var top := |queue| - 1;
      var tr := queue[top];
      Top(Children, Size, univ, term, queue, bits, open, proc);
      if tr == v {
        return true;
      }
      Apart(Children, Size, univ, term, queue, bits, open, proc);
      if tr in proc {
        Pop(Children, Size, univ, term, queue, bits, open, proc);
        queue, bits := queue[..top], bits[..top];
        continue;
      }
      WorkShrinks<Term>(univ, open, proc, tr);
      NotDonePushed(tr, proc);
      var unprocessed := NotDone(Children(tr), proc);
      if unprocessed != [] {
        OpenHasNothingLeft(tr, open, proc);
        Expand(Children, Size, univ, term, queue, bits, open, proc, unprocessed);
        queue, bits := queue + unprocessed, bits[top := true] + seq(|unprocessed|, i => false);
        open := open + {tr};
        continue;
      }
      Finish(Children, Size, univ, term, queue, bits, open, proc);
      queue, bits := queue[..top], bits[..top];
      open, proc := open - {tr}, proc + {tr};
    }
    Finished(Children, Size, univ, term, bits, open, proc);
    SubtermsLeast(term, proc);
    found := false;
  }

  // ---------------------------------------------------------------------------
  // Candidates

  function False(): Term { App(FalseOp, []) }

  datatype Candidate = Nothing | Candidate(key: Term, target: Term)

  /** The substitution a fact suggests. */
  ghost function CandidateOf(l: Logic, f: Signed): Candidate {
    if IsEquality(f.term) && f.sign then
      var a, b := f.term.args[0], f.term.args[1];
      if Children(a) != [] && Children(b) != [] then Nothing
      else
        var key, target := if Children(a) == [] then a else b, if Children(a) == [] then b else a;
        if key in Subterms(target) then Nothing
        else if IsConstant(key) then Candidate(target, key)
        else Candidate(key, target)
    else if IsBoolAtom(l, f.term) then Candidate(f.term, if f.sign then True() else False())
    else Nothing
  }

  /** What an equation can be solved for: a variable that the other side does not contain, the left one if both sides
      are variables, or a compound term that equals a constant and does not contain it. */
  ghost predicate Solves(t: Term, key: Term, target: Term) {
    && (t == Eq(key, target) || t == Eq(target, key))
    && if key.Var? then key !in Subterms(target) && (t == Eq(key, target) || !target.Var?)
       else Children(key) != [] && IsConstant(target) && target !in Subterms(key)
  }

  /** The substitutions a fact gives: a solution of an asserted equation, or a variable's truth value. */
  ghost predicate Gives(l: Logic, f: Signed, key: Term, target: Term) {
    || (f.sign && Solves(f.term, key, target))
    || (IsBoolAtom(l, f.term) && key == f.term && target == if f.sign then True() else False())
  }

  /** The candidate is exactly that. */
  lemma CandidateExactly(l: Logic, f: Signed, key: Term, target: Term)
    requires Built(l, f.term)
    ensures CandidateOf(l, f) == Candidate(key, target) <==> Gives(l, f, key, target)
  {
    hide Built;
    Rewriters.BuiltChildren(l, f.term);
    if IsEquality(f.term) {
      var a, b := f.term.args[0], f.term.args[1];
      assert f.term == Eq(a, b);
      ConstantAlone(a);
      ConstantAlone(b);
    }
  }

  /** A candidate's key is a variable outside its target, or a compound term with an element as target. */
  ghost predicate CandidateOk(l: Logic, key: Term, target: Term, names: set<Term>) {
    && Built(l, key) && Built(l, target) && IsBool(l, target) == IsBool(l, key) && Leaves(target) <= names && Leaves(key) <= names
    && (if key.Var? then key !in Subterms(target) else Children(key) != [] && IsElement(target))
  }

  lemma TruthValues(l: Logic, v: Model, b: bool)
    ensures var t := if b then True() else False(); Built(l, t) && IsBool(l, t) && Leaves(t) == {} && Eval(v, t) == Bool(b)
  {
    EvalApp(v, TrueOp, []);
    EvalApp(v, FalseOp, []);
  }

  lemma CandidateIsOk(l: Logic, f: Signed)
    requires Built(l, f.term) && CandidateOf(l, f) != Nothing
    ensures CandidateOk(l, CandidateOf(l, f).key, CandidateOf(l, f).target, Leaves(f.term))
  {
    hide Built, Leaves;
    var c := CandidateOf(l, f);
    Rewriters.BuiltChildren(l, f.term);
    if IsEquality(f.term) && f.sign {
      var a, b := f.term.args[0], f.term.args[1];
      assert a in Children(f.term) && b in Children(f.term);
      LeavesDown(f.term, a, Leaves(f.term));
      LeavesDown(f.term, b, Leaves(f.term));
      Rewriters.BuiltChildren(l, a);
      Rewriters.BuiltChildren(l, b);
      ConstantAlone(c.key);
      ConstantAlone(c.target);
    } else {
      TruthValues(l, Model(x => Bool(true), (f, vs) => Bool(true), Defined), f.sign);
      assert c.key !in Subterms(c.target);
    }
  }

  lemma ConstantAlone(t: Term)
    ensures Children(t) == [] ==> Subterms(t) == {t} && (t.Var? || IsConstant(t))
  {
    forall s | s in Subterms(t) && Children(t) == [] ensures s == t {
      SubtermsOfChildren(t, s);
    }
    SubtermsOfChildren(t, t);
  }

  /** A model of the fact makes key and target equal. */
  lemma CandidateHolds(l: Logic, v: Model, f: Signed)
    requires Built(l, f.term) && Fair(l, v) && Says(v, f) && CandidateOf(l, f) != Nothing
    ensures Eval(v, CandidateOf(l, f).key) == Eval(v, CandidateOf(l, f).target)
  {
    hide Built;
    if IsEquality(f.term) && f.sign {
      assert f.term == Eq(f.term.args[0], f.term.args[1]);
      OpsHold(v, f.term.args[0], f.term.args[1]);
    } else {
      TruthValues(l, v, f.sign);
    }
  }

  /** The fact's suggestion, with the search for the variable in the term as it is done. */
  method Suggest(l: Logic, f: Signed) returns (c: Candidate)
    ensures c == CandidateOf(l, f)
  {
    if IsEquality(f.term) && f.sign {
      var a, b := f.term.args[0], f.term.args[1];
      if Children(a) != [] && Children(b) != [] {
        return Nothing;
      }
      var key, target := if Children(a) == [] then a else b, if Children(a) == [] then b else a;
      var inside := Contains(target, key);
      if inside {
        return Nothing;
      }
      return if IsConstant(key) then Candidate(target, key) else Candidate(key, target);
    }
    return if IsBoolAtom(l, f.term) then Candidate(f.term, if f.sign then True() else False()) else Nothing;
  }

  // ---------------------------------------------------------------------------
  // Retrieving

  /** The facts as a list of literals. */
  ghost predicate Facts(l: Logic, keys: seq<Term>, facts: map<Term, bool>, names: set<Term>) {
    forall t {:trigger t in keys} {:trigger t in facts} :: t in keys ==> t in facts && Built(l, t) && Leaves(t) <= names
  }

  ghost predicate AllSay(v: Model, keys: seq<Term>, facts: map<Term, bool>) {
    forall t {:trigger t in keys} :: t in keys && t in facts ==> Says(v, Signed(t, facts[t]))
  }

  /** The candidates found so far: one for each key, the first one. */
  ghost predicate Retrieving(l: Logic, keys: seq<Term>, facts: map<Term, bool>, n: nat, substs: seq<Subst>, table: map<Term, Term>) {
    && n <= |keys| && DistinctKeys(substs)
    && (forall i {:trigger substs[i]} :: 0 <= i < |substs| ==> substs[i].enabled && substs[i].key in table && table[substs[i].key] == substs[i].target)
    && (forall k {:trigger k in table} :: k in table ==> exists i {:trigger substs[i]} :: 0 <= i < |substs| && substs[i].key == k)
    && (forall k {:trigger table[k]} :: k in table ==> exists t {:trigger t in keys} :: t in keys[..n] && t in keys && t in facts && CandidateOf(l, Signed(t, facts[t])) == Candidate(k, table[k]))
    && (forall j {:trigger keys[j]} :: 0 <= j < n && keys[j] in facts && CandidateOf(l, Signed(keys[j], facts[keys[j]])) != Nothing ==>
          CandidateOf(l, Signed(keys[j], facts[keys[j]])).key in table)
  }

  lemma RetrieveSkip(l: Logic, keys: seq<Term>, facts: map<Term, bool>, n: nat, substs: seq<Subst>, table: map<Term, Term>)
    requires Retrieving(l, keys, facts, n, substs, table) && n < |keys| && keys[n] in facts
    requires CandidateOf(l, Signed(keys[n], facts[keys[n]])) != Nothing ==> CandidateOf(l, Signed(keys[n], facts[keys[n]])).key in table
    ensures Retrieving(l, keys, facts, n + 1, substs, table)
  {
    hide CandidateOf;
    assert keys[..n + 1] == keys[..n] + [keys[n]];
  }

  lemma RetrieveMore(l: Logic, keys: seq<Term>, facts: map<Term, bool>, n: nat, substs: seq<Subst>, table: map<Term, Term>, k: Term, t: Term)
    requires Retrieving(l, keys, facts, n, substs, table) && n < |keys| && keys[n] in facts
    requires CandidateOf(l, Signed(keys[n], facts[keys[n]])) == Candidate(k, t) && k !in table
    ensures Retrieving(l, keys, facts, n + 1, substs + [Subst(k, t, true)], table[k := t])
  {
    hide CandidateOf;
    var substs', table' := substs + [Subst(k, t, true)], table[k := t];
    assert keys[..n + 1] == keys[..n] + [keys[n]];
    forall x {:trigger x in table'} | x in table' ensures exists i {:trigger substs'[i]} :: 0 <= i < |substs'| && substs'[i].key == x {
      if x in table {
        var i :| 0 <= i < |substs| && substs[i].key == x;
        assert substs'[i].key == x;
      } else {
        assert substs'[|substs|].key == x;
      }
    }
    forall x {:trigger table'[x]} | x in table' ensures exists u {:trigger u in keys} :: u in keys[..n + 1] && u in keys && u in facts && CandidateOf(l, Signed(u, facts[u])) == Candidate(x, table'[x]) {
      if x == k {
        assert keys[n] in keys;
      } else {
        assert table'[x] == table[x];
        var u :| u in keys[..n] && u in keys && u in facts && CandidateOf(l, Signed(u, facts[u])) == Candidate(x, table[x]);
      }
    }
    assert forall i {:trigger substs[i]} :: 0 <= i < |substs| ==> substs[i].key != k;
  }

  /** A key that is in the table has the equation of the fact it came from. */
  lemma TableEntry(l: Logic, keys: seq<Term>, facts: map<Term, bool>, n: nat, substs: seq<Subst>, table: map<Term, Term>, names: set<Term>, k: Term)
    requires Retrieving(l, keys, facts, n, substs, table) && Facts(l, keys, facts, names) && k in table
    ensures CandidateOk(l, k, table[k], names)
    ensures forall v {:trigger AllSay(v, keys, facts)} :: Fair(l, v) && AllSay(v, keys, facts) ==> Eval(v, k) == Eval(v, table[k])
    ensures exists t {:trigger t in keys} :: t in keys && t in facts && CandidateOf(l, Signed(t, facts[t])) == Candidate(k, table[k])
  {
    hide CandidateOf, Fair, Built, Leaves;
    var t :| t in keys && t in facts && CandidateOf(l, Signed(t, facts[t])) == Candidate(k, table[k]);
    CandidateIsOk(l, Signed(t, facts[t]));
    forall v | Fair(l, v) && AllSay(v, keys, facts) ensures Eval(v, k) == Eval(v, table[k]) {
      CandidateHolds(l, v, Signed(t, facts[t]));
    }
  }

  /** The retrieved substitutions: some of the candidates, in a ranked order, each implied by its fact. */
  ghost predicate Retrieved(l: Logic, keys: seq<Term>, facts: map<Term, bool>, m: map<Term, Term>, rank: map<Term, nat>, names: set<Term>) {
    && Good(l, m, rank) && LeavesWithin(m, names)
    && (forall k {:trigger k in m} :: k in m ==> Leaves(k) <= names && exists t {:trigger t in keys} :: t in keys && t in facts && CandidateOf(l, Signed(t, facts[t])) == Candidate(k, m[k]))
    && forall v {:trigger AllSay(v, keys, facts)} :: Fair(l, v) && AllSay(v, keys, facts) ==> Sat(v, m)
  }

  /** Nothing is missing: every fact's candidate took part in the loop breaking, and what it left out is on
      a cycle of the substitution graph. */
  ghost predicate Complete(l: Logic, keys: seq<Term>, facts: map<Term, bool>, m: map<Term, Term>) {
    exists substs: seq<Subst>, nodes, g {:trigger GraphOf(substs, nodes, g)} ::
      GraphOf(substs, nodes, g) && AllCandidates(l, keys, facts, substs) && forall i {:trigger substs[i]} :: 0 <= i < |substs| && substs[i].key !in m ==> OnCycle(g, i)
  }

  ghost predicate AllCandidates(l: Logic, keys: seq<Term>, facts: map<Term, bool>, substs: seq<Subst>) {
    && (forall j {:trigger keys[j]} :: 0 <= j < |keys| && keys[j] in facts && CandidateOf(l, Signed(keys[j], facts[keys[j]])) != Nothing ==>
          exists i {:trigger substs[i]} :: 0 <= i < |substs| && substs[i].key == CandidateOf(l, Signed(keys[j], facts[keys[j]])).key)
    && forall i {:trigger substs[i]} :: 0 <= i < |substs| ==> Suggests(l, keys, facts, substs[i].key, substs[i].target)
  }

  /** Some fact suggests this substitution. */
  ghost predicate Suggests(l: Logic, keys: seq<Term>, facts: map<Term, bool>, key: Term, target: Term) {
    exists t {:trigger t in keys} :: t in keys && t in facts && CandidateOf(l, Signed(t, facts[t])) == Candidate(key, target)
  }

  /** Two facts suggest different targets for one key. */
  ghost predicate Torn(l: Logic, keys: seq<Term>, facts: map<Term, bool>) {
    exists t, u {:trigger t in keys, u in keys} :: t in keys && u in keys && t in facts && u in facts
      && CandidateOf(l, Signed(t, facts[t])) != Nothing && CandidateOf(l, Signed(u, facts[u])) != Nothing
      && CandidateOf(l, Signed(t, facts[t])).key == CandidateOf(l, Signed(u, facts[u])).key
      && CandidateOf(l, Signed(t, facts[t])) != CandidateOf(l, Signed(u, facts[u]))
  }

  /** Solving some fact for `x` makes it depend on the variable `y`. */
  ghost predicate Depends(l: Logic, keys: seq<Term>, facts: map<Term, bool>, x: Term, y: Term) {
    y.Var? && exists t, u {:trigger t in keys, y in Subterms(u)} :: t in keys && t in facts && Gives(l, Signed(t, facts[t]), x, u) && y in Subterms(u)
  }

  ghost predicate Cyclic(l: Logic, keys: seq<Term>, facts: map<Term, bool>, k: Term) {
    exists path: seq<Term> {:trigger |path|} :: |path| > 1 && path[0] == k && path[|path| - 1] == k
      && forall i {:trigger path[i]} :: 0 <= i < |path| - 1 ==> Depends(l, keys, facts, path[i], path[i + 1])
  }

  /** Every solution of a fact is taken, if not for that then for another term for the same key, unless its key
      depends on itself; and every substitution taken is a solution of a fact. */
  ghost predicate Solved(l: Logic, keys: seq<Term>, facts: map<Term, bool>, m: map<Term, Term>) {
    && (forall t, k, u {:trigger Gives(l, Signed(t, facts[t]), k, u)} :: t in keys && t in facts && Gives(l, Signed(t, facts[t]), k, u) ==> k in m || Cyclic(l, keys, facts, k))
    && forall k {:trigger m[k]} :: k in m ==> exists t {:trigger t in keys} :: t in keys && t in facts && Gives(l, Signed(t, facts[t]), k, m[k])
  }

  lemma SuggestedDepends(l: Logic, keys: seq<Term>, facts: map<Term, bool>, names: set<Term>, x: Term, u: Term, y: Term)
    requires Facts(l, keys, facts, names) && Suggests(l, keys, facts, x, u) && y in Subterms(u) && y.Var?
    ensures Depends(l, keys, facts, x, y)
  {
    hide CandidateOf, Gives, Built, Leaves;
    var t :| t in keys && t in facts && CandidateOf(l, Signed(t, facts[t])) == Candidate(x, u);
    CandidateExactly(l, Signed(t, facts[t]), x, u);
  }

  /** A walk over the nodes of the substitution graph goes along dependencies. */
  lemma CycleDepends(l: Logic, keys: seq<Term>, facts: map<Term, bool>, names: set<Term>, substs: seq<Subst>, nodes: seq<Term>, g: Digraph, i: Node)
    requires Facts(l, keys, facts, names) && GraphOf(substs, nodes, g) && AllCandidates(l, keys, facts, substs) && i < |substs| && OnCycle(g, i)
    ensures Cyclic(l, keys, facts, substs[i].key)
  {
    hide Facts, Depends, Suggests;
    var y: Node :| y != i && Mutual(g, i, y);
    var p: seq<Node> :| IsPath(g, p, i, y);
    var q: seq<Node> :| IsPath(g, q, y, i);
    var walk := p + q[1..];
    assert walk[0] == i && walk[|walk| - 1] == i && |walk| > 1;
    forall j {:trigger walk[j]} | 0 <= j < |walk| - 1 ensures Edge(g, walk[j], walk[j + 1]) {
      if j < |p| - 1 { assert walk[j] == p[j]; } else { assert walk[j] == q[j - |p| + 1] && walk[j + 1] == q[j - |p| + 2]; }
    }
    WalkDepends(l, keys, facts, names, substs, nodes, g, walk);
  }

  lemma WalkDepends(l: Logic, keys: seq<Term>, facts: map<Term, bool>, names: set<Term>, substs: seq<Subst>, nodes: seq<Term>, g: Digraph, walk: seq<Node>)
    requires Facts(l, keys, facts, names) && GraphOf(substs, nodes, g) && AllCandidates(l, keys, facts, substs)
    requires |walk| > 1 && walk[0] == walk[|walk| - 1] < |substs|
    requires forall j {:trigger walk[j]} :: 0 <= j < |walk| - 1 ==> Edge(g, walk[j], walk[j + 1])
    ensures Cyclic(l, keys, facts, substs[walk[0]].key)
  {
    hide Facts, Depends, Suggests;
    forall j {:trigger walk[j]} | 0 <= j < |walk| ensures walk[j] < |nodes| {
      assert j > 0 ==> Edge(g, walk[j - 1], walk[j]);
    }
    var path := seq(|walk|, j requires 0 <= j < |walk| => nodes[walk[j]]);
    forall j {:trigger path[j]} | 0 <= j < |path| - 1 ensures Depends(l, keys, facts, path[j], path[j + 1]) {
      assert Edge(g, walk[j], walk[j + 1]);
      EdgeDepends(l, keys, facts, names, substs, nodes, g, walk[j], walk[j + 1]);
    }
    assert path[0] == substs[walk[0]].key;
  }

  lemma EdgeDepends(l: Logic, keys: seq<Term>, facts: map<Term, bool>, names: set<Term>, substs: seq<Subst>, nodes: seq<Term>, g: Digraph, x: Node, y: Node)
    requires Facts(l, keys, facts, names) && GraphOf(substs, nodes, g) && AllCandidates(l, keys, facts, substs) && Edge(g, x, y)
    ensures x < |nodes| && y < |nodes| && Depends(l, keys, facts, nodes[x], nodes[y])
  {
    hide Facts, Depends, Suggests;
    assert x < |substs|;
    assert y < |nodes|;
    assert HasVarChild(nodes, g, x, nodes[y]);
    assert Suggests(l, keys, facts, substs[x].key, substs[x].target);
    SuggestedDepends(l, keys, facts, names, substs[x].key, substs[x].target, nodes[y]);
  }

  lemma CompleteSolves(l: Logic, keys: seq<Term>, facts: map<Term, bool>, names: set<Term>, m: map<Term, Term>, rank: map<Term, nat>)
    requires Facts(l, keys, facts, names) && Retrieved(l, keys, facts, m, rank, names) && Complete(l, keys, facts, m)
    ensures Solved(l, keys, facts, m)
  {
    hide Facts, Retrieved, Complete, Gives, Cyclic;
    forall t, k, u {:trigger Gives(l, Signed(t, facts[t]), k, u)} | t in keys && t in facts && Gives(l, Signed(t, facts[t]), k, u) ensures k in m || Cyclic(l, keys, facts, k) {
      if k !in m { LeftOutIsCyclic(l, keys, facts, names, m, t, k, u); }
    }
    forall k {:trigger m[k]} | k in m ensures exists t {:trigger t in keys} :: t in keys && t in facts && Gives(l, Signed(t, facts[t]), k, m[k]) {
      var t := TakenIsGiven(l, keys, facts, names, m, rank, k);
    }
  }

  lemma LeftOutIsCyclic(l: Logic, keys: seq<Term>, facts: map<Term, bool>, names: set<Term>, m: map<Term, Term>, t: Term, k: Term, u: Term)
    requires Facts(l, keys, facts, names) && Complete(l, keys, facts, m)
    requires t in keys && t in facts && Gives(l, Signed(t, facts[t]), k, u) && k !in m
    ensures Cyclic(l, keys, facts, k)
  {
    hide CandidateOf, Gives, Built, Leaves, GraphOf, OnCycle, Cyclic, Suggests;
    var substs: seq<Subst>, nodes, g :| GraphOf(substs, nodes, g) && AllCandidates(l, keys, facts, substs) && forall i {:trigger substs[i]} :: 0 <= i < |substs| && substs[i].key !in m ==> OnCycle(g, i);
    CandidateExactly(l, Signed(t, facts[t]), k, u);
    var j :| 0 <= j < |keys| && keys[j] == t;
    assert keys[j] in facts;
    var i :| 0 <= i < |substs| && substs[i].key == k;
    CycleDepends(l, keys, facts, names, substs, nodes, g, i);
  }

  lemma TakenIsGiven(l: Logic, keys: seq<Term>, facts: map<Term, bool>, names: set<Term>, m: map<Term, Term>, rank: map<Term, nat>, k: Term) returns (t: Term)
    requires Facts(l, keys, facts, names) && Retrieved(l, keys, facts, m, rank, names) && k in m
    ensures t in keys && t in facts && Gives(l, Signed(t, facts[t]), k, m[k])
  {
    hide CandidateOf, Gives, Built, Leaves, Good, LeavesWithin, Fair;
    t :| t in keys && t in facts && CandidateOf(l, Signed(t, facts[t])) == Candidate(k, m[k]);
    CandidateExactly(l, Signed(t, facts[t]), k, m[k]);
  }

  lemma RetrievedAre(l: Logic, keys: seq<Term>, facts: map<Term, bool>, substs: seq<Subst>, table: map<Term, Term>, names: set<Term>, m: map<Term, Term>, rank: map<Term, nat>)
    requires Retrieving(l, keys, facts, |keys|, substs, table) && Facts(l, keys, facts, names) && RankedBy(m, rank)
    requires forall k {:trigger k in m} :: k in m ==> exists s {:trigger s in substs} :: s in substs && s.key == k && s.target == m[k]
    ensures Retrieved(l, keys, facts, m, rank, names)
  {
    hide CandidateOf, Fair, Built, Leaves, RankedBy, AllSay;
    forall k {:trigger k in m} {:trigger m[k]} | k in m
      ensures k in table && table[k] == m[k] && CandidateOk(l, k, m[k], names)
      ensures exists t {:trigger t in keys} :: t in keys && t in facts && CandidateOf(l, Signed(t, facts[t])) == Candidate(k, m[k])
      ensures forall v {:trigger AllSay(v, keys, facts)} :: Fair(l, v) && AllSay(v, keys, facts) ==> Eval(v, k) == Eval(v, m[k])
    {
      var s :| s in substs && s.key == k && s.target == m[k];
      var i :| 0 <= i < |substs| && substs[i] == s;
      TableEntry(l, keys, facts, |keys|, substs, table, names, k);
    }
  }

  /** The loop breaker may be called: no variable occurs in its own target. */
  lemma NoneInItself(l: Logic, keys: seq<Term>, facts: map<Term, bool>, substs: seq<Subst>, table: map<Term, Term>, names: set<Term>)
    requires Retrieving(l, keys, facts, |keys|, substs, table) && Facts(l, keys, facts, names)
    ensures DistinctKeys(substs)
    ensures forall i {:trigger substs[i]} :: 0 <= i < |substs| && substs[i].enabled && substs[i].key.Var? ==> substs[i].key !in Subterms(substs[i].target)
  {
    hide CandidateOf, Fair, Built, Leaves, DistinctKeys, AllSay;
    forall i {:trigger substs[i]} | 0 <= i < |substs| && substs[i].enabled && substs[i].key.Var? ensures substs[i].key !in Subterms(substs[i].target) {
      TableEntry(l, keys, facts, |keys|, substs, table, names, substs[i].key);
    }
  }

  lemma Contradiction(l: Logic, keys: seq<Term>, facts: map<Term, bool>, n: nat, substs: seq<Subst>, table: map<Term, Term>, names: set<Term>, x: Term)
    requires Retrieving(l, keys, facts, n, substs, table) && Facts(l, keys, facts, names) && x in table && x in keys && IsBoolAtom(l, x)
    requires var t := if facts[x] then True() else False(); table[x] in {True(), False()} && table[x] != t
    ensures Torn(l, keys, facts)
    ensures forall v {:trigger AllSay(v, keys, facts)} :: Fair(l, v) ==> !AllSay(v, keys, facts)
  {
    hide Fair, Built, Leaves;
    TableEntry(l, keys, facts, n, substs, table, names, x);
    var y :| y in keys && y in facts && CandidateOf(l, Signed(y, facts[y])) == Candidate(x, table[x]);
    assert CandidateOf(l, Signed(x, facts[x])) == Candidate(x, if facts[x] then True() else False());
    forall v | Fair(l, v) ensures !AllSay(v, keys, facts) {
      var f := Signed(x, facts[x]);
      if AllSay(v, keys, facts) {
        CandidateHolds(l, v, f);
        TruthValues(l, v, true);
        TruthValues(l, v, false);
      }
    }
  }

  method RetrieveSubstitutions(l: Logic, keys: seq<Term>, facts: map<Term, bool>, ghost names: set<Term>)
    returns (conflict: bool, order: seq<Term>, m: map<Term, Term>, ghost rank: map<Term, nat>)
    requires Facts(l, keys, facts, names)
    ensures conflict ==> order == [] && m == map[] && Torn(l, keys, facts) && forall v {:trigger AllSay(v, keys, facts)} :: Fair(l, v) ==> !AllSay(v, keys, facts)
    ensures !conflict ==> Listed(order, m) && Retrieved(l, keys, facts, m, rank, names) && Complete(l, keys, facts, m) && Solved(l, keys, facts, m)
  {
    hide Solved, Complete, Retrieving, Facts, CandidateOf, AllSay, Fair, GraphOf, OnCycle, RankedBy, Retrieved, DistinctKeys, KeysOf, Torn, AllCandidates;
    var candidates: seq<Subst>, table: map<Term, Term> := [], map[];
    conflict, order, m, rank := false, [], map[], map[];
    NothingRetrieved(l, keys, facts);
    FactsAreThere(l, keys, facts, names);
    for i := 0 to |keys|
      invariant Retrieving(l, keys, facts, i, candidates, table)
    {
      var tr := keys[i];
      var c := Suggest(l, Signed(tr, facts[tr]));
      if c.Candidate? && c.key !in table {
        RetrieveMore(l, keys, facts, i, candidates, table, c.key, c.target);
        candidates, table := candidates + [Subst(c.key, c.target, true)], table[c.key := c.target];
      } else {
        if c.Candidate? && !(IsEquality(tr) && facts[tr]) {
          BoolCandidate(l, tr, facts[tr]);
          if table[c.key] in {True(), False()} && table[c.key] != c.target {
            Contradiction(l, keys, facts, i, candidates, table, names, tr);
            conflict := true;
            return;
          }
        }
        RetrieveSkip(l, keys, facts, i, candidates, table);
      }
    }
    NoneInItself(l, keys, facts, candidates, table, names);
    var breaker := new SubstLoopBreaker();
    ghost var substs, g;
    order, m, substs, g, rank := breaker.Run(candidates);
    AllEnabled(l, keys, facts, candidates, table, substs, m);
    RetrievedAre(l, keys, facts, candidates, table, names, m, rank);
    IsComplete(l, keys, facts, substs, breaker.nodes, g, m);
    CompleteSolves(l, keys, facts, names, m, rank);
  }

  lemma IsComplete(l: Logic, keys: seq<Term>, facts: map<Term, bool>, substs: seq<Subst>, nodes: seq<Term>, g: Digraph, m: map<Term, Term>)
    requires GraphOf(substs, nodes, g) && AllCandidates(l, keys, facts, substs) && forall i {:trigger substs[i]} :: 0 <= i < |substs| && substs[i].key !in m ==> OnCycle(g, i)
    ensures Complete(l, keys, facts, m)
  {
    hide GraphOf, AllCandidates, OnCycle;
  }

  lemma NothingRetrieved(l: Logic, keys: seq<Term>, facts: map<Term, bool>)
    ensures Retrieving(l, keys, facts, 0, [], map[])
  {
  }

  lemma FactsAreThere(l: Logic, keys: seq<Term>, facts: map<Term, bool>, names: set<Term>)
    requires Facts(l, keys, facts, names)
    ensures forall j {:trigger keys[j]} :: 0 <= j < |keys| ==> keys[j] in facts
  {
    forall j {:trigger keys[j]} | 0 <= j < |keys| ensures keys[j] in facts {
      assert keys[j] in keys;
    }
  }

  lemma BoolCandidate(l: Logic, t: Term, sign: bool)
    requires CandidateOf(l, Signed(t, sign)) != Nothing && !(IsEquality(t) && sign)
    ensures CandidateOf(l, Signed(t, sign)) == Candidate(t, if sign then True() else False()) && IsBoolAtom(l, t)
  {
  }

  /** All candidates take part in the loop breaking. */
  lemma AllEnabled(l: Logic, keys: seq<Term>, facts: map<Term, bool>, substs: seq<Subst>, table: map<Term, Term>, enabled: seq<Subst>, m: map<Term, Term>)
    requires Retrieving(l, keys, facts, |keys|, substs, table) && KeysOf(substs, enabled)
    requires forall j {:trigger keys[j]} :: 0 <= j < |keys| ==> keys[j] in facts
    requires forall k {:trigger k in m} :: k in m ==> exists i :: 0 <= i < |enabled| && enabled[i].key == k && enabled[i].target == m[k]
    ensures forall k {:trigger k in m} :: k in m ==> exists s {:trigger s in substs} :: s in substs && s.key == k && s.target == m[k]
    ensures AllCandidates(l, keys, facts, enabled)
  {
    forall i {:trigger enabled[i]} | 0 <= i < |enabled|
      ensures Suggests(l, keys, facts, enabled[i].key, enabled[i].target)
    {
      assert enabled[i] in enabled && enabled[i] in substs;
      var j :| 0 <= j < |substs| && substs[j] == enabled[i];
      var k := enabled[i].key;
      assert k in table && table[k] == enabled[i].target;
      var t :| t in keys[..|keys|] && t in keys && t in facts && CandidateOf(l, Signed(t, facts[t])) == Candidate(k, table[k]);
    }
    forall k | k in m ensures exists s {:trigger s in substs} :: s in substs && s.key == k && s.target == m[k] {
      var i :| 0 <= i < |enabled| && enabled[i].key == k && enabled[i].target == m[k];
      assert enabled[i] in enabled;
    }
    forall j {:trigger keys[j]} | 0 <= j < |keys| && CandidateOf(l, Signed(keys[j], facts[keys[j]])) != Nothing
      ensures exists i {:trigger enabled[i]} :: 0 <= i < |enabled| && enabled[i].key == CandidateOf(l, Signed(keys[j], facts[keys[j]])).key
    {
      var k := CandidateOf(l, Signed(keys[j], facts[keys[j]])).key;
      var i :| 0 <= i < |substs| && substs[i].key == k;
      assert substs[i] in substs && substs[i] in enabled;
      var e :| 0 <= e < |enabled| && enabled[e] == substs[i];
    }
  }
}
