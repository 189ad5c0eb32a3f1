/** The transitive closure of a set of substitutions: values are rewritten until nothing changes. */
module SubstClosures {
  import opened Terms
  import opened Rewriters

  /** The model makes each key equal to its value. */
  ghost predicate Sat(v: Model, m: map<Term, Term>) {
    forall k {:trigger m[k]} :: k in m ==> Eval(v, k) == Eval(v, m[k])
  }

  ghost predicate SameModels(l: Logic, a: map<Term, Term>, b: map<Term, Term>) {
    forall v {:trigger Sat(v, a)} {:trigger Sat(v, b)} :: Fair(l, v) ==> (Sat(v, a) <==> Sat(v, b))
  }

  ghost predicate LeavesWithin(m: map<Term, Term>, names: set<Term>) {
    forall k {:trigger m[k]} :: k in m ==> Leaves(m[k]) <= names
  }

  /** No key is left in any value. */
  ghost predicate IsClosed(m: map<Term, Term>) {
    forall k {:trigger m[k]} :: k in m ==> !HasKey(m, m[k])
  }

  // ---------------------------------------------------------------------------
  // How far a term is from having no variable key

  ghost function MaxRank(rank: map<Term, nat>, vs: set<Term>): nat
    requires vs <= rank.Keys
  {
    if vs == {} then 0 else
      var v :| v in vs;
      var rest := MaxRank(rank, vs - {v});
      if rank[v] + 1 > rest then rank[v] + 1 else rest
  }

  lemma {:induction false} MaxRankBounds(rank: map<Term, nat>, vs: set<Term>, r: nat)
    requires vs <= rank.Keys
    ensures forall v {:trigger rank[v]} :: v in vs ==> rank[v] < MaxRank(rank, vs)
    ensures (forall v {:trigger rank[v]} :: v in vs ==> rank[v] < r) ==> MaxRank(rank, vs) <= r
    decreases vs
  {
    if vs != {} {
      var v :| v in vs && MaxRank(rank, vs) == (var rest := MaxRank(rank, vs - {v}); if rank[v] + 1 > rest then rank[v] + 1 else rest);
      MaxRankBounds(rank, vs - {v}, r);
      forall u | u in vs ensures rank[u] < MaxRank(rank, vs) {
        if u != v { assert u in vs - {v}; }
      }
    }
  }

  ghost function Level(m: map<Term, Term>, rank: map<Term, nat>, t: Term): nat {
    MaxRank(rank, set v | v in Leaves(t) && v.Var? && v in m && v in rank)
  }

  lemma LevelBounds(m: map<Term, Term>, rank: map<Term, nat>, t: Term, r: nat)
    ensures Below(m, rank, t, Level(m, rank, t))
    ensures Below(m, rank, t, r) ==> Level(m, rank, t) <= r
  {
    MaxRankBounds(rank, (set v | v in Leaves(t) && v.Var? && v in m && v in rank), r);
  }

  /** A changed term has a lower level, or the same level 0 and a smaller size. */
  lemma RwProgress(l: Logic, m: map<Term, Term>, rank: map<Term, nat>, t: Term)
    requires Simplifies(l) && Built(l, t) && Good(l, m, rank) && Rw(l, m, t).changed
    ensures var t' := Rw(l, m, t).term;
            t' != t && (Level(m, rank, t') < Level(m, rank, t) || (Level(m, rank, t') == Level(m, rank, t) && Size(t') < Size(t)))
  {
    hide Level, Below, Built, Good, Rw, Simplifies;
    var r := Level(m, rank, t);
    var t' := Rw(l, m, t).term;
    LevelBounds(m, rank, t, r);
    RwBelow(l, m, rank, t, r);
    if r > 0 {
      LevelBounds(m, rank, t', r - 1);
    } else {
      RwShrinks(l, m, rank, t);
      BelowWeaker(m, rank, t', -1);
      LevelBounds(m, rank, t', 0);
    }
  }

  // ---------------------------------------------------------------------------
  // Rewriting one value

  lemma ConstantStays(l: Logic, m: map<Term, Term>, c: Term)
    requires KeysOk(m) && IsConstant(c)
    ensures c !in m && Rw(l, m, c).term == c
  {
    var cs := Children(c);
    assert !KidChanged(l, m, c);
  }

  lemma ValueBelow(l: Logic, m: map<Term, Term>, rank: map<Term, nat>, k: Term)
    requires Good(l, m, rank) && k in m
    ensures k in rank && Below(m, rank, m[k], rank[k]) && Built(l, m[k])
  {
    var x := m[k];
  }

  /** The substitutions with one value rewritten are as good, and have the same models. */
  lemma ValueRewritten(l: Logic, m: map<Term, Term>, rank: map<Term, nat>, k: Term, names: set<Term>)
    requires Simplifies(l) && Good(l, m, rank) && k in m && LeavesWithin(m, names)
    ensures var m' := m[k := Rw(l, m, m[k]).term]; Good(l, m', rank) && SameModels(l, m, m') && LeavesWithin(m', names)
  {
    hide Built, Rw, Below, Simplifies, Fair, Leaves;
    var m' := m[k := Rw(l, m, m[k]).term];
    ValueBelow(l, m, rank, k);
    RwBuilt(l, m, m[k]);
    RwLeaves(l, m, m[k], names);
    if k.Var? {
      RewrittenRanked(l, m, rank, k);
      forall v | Fair(l, v) ensures Sat(v, m) <==> Sat(v, m') {
        RewrittenMeans(l, m, rank, k, v);
      }
    } else {
      ConstantStays(l, m, m[k]);
      assert m' == m;
    }
  }

  lemma RewrittenRanked(l: Logic, m: map<Term, Term>, rank: map<Term, nat>, k: Term)
    requires Simplifies(l) && Good(l, m, rank) && k in m && k.Var?
    ensures var m' := m[k := Rw(l, m, m[k]).term]; RankedBy(m', rank) && KeysOk(m')
  {
    hide Built, Rw, Simplifies, ValuesBuilt;
    var target := Rw(l, m, m[k]).term;
    var m' := m[k := target];
    ValueBelow(l, m, rank, k);
    RwBelow(l, m, rank, m[k], rank[k]);
    forall x, u {:trigger m'[x], rank[u]} | x in m' && u in m' && u.Var? && u in Subterms(m'[x]) ensures rank[u] < rank[x] {
      if x == k { assert u in Leaves(target) && u in m; } else { assert m'[x] == m[x]; }
    }
    forall x {:trigger m'[x]} | x in m' && !x.Var? ensures Children(x) != [] && IsElement(m'[x]) {
      assert m'[x] == m[x];
    }
  }

  lemma RewrittenMeans(l: Logic, m: map<Term, Term>, rank: map<Term, nat>, k: Term, v: Model)
    requires Simplifies(l) && Good(l, m, rank) && k in m && k.Var? && Fair(l, v)
    ensures var m' := m[k := Rw(l, m, m[k]).term]; Sat(v, m) <==> Sat(v, m')
  {
    hide Built, Rw, Simplifies, Below;
    var target := Rw(l, m, m[k]).term;
    var m' := m[k := target];
    ValueBelow(l, m, rank, k);
    var r := rank[k];
    if Sat(v, m) || Sat(v, m') {
      forall x {:trigger m[x]} | x in m && x in rank && (x.Var? ==> rank[x] < r) ensures Eval(v, x) == Eval(v, m[x]) {
        assert x != k && m'[x] == m[x];
      }
      RwMeans(l, m, rank, m[k], r, v);
      assert m'[k] == target;
      forall x {:trigger m[x]} | x in m && Sat(v, m') ensures Eval(v, x) == Eval(v, m[x]) {
        if x != k { assert m'[x] == m[x]; }
      }
      forall x {:trigger m'[x]} | x in m' && Sat(v, m) ensures Eval(v, x) == Eval(v, m'[x]) {
        if x != k { assert m'[x] == m[x]; }
      }
    }
  }

  // ---------------------------------------------------------------------------
  // Termination

  ghost predicate Listed(keys: seq<Term>, m: map<Term, Term>) {
    && (forall i, j {:trigger keys[i], keys[j]} :: 0 <= i < j < |keys| ==> keys[i] != keys[j])
    && (forall k {:trigger k in m} {:trigger k in keys} :: k in keys <==> k in m)
  }

  ghost function SumLevel(keys: seq<Term>, m: map<Term, Term>, all: map<Term, Term>, rank: map<Term, nat>): nat
    requires forall i {:trigger keys[i]} :: 0 <= i < |keys| ==> keys[i] in m
  {
    if keys == [] then 0 else
      var n := |keys| - 1;
      Level(all, rank, m[keys[n]]) + SumLevel(keys[..n], m, all, rank)
  }

  ghost function SumSize(keys: seq<Term>, m: map<Term, Term>): nat
    requires forall i {:trigger keys[i]} :: 0 <= i < |keys| ==> keys[i] in m
  {
    if keys == [] then 0 else
      var n := |keys| - 1;
      Size(m[keys[n]]) + SumSize(keys[..n], m)
  }

  lemma LevelSameKeys(a: map<Term, Term>, b: map<Term, Term>, rank: map<Term, nat>, t: Term)
    requires a.Keys == b.Keys
    ensures Level(a, rank, t) == Level(b, rank, t)
  {
    assert (set v | v in Leaves(t) && v.Var? && v in a && v in rank) == (set v | v in Leaves(t) && v.Var? && v in b && v in rank);
  }

  /** Changing one value changes the sums by what that value contributes. */
  lemma {:induction false} SumsUpdated(keys: seq<Term>, m: map<Term, Term>, all: map<Term, Term>, rank: map<Term, nat>, k: Term, t: Term)
    requires forall i {:trigger keys[i]} :: 0 <= i < |keys| ==> keys[i] in m
    requires forall i, j {:trigger keys[i], keys[j]} :: 0 <= i < j < |keys| ==> keys[i] != keys[j]
    requires k in m
    ensures SumLevel(keys, m[k := t], all, rank) == SumLevel(keys, m, all, rank) + if k in keys then Level(all, rank, t) - Level(all, rank, m[k]) else 0
    ensures SumSize(keys, m[k := t]) == SumSize(keys, m) + if k in keys then Size(t) - Size(m[k]) else 0
  {
    hide Level, Size;
    if keys != [] {
      var n := |keys| - 1;
      var rest := keys[..n];
      assert keys == rest + [keys[n]];
      forall i {:trigger rest[i]} | 0 <= i < |rest| ensures rest[i] in m { assert rest[i] == keys[i]; }
      forall i, j {:trigger rest[i], rest[j]} | 0 <= i < j < |rest| ensures rest[i] != rest[j] {
        assert keys[i] != keys[j];
      }
      SumsUpdated(rest, m, all, rank, k, t);
      if k in rest {
        var i :| 0 <= i < n && rest[i] == k;
        assert keys[i] != keys[n];
      }
    }
  }

  /** A run of the closure: good substitutions with the models of the first ones. */
  ghost predicate Closing(l: Logic, first: map<Term, Term>, m: map<Term, Term>, rank: map<Term, nat>, names: set<Term>) {
    && Good(l, m, rank) && SameModels(l, first, m) && LeavesWithin(m, names) && m.Keys == first.Keys
    && forall k {:trigger m[k]} :: k in m && !HasKey(first, first[k]) ==> m[k] == first[k]
  }

  lemma HasKeySame(a: map<Term, Term>, b: map<Term, Term>, t: Term)
    requires a.Keys == b.Keys
    ensures HasKey(a, t) <==> HasKey(b, t)
  {
  }

  lemma ClosingStep(l: Logic, first: map<Term, Term>, m: map<Term, Term>, rank: map<Term, nat>, names: set<Term>, k: Term)
    requires Simplifies(l) && Closing(l, first, m, rank, names) && k in m
    ensures Closing(l, first, m[k := Rw(l, m, m[k]).term], rank, names)
    ensures Rw(l, m, m[k]).term != m[k] <==> HasKey(m, m[k])
  {
    hide Rw, Good, Fair, LeavesWithin, HasKey, Simplifies;
    var target := Rw(l, m, m[k]).term;
    ValueRewritten(l, m, rank, k, names);
    GoodMoves(l, m, rank);
    ChangedHasKey(l, m, m[k]);
    RwUnchanged(l, m, m[k]);
    if Rw(l, m, m[k]).changed {
      ValueBelow(l, m, rank, k);
      RwProgress(l, m, rank, m[k]);
    }
    HasKeySame(first, m, m[k]);
  }

  lemma ClosingShrinks(l: Logic, keys: seq<Term>, first: map<Term, Term>, m: map<Term, Term>, rank: map<Term, nat>, names: set<Term>, k: Term)
    requires Simplifies(l) && Closing(l, first, m, rank, names) && Listed(keys, m) && k in m && HasKey(m, m[k])
    ensures var m' := m[k := Rw(l, m, m[k]).term];
            || SumLevel(keys, m', first, rank) < SumLevel(keys, m, first, rank)
            || (SumLevel(keys, m', first, rank) == SumLevel(keys, m, first, rank) && SumSize(keys, m') < SumSize(keys, m))
  {
    hide Rw, Fair, LeavesWithin, HasKey, Simplifies, SumLevel, SumSize, Level;
    var target := Rw(l, m, m[k]).term;
    GoodMoves(l, m, rank);
    ChangedHasKey(l, m, m[k]);
    ValueBelow(l, m, rank, k);
    RwProgress(l, m, rank, m[k]);
    LevelSameKeys(m, first, rank, m[k]);
    LevelSameKeys(m, first, rank, target);
    SumsUpdated(keys, m, first, rank, k, target);
  }

  lemma ClosingStart(l: Logic, m: map<Term, Term>, rank: map<Term, nat>, names: set<Term>)
    requires Good(l, m, rank) && LeavesWithin(m, names)
    ensures Closing(l, m, m, rank, names)
  {
  }

  /** Values are rewritten in turn, by the substitutions as they are then, until a pass changes nothing. */
  method SubstitutionsTransitiveClosure(l: Logic, keys: seq<Term>, substs: map<Term, Term>, ghost rank: map<Term, nat>, ghost names: set<Term>) returns (m: map<Term, Term>)
    requires Simplifies(l) && Good(l, substs, rank) && Listed(keys, substs) && LeavesWithin(substs, names)
    ensures Closing(l, substs, m, rank, names) && IsClosed(m)
  {
    hide Simplifies, Good, LeavesWithin, HasKey, Rw, SumLevel, SumSize, SameModels;
    m := substs;
    ClosingStart(l, m, rank, names);
    var notChanged := seq(|keys|, i => false);
    var changed := true;
    while changed
      invariant Closing(l, substs, m, rank, names) && Listed(keys, m) && Flagged(keys, m, notChanged)
      invariant !changed ==> forall j {:trigger notChanged[j]} :: 0 <= j < |keys| ==> notChanged[j]
      decreases SumLevel(keys, m, substs, rank), SumSize(keys, m), changed
    {
      changed := false;
      ghost var m0 := m;
      for i := 0 to |keys|
        invariant Closing(l, substs, m, rank, names) && Listed(keys, m) && Flagged(keys, m, notChanged)
        invariant !changed ==> forall j {:trigger notChanged[j]} :: 0 <= j < i ==> notChanged[j]
        invariant if changed then Lower(keys, substs, rank, m, m0) else m == m0
      {
        assert keys[i] in keys;
        if notChanged[i] {
          continue;
        }
        var val := m[keys[i]];
        var newVal := Rewrite(l, m, val);
        ClosingStep(l, substs, m, rank, names, keys[i]);
        ghost var m1 := m;
        if val != newVal {
          changed := true;
          ClosingShrinks(l, keys, substs, m, rank, names, keys[i]);
          m := m[keys[i] := newVal];
          OthersKeep(keys, m1, m, i, notChanged);
        } else {
          notChanged := notChanged[i := true];
          assert Flagged(keys, m, notChanged);
        }
      }
    }
    forall k | k in m ensures !HasKey(m, m[k]) {
      assert k in keys;
      var i :| 0 <= i < |keys| && keys[i] == k;
      var x := notChanged[i];
    }
  }

  ghost predicate Lower(keys: seq<Term>, first: map<Term, Term>, rank: map<Term, nat>, m: map<Term, Term>, m0: map<Term, Term>)
    requires Listed(keys, m) && Listed(keys, m0)
  {
    || SumLevel(keys, m, first, rank) < SumLevel(keys, m0, first, rank)
    || (SumLevel(keys, m, first, rank) == SumLevel(keys, m0, first, rank) && SumSize(keys, m) < SumSize(keys, m0))
  }

  /** A value that did not change has no key, and is not looked at again. */
  ghost predicate Flagged(keys: seq<Term>, m: map<Term, Term>, flags: seq<bool>) {
    && |flags| == |keys|
    && forall j {:trigger flags[j]} :: 0 <= j < |keys| && flags[j] ==> keys[j] in m && !HasKey(m, m[keys[j]])
  }

  lemma OthersKeep(keys: seq<Term>, m: map<Term, Term>, m': map<Term, Term>, i: nat, flags: seq<bool>)
    requires Listed(keys, m) && i < |keys| && m'.Keys == m.Keys && Flagged(keys, m, flags) && !flags[i]
    requires forall k {:trigger m'[k]} :: k in m && k != keys[i] ==> m'[k] == m[k]
    ensures Flagged(keys, m', flags)
  {
    hide HasKey;
    forall j {:trigger flags[j]} | 0 <= j < |keys| && flags[j] ensures !HasKey(m', m'[keys[j]]) {
      assert keys[j] != keys[i];
      HasKeySame(m, m', m[keys[j]]);
    }
  }
}
