/** Literals, clauses as sorted literal sequences, and the two array-style algorithms
    the proof graph runs on them: the resolution merge and the binary occurrence search. */
module Clauses {

  type Var = nat

  /** `neg` is the sign bit of a solver literal: true for a negated variable. */
  datatype Lit = Lit(v: Var, neg: bool)

  function Negate(l: Lit): Lit {
    Lit(l.v, !l.neg)
  }

  /** The order of the integer encoding 2 * v + sign. */
  predicate Less(a: Lit, b: Lit) {
    a.v < b.v || (a.v == b.v && !a.neg && b.neg)
  }

  /** Strictly increasing literals: what std::is_sorted gives on a clause without repetitions. */
  predicate SortedLits(c: seq<Lit>) {
    forall i, j :: 0 <= i < j < |c| ==> Less(c[i], c[j])
  }

  /** Strictly increasing variables: the clause has no repetition and no complementary pair. */
  predicate SortedVars(c: seq<Lit>) {
    forall i, j :: 0 <= i < j < |c| ==> c[i].v < c[j].v
  }

  ghost function Lits(c: seq<Lit>): set<Lit> {
    set l | l in c
  }

  ghost predicate NonTaut(c: set<Lit>) {
    forall l :: l in c ==> Negate(l) !in c
  }

  ghost predicate Mentions(c: set<Lit>, p: Var) {
    Lit(p, false) in c || Lit(p, true) in c
  }

  /** The resolvent of two clauses on pivot `p`. */
  ghost function Resolvent(a: set<Lit>, b: set<Lit>, p: Var): set<Lit> {
    set l | l in a + b && l.v != p
  }

  /** What the merge appends for one literal: nothing when it is a pivot literal. */
  function IfNotPivot(l: Lit, p: Var): seq<Lit> {
    if l.v == p then [] else [l]
  }

  /** What the two-index merge still has to append at positions `i` and `j`:
      the pivot is dropped and a literal on both sides is kept once. */
  function MergeFrom(a: seq<Lit>, b: seq<Lit>, i: nat, j: nat, p: Var): seq<Lit>
    requires i <= |a| && j <= |b|
    decreases |a| - i + |b| - j
  {
    if i < |a| && j < |b| then
      if a[i] == b[j] then IfNotPivot(a[i], p) + MergeFrom(a, b, i + 1, j + 1, p)
      else if Less(a[i], b[j]) then IfNotPivot(a[i], p) + MergeFrom(a, b, i + 1, j, p)
      else IfNotPivot(b[j], p) + MergeFrom(a, b, i, j + 1, p)
    else if i < |a| then IfNotPivot(a[i], p) + MergeFrom(a, b, i + 1, j, p)
    else if j < |b| then IfNotPivot(b[j], p) + MergeFrom(a, b, i, j + 1, p)
    else []
  }

  function Merge(a: seq<Lit>, b: seq<Lit>, p: Var): seq<Lit> {
    MergeFrom(a, b, 0, 0, p)
  }

  /** Every literal of `c` comes after `x`. */
  ghost predicate Before(x: Lit, c: set<Lit>) {
    forall l :: l in c ==> Less(x, l)
  }

  lemma SortedSplit(c: seq<Lit>)
    requires SortedLits(c) && c != []
    ensures SortedLits(c[1..]) && Before(c[0], Lits(c[1..]))
    ensures Lits(c) == {c[0]} + Lits(c[1..])
  {
    assert c == [c[0]] + c[1..];
  }

  lemma PrependUnlessPivot(x: Lit, c: seq<Lit>, p: Var)
    requires SortedLits(c) && Before(x, Lits(c))
    ensures SortedLits(IfNotPivot(x, p) + c)
    ensures Lits(IfNotPivot(x, p) + c) == (if x.v == p then {} else {x}) + Lits(c)
  {
    assert forall l :: l in c ==> l in Lits(c);
  }

  lemma {:induction false} MergeFromLits(a: seq<Lit>, b: seq<Lit>, i: nat, j: nat, p: Var)
    requires SortedLits(a) && SortedLits(b) && i <= |a| && j <= |b|
    ensures SortedLits(MergeFrom(a, b, i, j, p))
    ensures Lits(MergeFrom(a, b, i, j, p)) == Resolvent(Lits(a[i..]), Lits(b[j..]), p)
    decreases |a| - i + |b| - j
  {
    if i < |a| || j < |b| {
      var takeA := i < |a| && (j == |b| || a[i] == b[j] || Less(a[i], b[j]));
      var takeB := j < |b| && (i == |a| || a[i] == b[j] || !Less(a[i], b[j]));
      if i < |a| { SortedSplit(a[i..]); assert a[i..][1..] == a[i + 1..]; }
      if j < |b| { SortedSplit(b[j..]); assert b[j..][1..] == b[j + 1..]; }
      var i' := if takeA then i + 1 else i;
      var j' := if takeB then j + 1 else j;
      MergeFromLits(a, b, i', j', p);
      PrependUnlessPivot(if takeA then a[i] else b[j], MergeFrom(a, b, i', j', p), p);
    }
  }

  /** The merge of two sorted clauses is sorted and is exactly their resolvent. */
  lemma MergeIsResolvent(a: seq<Lit>, b: seq<Lit>, p: Var)
    requires SortedLits(a) && SortedLits(b)
    ensures SortedLits(Merge(a, b, p))
    ensures Lits(Merge(a, b, p)) == Resolvent(Lits(a), Lits(b), p)
  {
    MergeFromLits(a, b, 0, 0, p);
    assert a[0..] == a && b[0..] == b;
  }

  lemma HeadLit(c: seq<Lit>)
    ensures c == [] || c[0] in Lits(c)
  {
  }

  lemma SortedVarsFacts(c: seq<Lit>)
    requires SortedVars(c)
    ensures SortedLits(c) && NonTaut(Lits(c))
  {
  }

  /** A sorted clause without complementary pair is strictly sorted by variable. */
  lemma SortedNonTaut(c: seq<Lit>)
    requires SortedLits(c) && NonTaut(Lits(c))
    ensures SortedVars(c)
  {
    forall i, j | 0 <= i < j < |c| ensures c[i].v < c[j].v {
      assert c[i] in Lits(c) && Negate(c[i]) !in Lits(c);
      assert Less(c[i], c[j]) && c[j] in Lits(c);
    }
  }

  /** Sorted clauses with the same literals are the same sequence. */
  lemma {:induction false} SortedUnique(a: seq<Lit>, b: seq<Lit>)
    requires SortedLits(a) && SortedLits(b) && Lits(a) == Lits(b)
    ensures a == b
  {
    assert a != [] ==> a[0] in Lits(a);
    assert b != [] ==> b[0] in Lits(b);
    if a != [] && b != [] {
      SortedSplit(a);
      SortedSplit(b);
      assert a[0] in Lits(b) && b[0] in Lits(a);
      assert a[0] == b[0];
      assert a[0] !in Lits(a[1..]) && a[0] !in Lits(b[1..]);
      assert Lits(a[1..]) == Lits(a) - {a[0]} == Lits(b[1..]);
      SortedUnique(a[1..], b[1..]);
      assert a == [a[0]] + a[1..] && b == [b[0]] + b[1..];
    }
  }

  lemma Concatenation(x: seq<Lit>, y: seq<Lit>, z: seq<Lit>)
    ensures (x + y) + z == x + (y + z)
  {
  }

  /** Two-index merge of sorted clauses; the literals are written to `resolv` from the left. */
  method MergeClauses(a: seq<Lit>, b: seq<Lit>, pivot: Var) returns (resolv: seq<Lit>)
    requires SortedLits(a) && SortedLits(b)
    requires Mentions(Lits(a), pivot) && Mentions(Lits(b), pivot)
    ensures resolv == Merge(a, b, pivot)
    ensures SortedLits(resolv) && Lits(resolv) == Resolvent(Lits(a), Lits(b), pivot)
  {
    var i, j := 0, 0;
    resolv := [];
    while i < |a| && j < |b|
      invariant 0 <= i <= |a| && 0 <= j <= |b|
      invariant resolv + MergeFrom(a, b, i, j, pivot) == Merge(a, b, pivot)
      decreases |a| - i + |b| - j
    {
      if a[i] == b[j] || Less(a[i], b[j]) {
        var l := a[i];
        if a[i] == b[j] {
          j := j + 1;
        }
        i := i + 1;
        Concatenation(resolv, IfNotPivot(l, pivot), MergeFrom(a, b, i, j, pivot));
        resolv := resolv + IfNotPivot(l, pivot);
      } else {
        Concatenation(resolv, IfNotPivot(b[j], pivot), MergeFrom(a, b, i, j + 1, pivot));
        resolv := resolv + IfNotPivot(b[j], pivot);
        j := j + 1;
      }
    }
    while i < |a|
      invariant 0 <= i <= |a| && 0 <= j <= |b| && (i == |a| || j == |b|)
      invariant resolv + MergeFrom(a, b, i, j, pivot) == Merge(a, b, pivot)
    {
      Concatenation(resolv, IfNotPivot(a[i], pivot), MergeFrom(a, b, i + 1, j, pivot));
      resolv := resolv + IfNotPivot(a[i], pivot);
      i := i + 1;
    }
    while j < |b|
      invariant i == |a| && 0 <= j <= |b|
      invariant resolv + MergeFrom(a, b, i, j, pivot) == Merge(a, b, pivot)
    {
      Concatenation(resolv, IfNotPivot(b[j], pivot), MergeFrom(a, b, i, j + 1, pivot));
      resolv := resolv + IfNotPivot(b[j], pivot);
      j := j + 1;
    }
    MergeIsResolvent(a, b, pivot);
  }

  datatype Occurrence = Positive | Negative | Absent

  /** Binary search by variable: the polarity of `v` in a clause sorted by variable. */
  method HasOccurrenceBin(c: seq<Lit>, v: Var) returns (r: Occurrence)
    requires SortedVars(c)
    ensures r == Positive <==> Lit(v, false) in Lits(c)
    ensures r == Negative <==> Lit(v, true) in Lits(c)
  {
    var first, last := 0, |c| - 1;
    while first <= last
      invariant 0 <= first <= last + 1 <= |c|
      invariant forall k :: 0 <= k < first ==> c[k].v < v
      invariant forall k :: last < k < |c| ==> v < c[k].v
    {
      var mid := (first + last) / 2;
      if c[mid].v < v {
        first := mid + 1;
      } else if v < c[mid].v {
        last := mid - 1;
      } else {
        r := if c[mid].neg then Negative else Positive;
        assert c[mid] == Lit(v, c[mid].neg);
        return;
      }
    }
    return Absent;
  }
}
