/** Building linear integer terms, inequalities and equalities in normal form. Coefficients are integers, as
    they are in terms of integer sort; sums with rational coefficients are not covered. */
module ArithLogics {
  import opened LinearForms

  /** What a summand multiplies: nothing, for the constant, or a variable. */
  datatype Base = Unit | Of(v: Var)

  datatype Summand = Summand(base: Base, c: int)

  ghost function BaseValue(b: Base, x: Point): int {
    match b
    case Unit => 1
    case Of(v) => x(v)
  }

  ghost function Value(t: seq<Summand>, x: Point): int {
    if t == [] then 0 else t[0].c * BaseValue(t[0].base, x) + Value(t[1..], x)
  }

  /** A sum as it is stored: like terms collected, none zero. */
  ghost predicate Collected(t: seq<Summand>) {
    && (forall i, j :: 0 <= i < j < |t| ==> t[i].base != t[j].base)
    && forall i :: 0 <= i < |t| ==> t[i].c != 0
  }

  lemma {:induction false} ValueJoin(a: seq<Summand>, b: seq<Summand>, x: Point)
    ensures Value(a + b, x) == Value(a, x) + Value(b, x)
  {
    if a == [] {
      assert a + b == b;
    } else {
      assert (a + b)[0] == a[0] && (a + b)[1..] == a[1..] + b;
      ValueJoin(a[1..], b, x);
    }
  }

  lemma ValueSnoc(a: seq<Summand>, s: Summand, x: Point)
    ensures Value(a + [s], x) == Value(a, x) + s.c * BaseValue(s.base, x)
  {
    ValueJoin(a, [s], x);
    assert [s][1..] == [];
  }

  lemma SumTimes(a: int, b: int, n: int)
    ensures (a + b) * n == a * n + b * n
  {
  }

  lemma ValueAdded(a: seq<Summand>, i: nat, c: int, x: Point)
    requires i < |a|
    ensures Value(a[i := Summand(a[i].base, a[i].c + c)], x) == Value(a, x) + c * BaseValue(a[i].base, x)
  {
    hide Value;
    var s := Summand(a[i].base, a[i].c + c);
    assert a == a[..i] + [a[i]] + a[i + 1..] && a[i := s] == a[..i] + [s] + a[i + 1..];
    ValueJoin(a[..i] + [a[i]], a[i + 1..], x);
    ValueJoin(a[..i] + [s], a[i + 1..], x);
    ValueSnoc(a[..i], a[i], x);
    ValueSnoc(a[..i], s, x);
    SumTimes(a[i].c, c, BaseValue(a[i].base, x));
  }

  ghost function SumOf(ts: seq<seq<Summand>>, x: Point): int {
    if ts == [] then 0 else SumOf(ts[..|ts| - 1], x) + Value(ts[|ts| - 1], x)
  }

  // ---------------------------------------------------------------------------
  // Sums

  /** Where the summand of each base is. */
  ghost predicate Indexed(t: seq<Summand>, index: map<Base, nat>) {
    && (forall i {:trigger t[i]} :: 0 <= i < |t| ==> t[i].base in index && index[t[i].base] == i)
    && forall b {:trigger index[b]} {:trigger b in index} :: b in index ==> index[b] < |t| && t[index[b]].base == b
  }

  ghost predicate SameValues(a: seq<Summand>, b: seq<Summand>) {
    forall x: Point {:trigger Value(a, x)} {:trigger Value(b, x)} :: Value(a, x) == Value(b, x)
  }

  /** One summand joins those collected before. */
  lemma CollectOne(t: seq<Summand>, all: seq<Summand>, i: nat, t': seq<Summand>, at: nat)
    requires i < |all| && SameValues(t, all[..i])
    requires if at < |t| then t[at].base == all[i].base && t' == t[at := Summand(t[at].base, t[at].c + all[i].c)] else t' == t + [all[i]]
    ensures SameValues(t', all[..i + 1])
  {
    assert all[..i + 1] == all[..i] + [all[i]];
    forall x: Point ensures Value(t', x) == Value(all[..i + 1], x) {
      assert Value(t, x) == Value(all[..i], x);
      ValueSnoc(all[..i], all[i], x);
      if at < |t| { ValueAdded(t, at, all[i].c, x); } else { ValueSnoc(t, all[i], x); }
    }
  }

  /** Flattens the arguments, adds up the coefficients of each variable and of the constant, and drops
      what became zero. */
  method MkPlus(args: seq<seq<Summand>>) returns (res: seq<Summand>)
    ensures Collected(res) && forall x: Point {:trigger Value(res, x)} :: Value(res, x) == SumOf(args, x)
  {
    hide Value;
    var flattened := Flatten(args);
    var simplified: seq<Summand> := [];
    var varIndices: map<Base, nat> := map[];
    assert flattened[..0] == [];
    for i := 0 to |flattened|
      invariant Indexed(simplified, varIndices) && SameValues(simplified, flattened[..i])
    {
      var s := flattened[i];
      ghost var before := simplified;
      if s.base !in varIndices {
        varIndices := varIndices[s.base := |simplified|];
        simplified := simplified + [s];
        CollectOne(before, flattened, i, simplified, |before|);
      } else {
        var at := varIndices[s.base];
        simplified := simplified[at := Summand(s.base, simplified[at].c + s.c)];
        CollectOne(before, flattened, i, simplified, at);
      }
    }
    assert flattened[..|flattened|] == flattened;
    res := DropZeros(simplified, varIndices);
  }

  method Flatten(args: seq<seq<Summand>>) returns (flattened: seq<Summand>)
    ensures forall x: Point {:trigger Value(flattened, x)} :: Value(flattened, x) == SumOf(args, x)
  {
    flattened := [];
    for i := 0 to |args|
      invariant forall x: Point {:trigger Value(flattened, x)} :: Value(flattened, x) == SumOf(args[..i], x)
    {
      forall x: Point ensures Value(flattened + args[i], x) == SumOf(args[..i + 1], x) {
        ValueJoin(flattened, args[i], x);
        assert args[..i + 1][..i] == args[..i];
      }
      flattened := flattened + args[i];
    }
    assert args[..|args|] == args;
  }

  method DropZeros(t: seq<Summand>, ghost index: map<Base, nat>) returns (res: seq<Summand>)
    requires Indexed(t, index)
    ensures Collected(res) && SameValues(res, t)
  {
    res := [];
    assert t[..0] == [];
    for i := 0 to |t|
      invariant SameValues(res, t[..i])
      invariant Collected(res) && forall k {:trigger res[k]} :: 0 <= k < |res| ==> res[k].base in index && index[res[k].base] < i
    {
      assert t[..i + 1] == t[..i] + [t[i]];
      ghost var more := if t[i].c == 0 then res else res + [t[i]];
      forall x: Point ensures Value(more, x) == Value(t[..i + 1], x) {
        assert Value(res, x) == Value(t[..i], x);
        ValueSnoc(t[..i], t[i], x);
        ValueSnoc(res, t[i], x);
      }
      if t[i].c != 0 {
        res := res + [t[i]];
      }
    }
    assert t[..|t|] == t;
  }

  /** The negation of a sum negates every summand. */
  method MkNeg(t: seq<Summand>) returns (res: seq<Summand>)
    ensures (Collected(t) ==> Collected(res)) && forall x: Point {:trigger Value(res, x)} :: Value(res, x) == -Value(t, x)
  {
    res := [];
    assert t[..0] == [];
    for i := 0 to |t|
      invariant |res| == i && forall k {:trigger res[k]} :: 0 <= k < i ==> res[k] == Summand(t[k].base, -t[k].c)
      invariant forall x: Point {:trigger Value(res, x)} :: Value(res, x) == -Value(t[..i], x)
    {
      var s := Summand(t[i].base, -t[i].c);
      assert t[..i + 1] == t[..i] + [t[i]];
      forall x: Point ensures Value(res + [s], x) == -Value(t[..i + 1], x) {
        ValueSnoc(t[..i], t[i], x);
        ValueSnoc(res, s, x);
        NegatedProduct(t[i].c, BaseValue(t[i].base, x));
      }
      res := res + [s];
    }
    assert t[..|t|] == t;
  }

  // ---------------------------------------------------------------------------
  // The constant and the factors of a sum

  lemma {:induction false} DotJoin(a: seq<Factor>, b: seq<Factor>, x: Point)
    ensures Dot(a + b, x) == Dot(a, x) + Dot(b, x)
  {
    if a == [] {
      assert a + b == b;
    } else {
      assert (a + b)[0] == a[0] && (a + b)[1..] == a[1..] + b;
      DotJoin(a[1..], b, x);
    }
  }

  /** Puts a factor in its place. */
  method Insert(fs: seq<Factor>, f: Factor) returns (res: seq<Factor>)
    requires Normalized(fs) && f.c != 0 && forall i :: 0 <= i < |fs| ==> fs[i].v != f.v
    ensures Normalized(res) && |res| == |fs| + 1 && forall x: Point {:trigger Dot(res, x)} :: Dot(res, x) == Dot(fs, x) + f.c * x(f.v)
    ensures forall g {:trigger g in res} :: g in res <==> g in fs || g == f
  {
    hide Dot;
    var at := 0;
    while at < |fs| && fs[at].v < f.v
      invariant 0 <= at <= |fs| && forall i :: 0 <= i < at ==> fs[i].v < f.v
    {
      at := at + 1;
    }
    res := fs[..at] + [f] + fs[at..];
    assert fs == fs[..at] + fs[at..];
    forall x: Point ensures Dot(res, x) == Dot(fs, x) + f.c * x(f.v) {
      InsertedDot(fs, at, f, x);
    }
  }

  lemma InsertedDot(fs: seq<Factor>, at: nat, f: Factor, x: Point)
    requires at <= |fs|
    ensures Dot(fs[..at] + [f] + fs[at..], x) == Dot(fs, x) + f.c * x(f.v)
  {
    assert fs == fs[..at] + fs[at..];
    DotJoin(fs[..at] + [f], fs[at..], x);
    DotJoin(fs[..at], [f], x);
    DotJoin(fs[..at], fs[at..], x);
    assert [f][1..] == [] && Dot([f][1..], x) == 0;
  }

  lemma NothingYet(t: seq<Summand>)
    ensures forall x: Point {:trigger Value(t[..0], x)} {:trigger Dot([], x)} :: Value(t[..0], x) == 0 == Dot([], x)
  {
  }

  /** Separates the constant and sorts the factors by their variables. */
  method GetConstantAndFactors(t: seq<Summand>) returns (k: int, fs: seq<Factor>)
    requires Collected(t)
    ensures Normalized(fs) && forall x: Point {:trigger Value(t, x)} {:trigger Dot(fs, x)} :: Value(t, x) == k + Dot(fs, x)
    ensures fs == [] <==> forall i {:trigger t[i]} :: 0 <= i < |t| ==> t[i].base.Unit?
  {
    hide Dot, Value;
    k, fs := 0, [];
    NothingYet(t);
    for i := 0 to |t|
      invariant Normalized(fs) && forall x: Point {:trigger Value(t[..i], x)} {:trigger Dot(fs, x)} :: Value(t[..i], x) == k + Dot(fs, x)
      invariant forall f {:trigger f in fs} :: f in fs ==> exists j {:trigger t[j]} :: 0 <= j < i && t[j].base == Of(f.v)
      invariant fs == [] <==> forall j {:trigger t[j]} :: 0 <= j < i ==> t[j].base.Unit?
      invariant k != 0 ==> exists j {:trigger t[j]} :: 0 <= j < i && t[j].base.Unit?
    {
      assert t[..i + 1] == t[..i] + [t[i]];
      ghost var k0, fs0 := k, fs;
      match t[i].base {
        case Unit =>
          assert k == 0;
          k := t[i].c;
        case Of(v) =>
          forall a | 0 <= a < |fs| ensures fs[a].v != v {
            assert fs[a] in fs;
          }
          fs := Insert(fs, Factor(v, t[i].c));
      }
      forall x: Point ensures Value(t[..i + 1], x) == k + Dot(fs, x) {
        assert Value(t[..i], x) == k0 + Dot(fs0, x);
        ValueSnoc(t[..i], t[i], x);
        assert BaseValue(t[i].base, x) == if t[i].base.Unit? then 1 else x(t[i].base.v);
        assert t[i].base.Of? ==> Dot(fs, x) == Dot(fs0, x) + t[i].c * x(t[i].base.v);
      }
    }
    assert t[..|t|] == t;
  }

  // ---------------------------------------------------------------------------
  // Dividing by the greatest common divisor

  /** Another coefficient joins a combination of the coefficients before. */
  lemma GcdJoins(fs: seq<Factor>, i: nat, u: int, w: int, x: Point) returns (y: Point)
    requires Normalized(fs) && i < |fs|
    ensures Dot(fs, y) == u * Dot(fs, x) + w * fs[i].c
  {
    hide Dot, Coeff;
    var v := fs[i].v;
    var unit := Pair(v, 1, v + 1, 0);
    CoeffOfDot(fs, v);
    CoeffAt(fs, i);
    y := Along(Along(Zero(), u, x), w, unit);
    DotScaled(fs, u, x);
    DotAlong(fs, Along(Zero(), u, x), w, unit);
  }

  lemma SignedProduct(w: int, n: int)
    ensures w * (if n < 0 then -1 else 1) * n == w * Abs(n)
  {
  }

  lemma {:induction false} CoeffAt(fs: seq<Factor>, i: nat)
    requires Normalized(fs) && i < |fs|
    ensures Coeff(fs, fs[i].v) == fs[i].c
  {
    if i > 0 {
      NormalizedTail(fs);
      CoeffAt(fs[1..], i - 1);
      assert fs[1..][i - 1] == fs[i];
    }
  }

  lemma DividesMore(g: nat, h: nat, n: int)
    requires Divides(g, n) && Divides(h, g)
    ensures Divides(h, n)
  {
    var k :| n == Times(g, k);
    var m :| g == Times(h, m);
    assert n == Times(h, m * k);
  }

  lemma GcdDivides(g: nat, n: int)
    ensures var r := ExtGcd(g, Abs(n)); Divides(r.g, g) && Divides(r.g, n) && (n != 0 || g > 0 ==> r.g > 0)
  {
    var r := ExtGcd(g, Abs(n));
    assert g == Times(r.g, r.p) && Abs(n) == r.g * r.q;
    assert n == Times(r.g, if n < 0 then -r.q else r.q);
    assert r.g == 0 ==> g == 0 && n == 0;
  }

  /** The gcd of the coefficients; the search ends at 1. */
  method CoeffsGcd(fs: seq<Factor>) returns (g: nat)
    requires Normalized(fs) && fs != []
    ensures IsGcd(g, fs)
  {
    hide Dot, Coeff, ExtGcd, Divides;
    g := Abs(fs[0].c);
    ghost var x := GcdStart(fs);
    var i := 1;
    while i < |fs| && g != 1
      invariant 1 <= i <= |fs| && g > 0 && Dot(fs, x) == g
      invariant forall j {:trigger fs[j]} :: 0 <= j < i ==> Divides(g, fs[j].c)
    {
      ghost var g0, r := g, ExtGcd(g, Abs(fs[i].c));
      x := GcdJoins(fs, i, r.u, r.w * (if fs[i].c < 0 then -1 else 1), x);
      SignedProduct(r.w, fs[i].c);
      GcdDivides(g, fs[i].c);
      g := ExtGcd(g, Abs(fs[i].c)).g;
      forall j {:trigger fs[j]} | 0 <= j < i ensures Divides(g, fs[j].c) {
        DividesMore(g0, g, fs[j].c);
      }
      i := i + 1;
    }
    forall j {:trigger fs[j]} | 0 <= j < |fs| ensures Divides(g, fs[j].c) {
      if g == 1 { OneDivides(fs[j].c); }
    }
  }

  lemma GcdStart(fs: seq<Factor>) returns (x: Point)
    requires Normalized(fs) && fs != []
    ensures Dot(fs, x) == Abs(fs[0].c) && Divides(Abs(fs[0].c), fs[0].c)
  {
    var v, sign := fs[0].v, if fs[0].c < 0 then -1 else 1;
    x := Pair(v, sign, v + 1, 0);
    DotPair(fs, v, sign, v + 1, 0);
    assert fs[0].c == Times(Abs(fs[0].c), sign);
  }

  lemma OneDivides(n: int)
    ensures Divides(1, n)
  {
    assert n == Times(1, n);
  }

  /** `fs` is `g` times `fs'`. */
  ghost predicate IsMultiple(g: int, fs: seq<Factor>, fs': seq<Factor>) {
    |fs'| == |fs| && forall i {:trigger fs[i]} {:trigger fs'[i]} :: 0 <= i < |fs| ==> fs[i] == Factor(fs'[i].v, g * fs'[i].c)
  }

  lemma {:induction false} MultipleDot(g: int, fs: seq<Factor>, fs': seq<Factor>, x: Point)
    requires IsMultiple(g, fs, fs')
    ensures Dot(fs, x) == g * Dot(fs', x)
  {
    if fs != [] {
      MultipleDot(g, fs[1..], fs'[1..], x);
      var y, c := x(fs[0].v), fs'[0].c;
      assert fs[0] == Factor(fs'[0].v, g * c);
      assert (g * c) * y == g * (c * y) && g * (c * y + Dot(fs'[1..], x)) == g * (c * y) + g * Dot(fs'[1..], x);
    }
  }

  /** Divided by their gcd, the coefficients have no common divisor left. */
  lemma DividedIsCoprime(g: nat, fs: seq<Factor>, fs': seq<Factor>)
    requires Normalized(fs) && IsGcd(g, fs) && IsMultiple(g, fs, fs')
    ensures Normalized(fs') && IsGcd(1, fs')
  {
    forall i {:trigger fs'[i]} | 0 <= i < |fs'| ensures fs'[i].c != 0 && Divides(1, fs'[i].c) {
      var c := fs'[i].c;
      assert fs[i] == Factor(fs'[i].v, g * c);
      assert c == 0 ==> g * c == 0;
      OneDivides(c);
    }
    forall i, j | 0 <= i < j < |fs'| ensures fs'[i].v < fs'[j].v {
      assert fs[i].v < fs[j].v;
    }
    var x :| Dot(fs, x) == g;
    MultipleDot(g, fs, fs', x);
    UnitQuotient(g, Dot(fs', x));
  }

  lemma UnitQuotient(g: nat, n: int)
    requires g > 0 && g == g * n
    ensures n == 1
  {
    assert g * (n - 1) == 0;
  }

  /** The constant, moved to the other side, as a fraction with the gcd as denominator, and the factors
      divided by the gcd. */
  method SumToNormalizedIntPair(k: int, fs: seq<Factor>) returns (num: int, den: nat, fs': seq<Factor>)
    requires Normalized(fs) && fs != []
    ensures num == -k && IsGcd(den, fs) && IsMultiple(den, fs, fs') && Normalized(fs') && IsGcd(1, fs')
  {
    hide Dot, IsGcd;
    den := CoeffsGcd(fs);
    GcdPositive(den, fs);
    fs' := [];
    for i := 0 to |fs|
      invariant |fs'| == i && forall j {:trigger fs[j]} {:trigger fs'[j]} :: 0 <= j < i ==> fs[j] == Factor(fs'[j].v, den * fs'[j].c)
    {
      ExactQuotient(den, fs[i].c);
      fs' := fs' + [Factor(fs[i].v, fs[i].c / den)];
    }
    DividedIsCoprime(den, fs, fs');
    num := -k;
  }

  lemma GcdPositive(g: nat, fs: seq<Factor>)
    requires IsGcd(g, fs)
    ensures g > 0 && forall i {:trigger fs[i]} :: 0 <= i < |fs| ==> Divides(g, fs[i].c)
  {
  }

  lemma SmallMultiple(g: nat, m: int, r: nat)
    requires g * m == r && r < g
    ensures m == 0
  {
    if m > 0 {
      ProductGrows(g, m);
    } else if m < 0 {
      ProductGrows(g, -m);
      NegatedProduct(m, g);
    }
  }

  lemma ExactQuotient(g: nat, n: int)
    requires g > 0 && Divides(g, n)
    ensures n == g * (n / g) && n % g == 0
  {
    var k :| n == Times(g, k);
    var q, r := n / g, n % g;
    assert n == g * q + r;
    assert g * (k - q) == g * k - g * q;
    SmallMultiple(g, k - q, r);
  }

  // ---------------------------------------------------------------------------
  // Normal forms

  datatype Atom = Truth(b: bool) | Leq(lo: int, fs: seq<Factor>) | Equal(n: int, fs: seq<Factor>)

  ghost predicate Holds(a: Atom, x: Point) {
    match a
    case Truth(b) => b
    case Leq(lo, fs) => lo <= Dot(fs, x)
    case Equal(n, fs) => n == Dot(fs, x)
  }

  /** Sorted factors without a common divisor; an equality has a positive leading factor. */
  ghost predicate Canonical(a: Atom) {
    match a
    case Truth(_) => true
    case Leq(_, fs) => fs != [] && Normalized(fs) && IsGcd(1, fs)
    case Equal(_, fs) => fs != [] && Normalized(fs) && IsGcd(1, fs) && fs[0].c > 0
  }

  ghost predicate SameSolutions(a: Atom, b: Atom) {
    forall x: Point {:trigger Holds(a, x)} {:trigger Holds(b, x)} :: Holds(a, x) <==> Holds(b, x)
  }

  /** A canonical inequality or equality holds at some points and not at others. */
  lemma NotConstant(a: Atom, b: bool)
    requires Canonical(a) && !a.Truth?
    ensures !SameSolutions(a, Truth(b)) && !SameSolutions(Truth(b), a)
  {
    var n := if a.Leq? then a.lo else a.n;
    var x := TakesEveryValue(a.fs, n);
    var y := TakesEveryValue(a.fs, n - 1);
    assert Holds(a, x) && !Holds(a, y);
    assert Holds(Truth(b), x) == Holds(Truth(b), y);
  }

  /** Inequalities with the same integer solutions have the same normal form. */
  lemma LeqIsCanonical(a: Atom, b: Atom)
    requires Canonical(a) && Canonical(b) && !a.Equal? && !b.Equal? && SameSolutions(a, b)
    ensures a == b
  {
    if a.Leq? && b.Leq? {
      forall x: Point {:trigger Dot(a.fs, x)} {:trigger Dot(b.fs, x)} ensures a.lo <= Dot(a.fs, x) <==> b.lo <= Dot(b.fs, x) {
        assert Holds(a, x) <==> Holds(b, x);
      }
      HalfSpaceUnique(a.lo, a.fs, b.lo, b.fs);
    } else if a.Leq? {
      NotConstant(a, b.b);
    } else if b.Leq? {
      NotConstant(b, a.b);
    } else {
      assert Holds(a, Zero()) <==> Holds(b, Zero());
    }
  }

  /** Equalities with the same integer solutions have the same normal form. */
  lemma EqualIsCanonical(a: Atom, b: Atom)
    requires Canonical(a) && Canonical(b) && !a.Leq? && !b.Leq? && SameSolutions(a, b)
    ensures a == b
  {
    if a.Equal? && b.Equal? {
      forall x: Point {:trigger Dot(a.fs, x)} {:trigger Dot(b.fs, x)} ensures a.n == Dot(a.fs, x) <==> b.n == Dot(b.fs, x) {
        assert Holds(a, x) <==> Holds(b, x);
      }
      PlaneUnique(a.n, a.fs, b.n, b.fs);
    } else if a.Equal? {
      NotConstant(a, b.b);
    } else if b.Equal? {
      NotConstant(b, a.b);
    } else {
      assert Holds(a, Zero()) <==> Holds(b, Zero());
    }
  }

  /** An integer is at least a fraction if it is at least the fraction rounded up. */
  lemma CeilBound(k: int, g: nat, n: int)
    requires g > 0
    ensures 0 <= k + g * n <==> -(k / g) <= n
  {
    var q, r := k / g, k % g;
    assert k + g * n == g * (q + n) + r;
    if q + n < 0 {
      ProductGrows(g, -(q + n));
      NegatedProduct(q + n, g);
    }
  }

  /** `0 <= k + fs`, with the bound rounded up. */
  method SumToNormalizedInequality(k: int, fs: seq<Factor>) returns (a: Atom)
    requires Normalized(fs) && fs != []
    ensures Canonical(a) && a.Leq? && forall x: Point {:trigger Holds(a, x)} :: Holds(a, x) <==> 0 <= k + Dot(fs, x)
  {
    hide Dot, Normalized;
    var num, den, fs' := SumToNormalizedIntPair(k, fs);
    GcdPositive(den, fs);
    a := Leq(-((-num) / den), fs');
    forall x: Point ensures Holds(a, x) <==> 0 <= k + Dot(fs, x) {
      MultipleDot(den, fs, fs', x);
      CeilBound(k, den, Dot(fs', x));
    }
  }

  /** `0 == k + fs`; false if the constant is no multiple of the gcd. */
  method SumToNormalizedEquality(k: int, fs: seq<Factor>) returns (a: Atom)
    requires Normalized(fs) && fs != []
    ensures Canonical(a) && !a.Leq? && forall x: Point {:trigger Holds(a, x)} :: Holds(a, x) <==> 0 == k + Dot(fs, x)
  {
    hide Dot;
    var num, den, rhs := SumToNormalizedIntPair(k, fs);
    GcdPositive(den, fs);
    forall x: Point {:trigger Dot(fs, x)} ensures Dot(fs, x) == den * Dot(rhs, x) {
      MultipleDot(den, fs, rhs, x);
    }
    if num % den != 0 {
      forall x: Point ensures 0 != k + Dot(fs, x) {
        NotAMultiple(num, den, Dot(rhs, x));
      }
      return Truth(false);
    }
    var lhs := num / den;
    forall x: Point {:trigger Dot(rhs, x)} ensures 0 == k + Dot(fs, x) <==> lhs == Dot(rhs, x) {
      SameMultiple(den, lhs, Dot(rhs, x));
    }
    if rhs[0].c < 0 {
      var neg := Opposite(rhs);
      a := Equal(-lhs, neg);
      forall x: Point ensures Holds(a, x) <==> 0 == k + Dot(fs, x) {
        assert Dot(neg, x) == -Dot(rhs, x);
      }
    } else {
      a := Equal(lhs, rhs);
      forall x: Point ensures Holds(a, x) <==> 0 == k + Dot(fs, x) {
        assert lhs == Dot(rhs, x) <==> 0 == k + Dot(fs, x);
      }
    }
  }

  lemma NotAMultiple(n: int, g: nat, m: int)
    requires g > 0 && n % g != 0
    ensures n != g * m
  {
    assert n == Times(g, m) ==> Divides(g, n);
    if Divides(g, n) { ExactQuotient(g, n); }
  }

  lemma SameMultiple(g: nat, a: int, b: int)
    requires g > 0
    ensures g * a == g * b <==> a == b
  {
    assert g * a - g * b == g * (a - b);
  }

  /** The opposite sum. */
  method Opposite(fs: seq<Factor>) returns (res: seq<Factor>)
    requires Normalized(fs) && IsGcd(1, fs)
    ensures Normalized(res) && IsGcd(1, res) && |res| == |fs| && forall x: Point {:trigger Dot(res, x)} :: Dot(res, x) == -Dot(fs, x)
    ensures fs != [] ==> res[0].c == -fs[0].c
  {
    hide Dot;
    res := [];
    for i := 0 to |fs|
      invariant |res| == i && forall j {:trigger fs[j]} {:trigger res[j]} :: 0 <= j < i ==> res[j] == Factor(fs[j].v, -fs[j].c)
    {
      res := res + [Factor(fs[i].v, -fs[i].c)];
    }
    assert IsMultiple(-1, fs, res);
    forall x: Point ensures Dot(res, x) == -Dot(fs, x) {
      MultipleDot(-1, fs, res, x);
    }
    ghost var y: Point :| Dot(fs, y) == 1;
    DotScaled(fs, -1, y);
    assert Dot(res, Along(Zero(), -1, y)) == 1;
    forall i {:trigger res[i]} | 0 <= i < |res| ensures Divides(1, res[i].c) { OneDivides(res[i].c); }
  }

  // ---------------------------------------------------------------------------
  // Inequalities and equalities between terms

  predicate IsConstant(t: seq<Summand>) {
    forall i {:trigger t[i]} :: 0 <= i < |t| ==> t[i].base.Unit?
  }

  function ConstantOf(t: seq<Summand>): int {
    if t == [] then 0 else t[0].c
  }

  lemma TwoBases(t: seq<Summand>)
    requires Collected(t) && |t| > 1
    ensures !IsConstant(t)
  {
    assert t[0].base != t[1].base;
  }

  lemma ConstantValue(t: seq<Summand>, x: Point)
    requires Collected(t) && IsConstant(t)
    ensures Value(t, x) == ConstantOf(t)
  {
    if t != [] {
      assert t[0].base.Unit?;
      if |t| > 1 { TwoBases(t); }
      assert t[1..] == [];
    }
  }

  /** The difference `rhs - lhs`, without adding a zero. */
  method Difference(lhs: seq<Summand>, rhs: seq<Summand>) returns (diff: seq<Summand>)
    requires Collected(lhs) && Collected(rhs)
    ensures Collected(diff) && forall x: Point {:trigger Value(diff, x)} :: Value(diff, x) == Value(rhs, x) - Value(lhs, x)
  {
    if lhs == [] {
      diff := rhs;
    } else if rhs == [] {
      diff := MkNeg(lhs);
    } else {
      var neg := MkNeg(lhs);
      diff := MkPlus([rhs, neg]);
      forall x: Point ensures SumOf([rhs, neg], x) == Value(rhs, x) + Value(neg, x) {
        assert [rhs, neg][..1] == [rhs] && [rhs][..0] == [];
        assert SumOf([], x) == 0 && SumOf([rhs], x) == SumOf([], x) + Value(rhs, x);
      }
    }
  }

  /** Whether a sum is one summand that is no constant. */
  predicate IsSingle(t: seq<Summand>) {
    |t| == 1 && t[0].base.Of?
  }

  lemma SingleValue(t: seq<Summand>, x: Point)
    requires IsSingle(t)
    ensures Value(t, x) == t[0].c * x(t[0].base.v)
  {
    assert t[1..] == [];
  }

  lemma SingleFactor(v: Var, c: int)
    requires c == 1 || c == -1
    ensures Normalized([Factor(v, c)]) && IsGcd(1, [Factor(v, c)]) && forall x: Point {:trigger Dot([Factor(v, c)], x)} :: Dot([Factor(v, c)], x) == c * x(v)
  {
    var fs := [Factor(v, c)];
    assert fs[1..] == [];
    OneDivides(c);
    assert Dot(fs, Pair(v, c, v + 1, 0)) == 1;
  }

  lemma SignDecides(c: int, n: int)
    requires c != 0
    ensures (0 <= c * n <==> 0 <= (if c < 0 then -1 else 1) * n) && (0 == c * n <==> 0 == n)
  {
    if n > 0 {
      ProductGrows(n, Abs(c));
      NegatedProduct(c, n);
    } else if n < 0 {
      ProductGrows(-n, Abs(c));
      NegatedProduct(-c, -n);
      NegatedProduct(-n, c);
      NegatedProduct(n, c);
    }
  }

  /** `lhs <= rhs` in normal form. */
  method MkBinaryLeq(lhs: seq<Summand>, rhs: seq<Summand>) returns (a: Atom)
    requires Collected(lhs) && Collected(rhs)
    ensures Canonical(a) && !a.Equal?
    ensures forall x: Point {:trigger Holds(a, x)} :: Holds(a, x) <==> Value(lhs, x) <= Value(rhs, x)
  {
    hide Value, Dot;
    if IsConstant(lhs) && IsConstant(rhs) {
      forall x: Point ensures Value(lhs, x) == ConstantOf(lhs) && Value(rhs, x) == ConstantOf(rhs) {
        ConstantValue(lhs, x);
        ConstantValue(rhs, x);
      }
      return Truth(ConstantOf(lhs) <= ConstantOf(rhs));
    }
    var sum := Difference(lhs, rhs);
    if IsConstant(sum) {
      forall x: Point ensures Value(sum, x) == ConstantOf(sum) { ConstantValue(sum, x); }
      a := Truth(ConstantOf(sum) >= 0);
    } else if IsSingle(sum) {
      var c, v := sum[0].c, sum[0].base.v;
      var sign := if c < 0 then -1 else 1;
      SingleFactor(v, sign);
      a := Leq(0, [Factor(v, sign)]);
      forall x: Point ensures Holds(a, x) <==> 0 <= Value(sum, x) {
        SingleValue(sum, x);
        SignDecides(c, x(v));
      }
    } else {
      var k, fs := GetConstantAndFactors(sum);
      a := SumToNormalizedInequality(k, fs);
      forall x: Point ensures Holds(a, x) <==> 0 <= Value(sum, x) {
        assert Value(sum, x) == k + Dot(fs, x);
      }
    }
    forall x: Point ensures Holds(a, x) <==> Value(lhs, x) <= Value(rhs, x) {
      assert Value(sum, x) == Value(rhs, x) - Value(lhs, x);
    }
  }

  /** `lhs == rhs` in normal form. */
  method MkBinaryEq(lhs: seq<Summand>, rhs: seq<Summand>) returns (a: Atom)
    requires Collected(lhs) && Collected(rhs)
    ensures Canonical(a) && !a.Leq?
    ensures forall x: Point {:trigger Holds(a, x)} :: Holds(a, x) <==> Value(lhs, x) == Value(rhs, x)
  {
    hide Value, Dot;
    if IsConstant(lhs) && IsConstant(rhs) {
      forall x: Point ensures Value(lhs, x) == ConstantOf(lhs) && Value(rhs, x) == ConstantOf(rhs) {
        ConstantValue(lhs, x);
        ConstantValue(rhs, x);
      }
      return Truth(ConstantOf(lhs) == ConstantOf(rhs));
    }
    var diff := Difference(lhs, rhs);
    if IsConstant(diff) {
      forall x: Point ensures Value(diff, x) == ConstantOf(diff) { ConstantValue(diff, x); }
      a := Truth(ConstantOf(diff) == 0);
    } else if IsSingle(diff) {
      var v := diff[0].base.v;
      SingleFactor(v, 1);
      a := Equal(0, [Factor(v, 1)]);
      forall x: Point ensures Holds(a, x) <==> 0 == Value(diff, x) {
        SingleValue(diff, x);
        SignDecides(diff[0].c, x(v));
      }
    } else {
      var k, fs := GetConstantAndFactors(diff);
      a := SumToNormalizedEquality(k, fs);
      forall x: Point ensures Holds(a, x) <==> 0 == Value(diff, x) {
        assert Value(diff, x) == k + Dot(fs, x);
      }
    }
    forall x: Point ensures Holds(a, x) <==> Value(lhs, x) == Value(rhs, x) {
      assert Value(diff, x) == Value(rhs, x) - Value(lhs, x);
    }
  }

  /** An equality is turned into false exactly if it has no integer solution. */
  lemma FalseMeansUnsolvable(a: Atom, lhs: seq<Summand>, rhs: seq<Summand>)
    requires Canonical(a) && !a.Leq? && forall x: Point {:trigger Holds(a, x)} :: Holds(a, x) <==> Value(lhs, x) == Value(rhs, x)
    ensures a == Truth(false) <==> forall x: Point {:trigger Value(lhs, x)} :: Value(lhs, x) != Value(rhs, x)
  {
    hide Value, Dot;
    if a == Truth(false) {
      forall x: Point {:trigger Value(lhs, x)} ensures Value(lhs, x) != Value(rhs, x) {
        assert !Holds(a, x);
      }
    } else {
      var x := Zero();
      if a.Equal? { x := TakesEveryValue(a.fs, a.n); }
      assert Holds(a, x);
      assert Value(lhs, x) == Value(rhs, x);
    }
  }
}
