/** Linear integer terms, their greatest common divisors, and when two of them have the same solutions. */
module LinearForms {

  type Var = nat
  type Point = Var -> int

  datatype Factor = Factor(v: Var, c: int)

  ghost function Dot(fs: seq<Factor>, x: Point): int {
    if fs == [] then 0 else fs[0].c * x(fs[0].v) + Dot(fs[1..], x)
  }

  /** The coefficient of a variable; 0 if it does not occur. */
  ghost function Coeff(fs: seq<Factor>, v: Var): int {
    if fs == [] then 0 else if fs[0].v == v then fs[0].c else Coeff(fs[1..], v)
  }

  /** Variables in increasing order, no coefficient zero. */
  ghost predicate Normalized(fs: seq<Factor>) {
    && (forall i, j :: 0 <= i < j < |fs| ==> fs[i].v < fs[j].v)
    && forall i :: 0 <= i < |fs| ==> fs[i].c != 0
  }

  lemma NormalizedTail(fs: seq<Factor>)
    requires Normalized(fs) && fs != []
    ensures Normalized(fs[1..]) && forall i :: 0 <= i < |fs[1..]| ==> fs[1..][i].v != fs[0].v
  {
  }

  // ---------------------------------------------------------------------------
  // Points

  function Zero(): Point { (v: Var) => 0 }

  /** The point `x + t d`. */
  function Along(x: Point, t: int, d: Point): Point { (v: Var) => x(v) + t * d(v) }

  /** A point that is `a` at `i`, `b` at `j` and zero elsewhere. */
  function Pair(i: Var, a: int, j: Var, b: int): Point { (v: Var) => if v == i then a else if v == j then b else 0 }

  lemma {:induction false} DotZero(fs: seq<Factor>)
    ensures Dot(fs, Zero()) == 0
  {
    if fs != [] { DotZero(fs[1..]); }
  }

  lemma {:induction false} DotAlong(fs: seq<Factor>, x: Point, t: int, d: Point)
    ensures Dot(fs, Along(x, t, d)) == Dot(fs, x) + t * Dot(fs, d)
  {
    if fs != [] {
      DotAlong(fs[1..], x, t, d);
      var c, a, b := fs[0].c, x(fs[0].v), d(fs[0].v);
      Distribute(c, a, t, b, Dot(fs[1..], d));
    }
  }

  lemma Distribute(c: int, a: int, t: int, b: int, rest: int)
    ensures c * (a + t * b) == c * a + t * (c * b) && t * (c * b + rest) == t * (c * b) + t * rest
  {
  }

  lemma {:induction false} DotScaled(fs: seq<Factor>, t: int, d: Point)
    ensures Dot(fs, Along(Zero(), t, d)) == t * Dot(fs, d)
  {
    DotAlong(fs, Zero(), t, d);
    DotZero(fs);
  }

  /** Points that agree on the variables of a sum have the same value. */
  lemma {:induction false} DotAgrees(fs: seq<Factor>, x: Point, y: Point)
    requires forall i {:trigger fs[i]} :: 0 <= i < |fs| ==> x(fs[i].v) == y(fs[i].v)
    ensures Dot(fs, x) == Dot(fs, y)
  {
    if fs != [] {
      forall i {:trigger fs[1..][i]} | 0 <= i < |fs[1..]| ensures x(fs[1..][i].v) == y(fs[1..][i].v) {
        assert fs[1..][i] == fs[i + 1];
      }
      DotAgrees(fs[1..], x, y);
    }
  }

  lemma {:induction false} CoeffAbsent(fs: seq<Factor>, v: Var)
    requires forall i :: 0 <= i < |fs| ==> fs[i].v != v
    ensures Coeff(fs, v) == 0
  {
    if fs != [] { CoeffAbsent(fs[1..], v); }
  }

  lemma {:induction false} DotPair(fs: seq<Factor>, i: Var, a: int, j: Var, b: int)
    requires Normalized(fs) && i != j
    ensures Dot(fs, Pair(i, a, j, b)) == a * Coeff(fs, i) + b * Coeff(fs, j)
  {
    if fs != [] {
      NormalizedTail(fs);
      DotPair(fs[1..], i, a, j, b);
      if fs[0].v == i { CoeffAbsent(fs[1..], i); }
      if fs[0].v == j { CoeffAbsent(fs[1..], j); }
    }
  }

  // ---------------------------------------------------------------------------
  // Greatest common divisors

  /** A greatest common divisor of two numbers, how it is combined from them, and the quotients. */
  datatype Bezout = Bezout(g: nat, u: int, w: int, p: int, q: int)

  ghost predicate BezoutOf(r: Bezout, a: nat, b: nat) {
    r.g == r.u * a + r.w * b && a == r.g * r.p && b == r.g * r.q
  }

  function ExtGcd(a: nat, b: nat): (r: Bezout)
    ensures BezoutOf(r, a, b)
    decreases b
  {
    if b == 0 then Bezout(a, 1, 0, 1, 0)
    else
      var r := ExtGcd(b, a % b);
      BezoutStep(r, a, b);
      Bezout(r.g, r.w, r.u - (a / b) * r.w, (a / b) * r.p + r.q, r.p)
  }

  lemma BezoutStep(r: Bezout, a: nat, b: nat)
    requires b > 0 && BezoutOf(r, b, a % b)
    ensures BezoutOf(Bezout(r.g, r.w, r.u - (a / b) * r.w, (a / b) * r.p + r.q, r.p), a, b)
  {
    var k, m := a / b, a % b;
    assert a == k * b + m;
    assert r.w * a == r.w * (k * b) + r.w * m;
    assert r.w * (k * b) == (k * r.w) * b;
    assert (r.u - k * r.w) * b == r.u * b - (k * r.w) * b;
    assert r.g * (k * r.p + r.q) == k * (r.g * r.p) + r.g * r.q;
  }

  function Abs(n: int): nat { if n < 0 then -n else n }

  function Times(a: int, b: int): int { a * b }

  ghost predicate Divides(g: int, n: int) {
    exists k {:trigger Times(g, k)} :: n == Times(g, k)
  }

  /** A positive number that divides all coefficients and is a value of the sum. */
  ghost predicate IsGcd(g: nat, fs: seq<Factor>) {
    && g > 0 && (forall i {:trigger fs[i]} :: 0 <= i < |fs| ==> Divides(g, fs[i].c))
    && exists x: Point {:trigger Dot(fs, x)} :: Dot(fs, x) == g
  }

  /** A sum whose coefficients have no common divisor takes every value. */
  lemma TakesEveryValue(fs: seq<Factor>, n: int) returns (x: Point)
    requires IsGcd(1, fs)
    ensures Dot(fs, x) == n
  {
    var y :| Dot(fs, y) == 1;
    x := Along(Zero(), n, y);
    DotScaled(fs, n, y);
  }

  // ---------------------------------------------------------------------------
  // Sums that vanish on the same directions

  ghost predicate SameKernel(a: seq<Factor>, b: seq<Factor>) {
    forall d: Point {:trigger Dot(a, d)} {:trigger Dot(b, d)} :: Dot(a, d) == 0 <==> Dot(b, d) == 0
  }

  /** Then one is a multiple of the other, if that other takes the value 1. */
  lemma KernelFactor(a: seq<Factor>, b: seq<Factor>, y: Point, x: Point)
    requires SameKernel(a, b) && Dot(a, y) == 1
    ensures Dot(b, x) == Dot(a, x) * Dot(b, y)
  {
    var n := Dot(a, x);
    DotAlong(a, x, -n, y);
    DotAlong(b, x, -n, y);
    assert Dot(a, Along(x, -n, y)) == 0;
    assert (-n) * Dot(b, y) == -(n * Dot(b, y));
  }

  lemma ProductGrows(a: nat, b: nat)
    requires b > 0
    ensures a * b >= a
  {
  }

  lemma AbsProduct(s: int, t: int)
    requires t != 0
    ensures Abs(s * t) >= Abs(s)
  {
    ProductGrows(Abs(s), Abs(t));
    if t > 0 {
      assert (-s) * t == -(s * t);
    } else {
      assert (-s) * (-t) == s * t && s * (-t) == -(s * t);
    }
  }

  lemma UnitFactors(s: int, t: int)
    requires s * t == 1
    ensures s == t && (s == 1 || s == -1)
  {
    AbsProduct(s, t);
    AbsProduct(t, s);
  }

  /** Without common divisors, the two are the same or opposite. */
  lemma SameOrOpposite(a: seq<Factor>, b: seq<Factor>) returns (s: int)
    requires IsGcd(1, a) && IsGcd(1, b) && SameKernel(a, b)
    ensures (s == 1 || s == -1) && forall x: Point {:trigger Dot(b, x)} :: Dot(b, x) == s * Dot(a, x)
  {
    var y :| Dot(a, y) == 1;
    var z :| Dot(b, z) == 1;
    s := Dot(b, y);
    forall x: Point ensures Dot(b, x) == s * Dot(a, x) {
      KernelFactor(a, b, y, x);
    }
    KernelFactor(a, b, y, z);
    assert s * Dot(a, z) == 1;
    UnitFactors(s, Dot(a, z));
  }

  lemma CoeffOfDot(fs: seq<Factor>, v: Var)
    requires Normalized(fs)
    ensures Dot(fs, Pair(v, 1, v + 1, 0)) == Coeff(fs, v)
  {
    DotPair(fs, v, 1, v + 1, 0);
  }

  /** Normalized sums with the same coefficients are the same. */
  lemma {:induction false} SameCoeffs(a: seq<Factor>, b: seq<Factor>)
    requires Normalized(a) && Normalized(b) && forall v: Var {:trigger Coeff(a, v)} {:trigger Coeff(b, v)} :: Coeff(a, v) == Coeff(b, v)
    ensures a == b
  {
    if a == [] || b == [] {
      if a != [] { assert Coeff(a, a[0].v) != Coeff(b, a[0].v); }
      if b != [] { assert Coeff(b, b[0].v) != Coeff(a, b[0].v); }
    } else {
      FirstVar(a, b);
      FirstVar(b, a);
      NormalizedTail(a);
      NormalizedTail(b);
      assert Coeff(a, a[0].v) == Coeff(b, a[0].v);
      forall v: Var {:trigger Coeff(a[1..], v)} {:trigger Coeff(b[1..], v)} ensures Coeff(a[1..], v) == Coeff(b[1..], v) {
        if v == a[0].v {
          CoeffAbsent(a[1..], v);
          CoeffAbsent(b[1..], v);
        } else {
          assert Coeff(a, v) == Coeff(b, v);
        }
      }
      SameCoeffs(a[1..], b[1..]);
    }
  }

  lemma FirstVar(a: seq<Factor>, b: seq<Factor>)
    requires Normalized(a) && Normalized(b) && a != [] && b != []
    requires forall v: Var {:trigger Coeff(a, v)} {:trigger Coeff(b, v)} :: Coeff(a, v) == Coeff(b, v)
    ensures b[0].v <= a[0].v
  {
    assert Coeff(a, a[0].v) == a[0].c;
    if a[0].v < b[0].v {
      CoeffAbsent(b, a[0].v);
    }
  }

  lemma EqualDots(a: seq<Factor>, b: seq<Factor>)
    requires Normalized(a) && Normalized(b) && forall x: Point {:trigger Dot(a, x)} {:trigger Dot(b, x)} :: Dot(a, x) == Dot(b, x)
    ensures a == b
  {
    forall v: Var {:trigger Coeff(a, v)} {:trigger Coeff(b, v)} ensures Coeff(a, v) == Coeff(b, v) {
      CoeffOfDot(a, v);
      CoeffOfDot(b, v);
    }
    SameCoeffs(a, b);
  }

  // ---------------------------------------------------------------------------
  // Half-spaces and hyperplanes

  ghost predicate SameHalfSpace(lo: int, a: seq<Factor>, hi: int, b: seq<Factor>) {
    forall x: Point {:trigger Dot(a, x)} {:trigger Dot(b, x)} :: lo <= Dot(a, x) <==> hi <= Dot(b, x)
  }

  lemma KeepsKernel(lo: int, a: seq<Factor>, hi: int, b: seq<Factor>, d: Point)
    requires SameHalfSpace(lo, a, hi, b) && IsGcd(1, a) && Dot(a, d) == 0
    ensures Dot(b, d) == 0
  {
    var x := TakesEveryValue(a, lo);
    var n, m := Dot(b, d), Dot(b, x) - hi;
    var t := if n > 0 then -(m + 1) else m + 1;
    DotAlong(a, x, t, d);
    DotAlong(b, x, t, d);
    assert t * Dot(a, d) == 0;
    assert lo <= Dot(a, Along(x, t, d));
    assert lo <= Dot(a, x) && m >= 0;
    Overshoots(m, n, t);
  }

  lemma NegatedProduct(a: int, b: int)
    ensures (-a) * b == -(a * b) && a * b == b * a
  {
  }

  lemma Overshoots(m: int, n: int, t: int)
    requires m >= 0 && t == if n > 0 then -(m + 1) else m + 1
    ensures n != 0 ==> m + t * n < 0
  {
    if n > 0 {
      ProductGrows(m + 1, n);
      NegatedProduct(m + 1, n);
    } else if n < 0 {
      ProductGrows(m + 1, -n);
      NegatedProduct(m + 1, -n);
      NegatedProduct(-n, m + 1);
    }
  }

  /** Half-spaces with the same integer points have the same sum and the same bound. */
  lemma HalfSpaceUnique(lo: int, a: seq<Factor>, hi: int, b: seq<Factor>)
    requires Normalized(a) && Normalized(b) && IsGcd(1, a) && IsGcd(1, b) && SameHalfSpace(lo, a, hi, b)
    ensures a == b && lo == hi
  {
    forall d: Point {:trigger Dot(a, d)} {:trigger Dot(b, d)} ensures Dot(a, d) == 0 <==> Dot(b, d) == 0 {
      if Dot(a, d) == 0 { KeepsKernel(lo, a, hi, b, d); }
      if Dot(b, d) == 0 { KeepsKernel(hi, b, lo, a, d); }
    }
    var s := SameOrOpposite(a, b);
    var x := TakesEveryValue(a, Abs(lo) + Abs(hi) + 1);
    assert lo <= Dot(a, x) && hi <= s * Dot(a, x);
    assert s == 1;
    EqualDots(a, b);
    var y := TakesEveryValue(a, lo);
    var z := TakesEveryValue(a, hi);
    assert hi <= Dot(b, y) && lo <= Dot(a, z);
  }

  ghost predicate SamePlane(n: int, a: seq<Factor>, m: int, b: seq<Factor>) {
    forall x: Point {:trigger Dot(a, x)} {:trigger Dot(b, x)} :: n == Dot(a, x) <==> m == Dot(b, x)
  }

  lemma PlaneKernel(n: int, a: seq<Factor>, m: int, b: seq<Factor>, d: Point)
    requires SamePlane(n, a, m, b) && IsGcd(1, a) && Dot(a, d) == 0
    ensures Dot(b, d) == 0
  {
    var x := TakesEveryValue(a, n);
    DotAlong(a, x, 1, d);
    DotAlong(b, x, 1, d);
    assert n == Dot(a, Along(x, 1, d)) && m == Dot(b, x);
  }

  /** Hyperplanes with the same integer points, and positive leading coefficients, are the same. */
  lemma PlaneUnique(n: int, a: seq<Factor>, m: int, b: seq<Factor>)
    requires Normalized(a) && Normalized(b) && IsGcd(1, a) && IsGcd(1, b) && SamePlane(n, a, m, b)
    requires a != [] && b != [] && a[0].c > 0 && b[0].c > 0
    ensures a == b && n == m
  {
    forall d: Point {:trigger Dot(a, d)} {:trigger Dot(b, d)} ensures Dot(a, d) == 0 <==> Dot(b, d) == 0 {
      if Dot(a, d) == 0 { PlaneKernel(n, a, m, b, d); }
      if Dot(b, d) == 0 { PlaneKernel(m, b, n, a, d); }
    }
    var s := SameOrOpposite(a, b);
    LeadingSign(a, b, s);
    EqualDots(a, b);
    var x := TakesEveryValue(a, n);
    assert m == Dot(b, x);
  }

  lemma LeadingSign(a: seq<Factor>, b: seq<Factor>, s: int)
    requires Normalized(a) && Normalized(b) && a != [] && b != [] && a[0].c > 0 && b[0].c > 0
    requires (s == 1 || s == -1) && forall x: Point {:trigger Dot(b, x)} :: Dot(b, x) == s * Dot(a, x)
    ensures s == 1
  {
    var v, w := a[0].v, b[0].v;
    CoeffOfDot(a, v);
    CoeffOfDot(b, v);
    CoeffOfDot(a, w);
    CoeffOfDot(b, w);
    if w < v { CoeffAbsent(a, w); }
    if v < w { CoeffAbsent(b, v); }
  }
}
