/** Integer division and modulo by constants, and their elimination: every such term becomes a variable, and a
    definition says what the variables of a dividend and a divisor are. */
module DivMods {
  import opened Decimals
  import opened Terms
  import opened Rewriters

  // ---------------------------------------------------------------------------
  // Arithmetic terms

  const DIV := 0
  const MOD := 1
  const PLUS := 2
  const TIMES := 3
  const LEQ := 4

  /** The symbols of numerals are the even numbers from 6 on. */
  function NumCode(n: int): nat {
    6 + if n >= 0 then 4 * n else -4 * n - 2
  }

  predicate IsNumCode(f: nat) {
    f >= 6 && f % 2 == 0
  }

  function CodeNum(f: nat): int
    requires IsNumCode(f)
  {
    if f % 4 == 2 then (f - 6) / 4 else -((f - 4) / 4)
  }

  lemma CodeRoundTrip(n: int)
    ensures IsNumCode(NumCode(n)) && CodeNum(NumCode(n)) == n
  {
  }

  function Num(n: int): Term {
    App(Uf(NumCode(n)), [])
  }

  predicate IsNum(t: Term) {
    t.App? && t.op.Uf? && IsNumCode(t.op.f) && t.args == []
  }

  function NumOf(t: Term): int
    requires IsNum(t)
  {
    CodeNum(t.op.f)
  }

  predicate IsDivMod(t: Term) {
    t.App? && (t.op == Uf(DIV) || t.op == Uf(MOD)) && |t.args| == 2 && IsNum(t.args[1]) && NumOf(t.args[1]) != 0
  }

  /** Which variables and other functions are of sort integer. */
  datatype Signature = Signature(intVar: string -> bool, intFun: nat -> bool)

  predicate IntSymbol(sig: Signature, f: nat) {
    f in {DIV, MOD, PLUS, TIMES} || IsNumCode(f) || (f >= 5 && sig.intFun(f))
  }

  predicate IsInt(sig: Signature, t: Term) {
    match t
    case Var(name) => sig.intVar(name)
    case App(op, _) => op.Uf? && IntSymbol(sig, op.f)
    case Ite(_, a, b) => IsInt(sig, a) && IsInt(sig, b)
  }

  /** Division and modulo are by constants other than zero, and of integers. */
  predicate WellFormedAt(sig: Signature, t: Term) {
    t.App? && (t.op == Uf(DIV) || t.op == Uf(MOD)) ==> IsDivMod(t) && IsInt(sig, t.args[0])
  }

  ghost predicate WellFormed(sig: Signature, t: Term) {
    forall s {:trigger s in Subterms(t)} :: s in Subterms(t) ==> WellFormedAt(sig, s)
  }

  /** Models that keep to the sorts and give the arithmetic symbols their meaning: division leaves a remainder
      between zero and the divisor's magnitude. */
  ghost predicate Standard(sig: Signature, m: Model) {
    && m.ites.Defined?
    && (forall x {:trigger m.vars(x)} :: sig.intVar(x) ==> m.vars(x).Elem?)
    && (forall f, vs {:trigger m.fun(f, vs)} :: IntSymbol(sig, f) ==> m.fun(f, vs).Elem?)
    && (forall n {:trigger NumCode(n)} :: m.fun(NumCode(n), []) == Elem(n))
    && (forall f {:trigger CodeNum(f)} :: IsNumCode(f) ==> m.fun(f, []) == Elem(CodeNum(f)))
    && (forall a, b {:trigger m.fun(DIV, [Elem(a), Elem(b)])} :: b != 0 ==> m.fun(DIV, [Elem(a), Elem(b)]) == Elem(a / b))
    && (forall a, b {:trigger m.fun(MOD, [Elem(a), Elem(b)])} :: b != 0 ==> m.fun(MOD, [Elem(a), Elem(b)]) == Elem(a % b))
    && (forall a, b {:trigger m.fun(PLUS, [Elem(a), Elem(b)])} :: m.fun(PLUS, [Elem(a), Elem(b)]) == Elem(a + b))
    && (forall a, b {:trigger m.fun(TIMES, [Elem(a), Elem(b)])} :: m.fun(TIMES, [Elem(a), Elem(b)]) == Elem(a * b))
    && (forall a, b {:trigger m.fun(LEQ, [Elem(a), Elem(b)])} :: m.fun(LEQ, [Elem(a), Elem(b)]) == Bool(a <= b))
  }

  lemma {:induction false} IntValue(sig: Signature, m: Model, t: Term)
    requires Standard(sig, m) && IsInt(sig, t)
    ensures Eval(m, t).Elem?
  {
    if t.App? {
      EvalApp(m, t.op, t.args);
    } else if t.Ite? {
      IntValue(sig, m, t.tt);
      IntValue(sig, m, t.ff);
    }
  }

  lemma NumValue(sig: Signature, m: Model, n: Term)
    requires Standard(sig, m) && IsNum(n)
    ensures Eval(m, n) == Elem(NumOf(n))
  {
    EvalApp(m, n.op, n.args);
    assert Values(m, n.args) == [];
  }

  lemma BinaryValue(m: Model, f: nat, a: Term, b: Term)
    ensures Eval(m, App(Uf(f), [a, b])) == m.fun(f, [Eval(m, a), Eval(m, b)])
  {
    EvalApp(m, Uf(f), [a, b]);
    assert Values(m, [a, b]) == [Eval(m, a), Eval(m, b)];
  }

  /** A division's or modulo's value. */
  lemma DivModValue(sig: Signature, m: Model, t: Term)
    requires Standard(sig, m) && IsDivMod(t) && IsInt(sig, t.args[0])
    ensures Eval(m, t.args[0]).Elem?
    ensures var v, d := Eval(m, t.args[0]).e, NumOf(t.args[1]); Eval(m, t) == Elem(if t.op == Uf(DIV) then v / d else v % d)
  {
    IntValue(sig, m, t.args[0]);
    NumValue(sig, m, t.args[1]);
    BinaryValue(m, t.op.f, t.args[0], t.args[1]);
    assert t.args == [t.args[0], t.args[1]];
  }

  // ---------------------------------------------------------------------------
  // Folding constants

  /** Both constants: the quotient as a fraction is rounded down for a positive divisor and up for a negative one. */
  method FoldConstants(dividend: int, divisor: int) returns (intDiv: int, intMod: int)
    requires divisor != 0
    ensures intDiv == dividend / divisor && intMod == dividend % divisor
  {
    var realDiv := dividend as real / divisor as real;
    intDiv := if divisor > 0 then realDiv.Floor else -(-realDiv).Floor;
    intMod := dividend - intDiv * divisor;
    RoundedQuotient(dividend, divisor, intDiv);
  }

  lemma RoundedQuotient(x: int, d: int, q: int)
    requires d != 0 && q == if d > 0 then (x as real / d as real).Floor else -(-(x as real / d as real)).Floor
    ensures q == x / d && x - q * d == x % d
  {
    if d > 0 {
      RoundedDown(x, d, q, x as real / d as real);
    } else {
      var r := -(x as real / d as real);
      assert r * (-d) as real == x as real;
      RoundedDown(x, -d, -q, r);
      assert (-q) * (-d) == q * d;
    }
    EuclidUnique(x, d, q, x - q * d);
  }

  lemma RoundedDown(x: int, d: int, q: int, r: real)
    requires d > 0 && q == r.Floor && r * d as real == x as real
    ensures 0 <= x - q * d < d
  {
    var gap := r - q as real;
    Distribute(q as real, gap, d as real);
    ProductOfReals(q, d);
    var part := Fraction(gap, d as real);
    var p := q * d;
    assert x as real == p as real + part;
    assert (x - p) as real == part && part < d as real;
  }

  lemma Distribute(a: real, b: real, c: real)
    ensures (a + b) * c == a * c + b * c
  {
  }

  lemma ProductOfReals(a: int, b: int)
    ensures (a * b) as real == a as real * b as real
  {
  }

  lemma Fraction(gap: real, c: real) returns (part: real)
    requires 0.0 <= gap < 1.0 && c > 0.0
    ensures part == gap * c && 0.0 <= part < c
  {
    part := gap * c;
    var other := (1.0 - gap) * c;
    assert other > 0.0;
    Distribute(gap, 1.0 - gap, c);
  }

  /** Quotient and remainder are unique. */
  lemma EuclidUnique(x: int, d: int, q: int, r: int)
    requires d != 0 && x == d * q + r && 0 <= r < (if d > 0 then d else -d)
    ensures q == x / d && r == x % d
  {
    var q', r' := x / d, x % d;
    assert x == d * q' + r' && 0 <= r' < (if d > 0 then d else -d);
    assert d * (q - q') == r' - r;
    SmallMultiple(d, q - q', r' - r);
  }

  lemma SmallMultiple(d: int, k: int, s: int)
    requires d != 0 && d * k == s && (if d > 0 then -d < s < d else d < s < -d)
    ensures k == 0
  {
    if k != 0 { NotSmall(d, k); }
  }

  lemma NotSmall(d: int, k: int)
    requires d != 0 && k != 0
    ensures d > 0 ==> d * k >= d || d * k <= -d
    ensures d < 0 ==> d * k <= d || d * k >= -d
  {
    var a, b := if d > 0 then d else -d, if k > 0 then k - 1 else -k - 1;
    Product(a, b);
    if d > 0 {
      if k > 0 { assert d * k == a * b + d; } else { assert d * k == -(a * b) - d; }
    } else {
      if k > 0 { assert d * k == -(a * b) + d; } else { assert d * k == a * b - d; }
    }
  }

  lemma Product(a: nat, b: nat)
    ensures a * b >= 0
  {
  }

  // ---------------------------------------------------------------------------
  // Names of auxiliary variables

  const DIV_PREFIX := ".div"
  const MOD_PREFIX := ".mod"

  predicate IsAux(name: string) {
    DIV_PREFIX <= name || MOD_PREFIX <= name
  }

  function AuxId(dividend: nat, divisor: nat): string {
    "_" + Decimal(dividend) + "_" + Decimal(divisor)
  }

  datatype Parts = Malformed | Parts(dividend: string, divisor: string)

  /** Digits before and after an underscore; anything else is skipped, and a second underscore is an error. */
  function Scan(s: string, parsingDividend: bool, dividend: string, divisor: string): Parts {
    if s == "" then Parts(dividend, divisor)
    else if IsDigit(s[0]) then
      if parsingDividend then Scan(s[1..], true, dividend + [s[0]], divisor) else Scan(s[1..], false, dividend, divisor + [s[0]])
    else if s[0] == '_' then
      if parsingDividend then Scan(s[1..], false, dividend, divisor) else Malformed
    else Scan(s[1..], parsingDividend, dividend, divisor)
  }

  lemma {:induction false} ScanDigits(x: string, rest: string, parsingDividend: bool, dividend: string, divisor: string)
    requires AllDigits(x)
    ensures Scan(x + rest, parsingDividend, dividend, divisor) ==
            if parsingDividend then Scan(rest, true, dividend + x, divisor) else Scan(rest, false, dividend, divisor + x)
  {
    if x == "" {
      assert x + rest == rest && dividend + x == dividend && divisor + x == divisor;
    } else {
      assert IsDigit(x[0]) && (x + rest)[1..] == x[1..] + rest;
      assert dividend + [x[0]] + x[1..] == dividend + x && divisor + [x[0]] + x[1..] == divisor + x;
      if parsingDividend {
        ScanDigits(x[1..], rest, true, dividend + [x[0]], divisor);
      } else {
        ScanDigits(x[1..], rest, false, dividend, divisor + [x[0]]);
      }
    }
  }

  /** Scanning gives the numbers back. */
  lemma ScanAuxId(dividend: nat, divisor: nat)
    ensures AuxId(dividend, divisor) != "" && Scan(AuxId(dividend, divisor)[1..], true, "", "") == Parts(Decimal(dividend), Decimal(divisor))
  {
    var x, y := Decimal(dividend), Decimal(divisor);
    assert AuxId(dividend, divisor)[1..] == x + ("_" + y);
    ScanDigits(x, "_" + y, true, "", "");
    assert "" + x == x && "" + y == y && ("_" + y)[1..] == y && y == y + "";
    ScanDigits(y, "", false, x, "");
  }

  /** Names tell dividends and divisors apart. */
  lemma AuxIdsDiffer(a1: nat, d1: nat, a2: nat, d2: nat)
    requires AuxId(a1, d1) == AuxId(a2, d2)
    ensures a1 == a2 && d1 == d2
  {
    ScanAuxId(a1, d1);
    ScanAuxId(a2, d2);
    DecimalParses(a1);
    DecimalParses(a2);
    DecimalParses(d1);
    DecimalParses(d2);
  }

  /** The digits of a text. */
  function Digits(s: string): (r: string)
    ensures AllDigits(r)
  {
    if s == "" then "" else (if IsDigit(s[0]) then [s[0]] else "") + Digits(s[1..])
  }

  /** After the prefix and one more character, there is one underscore, with digits on both sides. */
  ghost predicate TwoNumbers(name: string, prefix: string, x: string, y: string) {
    |prefix| < |name| && name[|prefix| + 1..] == x + "_" + y && '_' !in x && '_' !in y && Digits(x) != "" && Digits(y) != ""
  }

  lemma {:induction false} ScanEnd(s: string, parsingDividend: bool, x: string, y: string)
    ensures '_' !in s ==> Scan(s, parsingDividend, x, y) == if parsingDividend then Parts(x + Digits(s), y) else Parts(x, y + Digits(s))
    ensures '_' in s && !parsingDividend ==> Scan(s, parsingDividend, x, y) == Malformed
  {
    if s == "" {
      assert x + "" == x && y + "" == y;
    } else {
      var d := if IsDigit(s[0]) then [s[0]] else "";
      assert s == [s[0]] + s[1..] && x + d + Digits(s[1..]) == x + Digits(s) && y + d + Digits(s[1..]) == y + Digits(s);
      assert x + "" == x && y + "" == y;
      ScanEnd(s[1..], parsingDividend, if parsingDividend then x + d else x, if parsingDividend then y else y + d);
    }
  }

  lemma {:induction false} ScanBoth(s: string, t: string, x: string)
    requires '_' !in s
    ensures Scan(s + ("_" + t), true, x, "") == if '_' in t then Malformed else Parts(x + Digits(s), Digits(t))
  {
    hide Scan, Digits;
    if s == "" {
      assert s + ("_" + t) == ['_'] + t && x + "" == x;
      UnderscoreStep(t, x);
      ScanEnd(t, false, x, "");
      assert "" + Digits(t) == Digits(t) && Digits("") == "" by { NoDigits(); }
    } else {
      var d := if IsDigit(s[0]) then [s[0]] else "";
      SplitHead(s, "_" + t);
      PlainStep(s[0], s[1..] + ("_" + t), x);
      ScanBoth(s[1..], t, x + d);
      DigitsStep(x, s);
    }
  }

  lemma NoDigits()
    ensures Digits("") == ""
  {
  }

  lemma SplitHead(s: string, t: string)
    requires s != ""
    ensures s + t == [s[0]] + (s[1..] + t)
  {
  }

  lemma DigitsStep(x: string, s: string)
    requires s != ""
    ensures (x + if IsDigit(s[0]) then [s[0]] else "") + Digits(s[1..]) == x + Digits(s)
  {
  }

  lemma UnderscoreStep(t: string, x: string)
    ensures Scan(['_'] + t, true, x, "") == Scan(t, false, x, "")
  {
    assert (['_'] + t)[1..] == t;
  }

  lemma PlainStep(a: char, t: string, x: string)
    requires a != '_'
    ensures Scan([a] + t, true, x, "") == Scan(t, true, x + if IsDigit(a) then [a] else "", "")
  {
    assert ([a] + t)[1..] == t && x + "" == x;
  }

  lemma ScanSplit(s: string, x: string, y: string)
    requires s == x + "_" + y && '_' !in x
    ensures Scan(s, true, "", "") == if '_' in y then Malformed else Parts(Digits(x), Digits(y))
  {
    hide Scan, Digits;
    ScanBoth(x, y, "");
    assert s == x + ("_" + y) && "" + Digits(x) == Digits(x);
  }

  /** A scan finds two numbers exactly if they are there. */
  lemma ScanFinds(name: string, prefix: string)
    requires prefix <= name
    ensures var r := Scan(if |prefix| < |name| then name[|prefix| + 1..] else "", true, "", "");
            && (forall x, y {:trigger TwoNumbers(name, prefix, x, y)} :: TwoNumbers(name, prefix, x, y) ==> r == Parts(Digits(x), Digits(y)))
            && (r.Parts? && r.dividend != "" && r.divisor != "" ==> exists x, y {:trigger TwoNumbers(name, prefix, x, y)} :: TwoNumbers(name, prefix, x, y))
  {
    hide Scan, Digits;
    var s := if |prefix| < |name| then name[|prefix| + 1..] else "";
    forall x, y {:trigger TwoNumbers(name, prefix, x, y)} | TwoNumbers(name, prefix, x, y) ensures Scan(s, true, "", "") == Parts(Digits(x), Digits(y)) {
      ScanSplit(s, x, y);
    }
    if '_' in s {
      var x, y := AtUnderscore(s);
      ScanSplit(s, x, y);
      assert Scan(s, true, "", "").Parts? && Digits(x) != "" && Digits(y) != "" ==> TwoNumbers(name, prefix, x, y);
    } else {
      ScanEnd(s, true, "", "");
    }
  }

  lemma {:induction false} AtUnderscore(s: string) returns (x: string, y: string)
    requires '_' in s
    ensures s == x + "_" + y && '_' !in x
  {
    if s[0] == '_' {
      x, y := "", s[1..];
    } else {
      x, y := AtUnderscore(s[1..]);
      x := [s[0]] + x;
    }
  }

  /** What a name says about dividend and divisor. */
  method GetDividendAndDivisor(name: string, prefix: string) returns (ok: bool, dividend: nat, divisor: nat)
    requires prefix <= name
    ensures forall a, d {:trigger AuxId(a, d)} :: name == prefix + AuxId(a, d) ==> ok && dividend == a && divisor == d
    ensures forall x, y {:trigger TwoNumbers(name, prefix, x, y)} :: TwoNumbers(name, prefix, x, y) ==> ok && dividend == ParseDecimal(Digits(x)) && divisor == ParseDecimal(Digits(y))
    ensures ok ==> exists x, y {:trigger TwoNumbers(name, prefix, x, y)} :: TwoNumbers(name, prefix, x, y)
  {
    var dividendStr, divisorStr, parsingDividend := "", "", true;
    ok, dividend, divisor := true, 0, 0;
    var i := |prefix| + 1;
    ghost var rest := if i <= |name| then name[i..] else "";
    while ok && i < |name|
      invariant |prefix| + 1 <= i && AllDigits(dividendStr) && AllDigits(divisorStr)
      invariant ok ==> Scan(rest, true, "", "") == Scan(if i <= |name| then name[i..] else "", parsingDividend, dividendStr, divisorStr)
      invariant !ok ==> Scan(rest, true, "", "") == Malformed
    {
      assert name[i..][0] == name[i] && name[i..][1..] == name[i + 1..];
      if parsingDividend && IsDigit(name[i]) {
        dividendStr := dividendStr + [name[i]];
      } else if !parsingDividend && IsDigit(name[i]) {
        divisorStr := divisorStr + [name[i]];
      } else if name[i] == '_' {
        ok := parsingDividend;
        parsingDividend := false;
      }
      i := i + 1;
    }
    ok := ok && dividendStr != "" && divisorStr != "";
    if ok {
      dividend, divisor := ParseDecimal(dividendStr), ParseDecimal(divisorStr);
    }
    ScanFinds(name, prefix);
    forall a, d {:trigger AuxId(a, d)} | name == prefix + AuxId(a, d) ensures ok && dividend == a && divisor == d {
      assert rest == AuxId(a, d)[1..];
      ScanAuxId(a, d);
      DecimalParses(a);
      DecimalParses(d);
    }
  }
}
