/** Converting a decimal literal to a fraction: the digits over a power of ten, in a buffer of just the right
    size. */
module StringConvs {
  import opened Decimals

  predicate IsPosDig(c: char) { '1' <= c <= '9' }

  // ---------------------------------------------------------------------------
  // Zeros at the ends

  /** Without the zeros in front. */
  function StripLeading(s: string): (r: string)
    ensures |r| <= |s| && (r != "" ==> r[0] != '0') && (AllDigits(s) ==> AllDigits(r))
  {
    if s != "" && s[0] == '0' then StripLeading(s[1..]) else s
  }

  /** How many zeros there are at the end. */
  function Trailing(s: string): (n: nat)
    ensures n <= |s|
  {
    if s != "" && s[|s| - 1] == '0' then 1 + Trailing(s[..|s| - 1]) else 0
  }

  lemma {:induction false} StripMore(s: string, c: char)
    ensures StripLeading(s + [c]) == if StripLeading(s) == "" then (if c == '0' then "" else [c]) else StripLeading(s) + [c]
  {
    if s == "" {
      assert s + [c] == [c];
    } else if s[0] == '0' {
      assert (s + [c])[1..] == s[1..] + [c];
      StripMore(s[1..], c);
    }
  }

  lemma {:induction false} StripOn(s: string, t: string)
    requires StripLeading(s) != ""
    ensures StripLeading(s + t) == StripLeading(s) + t
  {
    if s[0] == '0' {
      assert (s + t)[1..] == s[1..] + t;
      StripOn(s[1..], t);
    }
  }

  // ---------------------------------------------------------------------------
  // Values

  function Pow10(n: nat): nat {
    if n == 0 then 1 else 10 * Pow10(n - 1)
  }

  lemma {:induction false} StripValue(s: string)
    requires AllDigits(s)
    ensures ParseDecimal(StripLeading(s)) == ParseDecimal(s)
  {
    if s != "" && s[0] == '0' {
      StripValue(s[1..]);
      ZeroInFront(s);
    }
  }

  lemma {:induction false} ZeroInFront(s: string)
    requires AllDigits(s) && s != "" && s[0] == '0'
    ensures ParseDecimal(s[1..]) == ParseDecimal(s)
  {
    if |s| > 1 {
      var r := s[..|s| - 1];
      assert r[1..] == s[1..][..|s| - 2] && s[1..][|s| - 2] == s[|s| - 1];
      ZeroInFront(r);
    } else {
      assert s[..0] == "" && s[1..] == "";
    }
  }

  lemma Tenfold(x: nat, p: nat)
    ensures 10 * (x * p) == x * (10 * p)
  {
  }

  /** Dropping zeros at the end divides by a power of ten. */
  lemma {:induction false} TrailingValue(a: string, b: string, n: nat)
    requires AllDigits(a) && AllDigits(b) && n == Trailing(b)
    ensures ParseDecimal(a + b) == ParseDecimal(a + b[..|b| - n]) * Pow10(n)
  {
    if n > 0 {
      var c := b[..|b| - 1];
      TrailingValue(a, c, n - 1);
      var s := a + b;
      assert s[..|s| - 1] == a + c && s[|s| - 1] == '0';
      assert c[..|c| - (n - 1)] == b[..|b| - n];
      Tenfold(ParseDecimal(a + b[..|b| - n]), Pow10(n - 1));
    } else {
      assert b[..|b|] == b;
    }
  }

  lemma {:induction false} PowSum(m: nat, n: nat)
    ensures Pow10(m + n) == Pow10(m) * Pow10(n)
  {
    if m > 0 {
      PowSum(m - 1, n);
      assert 10 * (Pow10(m - 1) * Pow10(n)) == (10 * Pow10(m - 1)) * Pow10(n);
    }
  }

  // ---------------------------------------------------------------------------
  // Literals

  /** Digits, perhaps with a point and more digits. */
  datatype Literal = Whole(a: string) | Point(a: string, b: string)

  ghost function Text(l: Literal): string {
    match l
    case Whole(a) => a
    case Point(a, b) => a + "." + b
  }

  ghost predicate IsLiteral(l: Literal) {
    AllDigits(l.a) && (l.Point? ==> AllDigits(l.b))
  }

  ghost function After(l: Literal): string {
    if l.Point? then l.b else ""
  }

  ghost function Digits(l: Literal): string {
    l.a + After(l)
  }

  /** The digits up to the last one after the point that is not zero, without the zeros in front. */
  ghost function Numerator(l: Literal): string {
    var ds := StripLeading(Digits(l));
    ds[..if |ds| >= Trailing(After(l)) then |ds| - Trailing(After(l)) else 0]
  }

  /** The number of digits after the point that stay. */
  ghost function Scale(l: Literal): nat {
    |After(l)| - Trailing(After(l))
  }

  function Zeros(n: nat): string {
    if n == 0 then "" else Zeros(n - 1) + "0"
  }

  /** Digits with at most one separator. */
  predicate OneSeparator(s: string, c: char) {
    && (forall i {:trigger s[i]} :: 0 <= i < |s| ==> IsDigit(s[i]) || s[i] == c)
    && forall i, j {:trigger s[i], s[j]} :: 0 <= i < j < |s| ==> !(s[i] == c && s[j] == c)
  }

  predicate IsDecimal(s: string) {
    OneSeparator(s, '.')
  }

  predicate IsFraction(s: string) {
    OneSeparator(s, '/') && '/' in s
  }

  /** The literal without the zeros at its end. */
  ghost function Kept(l: Literal): string {
    l.a + After(l)[..Scale(l)]
  }

  lemma KeptAndZeros(l: Literal)
    ensures Digits(l) == Kept(l) + Zeros(Trailing(After(l)))
  {
    hide Trailing, Zeros;
    TrailingZeros(After(l));
    assert l.a + (After(l)[..Scale(l)] + Zeros(Trailing(After(l)))) == Kept(l) + Zeros(Trailing(After(l)));
  }

  lemma NumeratorIs(l: Literal)
    requires StripLeading(Digits(l)) != ""
    ensures StripLeading(Kept(l)) != "" && Numerator(l) == StripLeading(Kept(l))
  {
    hide Trailing, Zeros, StripLeading, Kept, Digits;
    KeptAndZeros(l);
    StripZeros(Kept(l), Trailing(After(l)));
  }

  /** What is left out at the end are zeros: the numerator over a power of ten is exactly the literal. */
  lemma NumeratorExact(l: Literal)
    requires IsLiteral(l) && StripLeading(Digits(l)) != ""
    ensures AllDigits(Numerator(l)) && ParseDecimal(Numerator(l)) * Pow10(|After(l)|) == ParseDecimal(Digits(l)) * Pow10(Scale(l))
  {
    hide ParseDecimal, Pow10, Numerator, StripLeading, Trailing;
    var n := Trailing(After(l));
    NumeratorIs(l);
    assert AllDigits(Kept(l));
    StripValue(Kept(l));
    TrailingValue(l.a, After(l), n);
    PowSum(n, Scale(l));
    Regroup(ParseDecimal(Kept(l)), Pow10(n), Pow10(Scale(l)));
  }

  lemma Regroup(x: nat, p: nat, q: nat)
    ensures x * (p * q) == (x * p) * q
  {
  }

  lemma {:induction false} TrailingZeros(b: string)
    ensures b == b[..|b| - Trailing(b)] + Zeros(Trailing(b))
  {
    if b != "" && b[|b| - 1] == '0' {
      var c := b[..|b| - 1];
      TrailingZeros(c);
      assert c[..|c| - Trailing(c)] == b[..|b| - Trailing(b)];
      assert b == c + "0";
    } else {
      assert b[..|b|] + "" == b;
    }
  }

  /** Zeros at the end stay at the end, unless there is nothing else. */
  lemma {:induction false} StripZeros(s: string, n: nat)
    ensures StripLeading(s) != "" ==> StripLeading(s + Zeros(n)) == StripLeading(s) + Zeros(n)
    ensures StripLeading(s) == "" ==> StripLeading(s + Zeros(n)) == ""
    ensures |Zeros(n)| == n
  {
    if n == 0 {
      assert s + "" == s && StripLeading(s) + "" == StripLeading(s);
    } else {
      StripZeros(s, n - 1);
      assert s + Zeros(n) == (s + Zeros(n - 1)) + ['0'];
      StripMore(s + Zeros(n - 1), '0');
    }
  }

  // ---------------------------------------------------------------------------
  // The first scan

  datatype State = S0 | S1 | S2 | S3 | S4 | S5

  /** What is known after reading the text of `l`: the numerator's length, and zeros that may turn out to count. */
  ghost predicate Scanned(state: State, nomL: nat, zeroes: nat, l: Literal) {
    var ds := StripLeading(Digits(l));
    && IsLiteral(l)
    && match state
       case S0 => l.Whole? && ds == "" && nomL == 0 && zeroes == 0
       case S1 => l.Whole? && ds != "" && nomL == |ds| && zeroes == 0
       case S2 => l.Point? && ds != "" && nomL == |ds| && zeroes == Trailing(l.b) == 0
       case S3 => l.Point? && ds != "" && nomL + zeroes == |ds| && zeroes == Trailing(l.b) > 0
       case S4 => l.Point? && ds == "" && nomL == 0 && zeroes == 0
       case S5 => false
  }

  ghost function Longer(l: Literal, c: char): Literal {
    if c == '.' then Point(l.a, "") else if l.Whole? then Whole(l.a + [c]) else Point(l.a, l.b + [c])
  }

  lemma LongerFacts(l: Literal, c: char)
    requires IsLiteral(l) && (IsDigit(c) || (c == '.' && l.Whole?))
    ensures IsLiteral(Longer(l, c)) && Text(Longer(l, c)) == Text(l) + [c]
    ensures Digits(Longer(l, c)) == if c == '.' then Digits(l) else Digits(l) + [c]
    ensures c != '.' && l.Point? ==> Trailing(Longer(l, c).b) == if c == '0' then 1 + Trailing(l.b) else 0
    ensures c == '.' ==> Trailing(Longer(l, c).b) == 0
  {
    var l' := Longer(l, c);
    if c == '.' {
      assert l.a + "." + "" == l.a + ['.'] && l.a + "" == l.a;
    } else if l.Point? {
      assert (l.b + [c])[..|l.b|] == l.b;
      assert l.a + (l.b + [c]) == (l.a + l.b) + [c];
    } else {
      assert l'.a + "" == l'.a && l.a + "" == l.a;
    }
  }

  /** One character of the first scan. */
  method Step(state: State, nomL: nat, zeroes: nat, c: char, ghost l: Literal) returns (ok: bool, state': State, nomL': nat, zeroes': nat)
    requires Scanned(state, nomL, zeroes, l) || state == S5
    ensures ok <==> IsDigit(c) || (c == '.' && state in {S0, S1}) || (c == '/' && state in {S0, S1})
    ensures ok ==> (state' == S5 <==> state == S5 || c == '/')
    ensures ok && state' != S5 ==> Scanned(state', nomL', zeroes', Longer(l, c))
  {
    hide StripLeading, Trailing, Longer;
    if state != S5 && (IsDigit(c) || (c == '.' && l.Whole?)) {
      LongerFacts(l, c);
      StripMore(Digits(l), c);
    }
    ok, state', nomL', zeroes' := true, state, nomL, zeroes;
    if state == S0 && c == '0' {
    } else if state == S0 && IsPosDig(c) {
      nomL', state' := nomL + 1, S1;
    } else if state == S0 && c == '.' {
      state' := S4;
    } else if state == S0 && c == '/' {
      state' := S5;
    } else if state == S1 && IsDigit(c) {
      nomL', state' := nomL + 1, S1;
    } else if state == S1 && c == '.' {
      state' := S2;
    } else if state == S1 && c == '/' {
      state' := S5;
    } else if state == S2 && c == '0' {
      zeroes', state' := zeroes + 1, S3;
    } else if state == S2 && IsPosDig(c) {
      nomL', state' := nomL + 1, S2;
    } else if state == S3 && c == '0' {
      zeroes', state' := zeroes + 1, S3;
    } else if state == S3 && IsPosDig(c) {
      nomL', zeroes', state' := nomL + zeroes + 1, 0, S2;
    } else if state == S4 && c == '0' {
      state' := S4;
    } else if state == S4 && IsPosDig(c) {
      nomL', state' := nomL + 1, S2;
    } else if state == S5 && IsDigit(c) {
      state' := S5;
    } else {
      ok := false;
    }
  }

  lemma TextSeparator(l: Literal)
    requires IsLiteral(l)
    ensures OneSeparator(Text(l), '.') && ('.' in Text(l) <==> l.Point?)
  {
    var s := Text(l);
    if l.Point? {
      assert s[|l.a|] == '.';
      assert forall i {:trigger s[i]} :: 0 <= i < |s| && i != |l.a| ==> IsDigit(s[i]) by {
        assert forall i {:trigger s[i]} :: |l.a| < i < |s| ==> s[i] == l.b[i - |l.a| - 1];
      }
    }
  }

  /** No literal and no fraction goes on like this. */
  lemma Rejected(flo: string, i: nat, point: bool, slash: bool)
    requires i < |flo| && !IsDigit(flo[i]) && (!point && !slash ==> flo[i] != '.' && flo[i] != '/')
    requires (point ==> '.' in flo[..i]) && (slash ==> '/' in flo[..i])
    ensures !IsDecimal(flo) && !IsFraction(flo)
  {
    if point {
      var j :| 0 <= j < i && flo[..i][j] == '.';
      assert flo[j] == '.';
    } else if slash {
      var j :| 0 <= j < i && flo[..i][j] == '/';
      assert flo[j] == '/';
    }
  }

  lemma SlashOn(s: string, c: char)
    requires (OneSeparator(s, '/') && '/' in s && IsDigit(c)) || (OneSeparator(s, '.') && '.' !in s && c == '/')
    ensures OneSeparator(s + [c], '/') && '/' in s + [c]
  {
    var t := s + [c];
    assert t[|s|] == c;
    assert forall i {:trigger t[i]} :: 0 <= i < |s| ==> t[i] == s[i] && s[i] in s;
    if '/' in s {
      var j :| 0 <= j < |s| && s[j] == '/';
      assert t[j] == '/';
    }
  }

  /** Accepts literals and fractions, and counts a literal's digits that matter. */
  method FirstScan(flo: string) returns (accepted: bool, nomL: nat, isFrac: bool, ghost l: Literal)
    ensures accepted <==> IsDecimal(flo) || IsFraction(flo)
    ensures accepted ==> (isFrac <==> IsFraction(flo))
    ensures accepted && !isFrac ==> IsLiteral(l) && flo == Text(l) && nomL == |Numerator(l)|
  {
    hide IsDecimal, IsFraction, OneSeparator, Numerator, Trailing, StripLeading;
    nomL, isFrac, l := 0, false, Whole("");
    var state, zeroes := S0, 0;
    NothingScanned();
    for i := 0 to |flo|
      invariant state != S5 ==> Scanned(state, nomL, zeroes, l) && flo[..i] == Text(l)
      invariant state == S5 ==> OneSeparator(flo[..i], '/') && '/' in flo[..i]
      invariant isFrac <==> state == S5
    {
      var c := flo[i];
      assert flo[..i + 1] == flo[..i] + [c];
      if state != S5 { TextSeparator(l); }
      var ok, state', nomL', zeroes' := Step(state, nomL, zeroes, c, l);
      if !ok {
        Rejected(flo, i, state in {S2, S3, S4}, state == S5);
        return false, 0, false, l;
      }
      if state' == S5 {
        SlashOn(flo[..i], c);
        isFrac := true;
      } else {
        LongerFacts(l, c);
        l := Longer(l, c);
      }
      state, nomL, zeroes := state', nomL', zeroes';
    }
    assert flo[..|flo|] == flo;
    accepted := true;
    if state == S5 {
      FractionOf(flo);
    } else {
      DecimalOf(flo, l);
      CountedDigits(state, nomL, zeroes, l);
    }
  }

  lemma NothingScanned()
    ensures Scanned(S0, 0, 0, Whole("")) && Text(Whole("")) == ""
  {
  }

  lemma FractionOf(s: string)
    requires OneSeparator(s, '/') && '/' in s
    ensures IsFraction(s)
  {
  }

  lemma DecimalOf(s: string, l: Literal)
    requires IsLiteral(l) && s == Text(l)
    ensures IsDecimal(s) && !IsFraction(s)
  {
    TextSeparator(l);
    assert forall i {:trigger s[i]} :: 0 <= i < |s| ==> s[i] != '/';
  }

  lemma CountedDigits(state: State, nomL: nat, zeroes: nat, l: Literal)
    requires Scanned(state, nomL, zeroes, l)
    ensures nomL == |Numerator(l)|
  {
    assert l.Whole? ==> Trailing(After(l)) == 0;
  }

  // ---------------------------------------------------------------------------
  // The second scan and the buffer

  /** One more than the number of digits after the point that stay. */
  method DenominatorLength(flo: string, ghost l: Literal) returns (denL: nat)
    requires IsLiteral(l) && flo == Text(l)
    ensures denL == Scale(l) + 1
  {
    denL := 1;
    var state, zeroes := 0, 0;
    for i := 0 to |flo|
      invariant if i <= |l.a| then state == 0 && denL == 1 && zeroes == 0
                else l.Point? && zeroes == Trailing(l.b[..i - |l.a| - 1]) && denL + zeroes == i - |l.a| && state == if zeroes == 0 then 1 else 2
    {
      if i > |l.a| {
        var b := l.b[..i - |l.a|];
        assert flo[i] == l.b[i - |l.a| - 1] && b[..|b| - 1] == l.b[..i - |l.a| - 1];
      }
      if state == 0 && IsDigit(flo[i]) {
      } else if state == 0 && flo[i] == '.' {
        state := 1;
      } else if state == 1 && IsPosDig(flo[i]) {
        denL := denL + 1;
      } else if state == 1 && flo[i] == '0' {
        zeroes, state := zeroes + 1, 2;
      } else if state == 2 && flo[i] == '0' {
        zeroes := zeroes + 1;
      } else if state == 2 && IsPosDig(flo[i]) {
        denL, zeroes, state := denL + zeroes + 1, 0, 1;
      }
    }
    assert l.Point? ==> l.b[..|flo| - |l.a| - 1] == l.b;
  }

  /** The first characters of a literal, without the point. */
  function Without(s: string): string {
    if s == "" then "" else Without(s[..|s| - 1]) + if s[|s| - 1] == '.' then "" else [s[|s| - 1]]
  }

  lemma {:induction false} WithoutPoint(s: string, t: string)
    requires AllDigits(t)
    ensures Without(s + t) == Without(s) + t
  {
    if t == "" {
      assert s + t == s && Without(s) + t == Without(s);
    } else {
      var r := t[..|t| - 1];
      assert (s + t)[..|s + t| - 1] == s + r;
      WithoutPoint(s, r);
      assert Without(s) + r + [t[|t| - 1]] == Without(s) + t;
    }
  }

  lemma WithoutText(l: Literal)
    requires IsLiteral(l)
    ensures Without(Text(l)) == Digits(l)
  {
    WithoutPoint("", l.a);
    assert "" + l.a == l.a;
    if l.Point? {
      var s := l.a + ".";
      assert s[..|s| - 1] == l.a;
      WithoutPoint(s, l.b);
      assert l.a + "" == l.a;
    } else {
      assert l.a + "" == l.a;
    }
  }

  /** What is copied from a part is the beginning of what is copied from all. */
  lemma {:induction false} WithoutPart(s: string, i: nat)
    requires i <= |s|
    ensures exists t {:trigger Without(s[..i]) + t} :: Without(s) == Without(s[..i]) + t
    decreases |s| - i
  {
    if i == |s| {
      assert s[..i] == s && Without(s) == Without(s[..i]) + "";
    } else {
      WithoutPart(s, i + 1);
      assert s[..i + 1][..i] == s[..i];
      var t :| Without(s) == Without(s[..i + 1]) + t;
      var x := if s[i] == '.' then "" else [s[i]];
      assert Without(s) == Without(s[..i]) + (x + t);
    }
  }

  /** The digits copied so far are the first digits of the numerator. */
  lemma CopiedPart(s: string, i: nat, ds: string)
    requires i <= |s| && ds == StripLeading(Without(s))
    ensures |StripLeading(Without(s[..i]))| <= |ds| && StripLeading(Without(s[..i])) == ds[..|StripLeading(Without(s[..i]))|]
  {
    WithoutPart(s, i);
    var t :| Without(s) == Without(s[..i]) + t;
    if StripLeading(Without(s[..i])) != "" { StripOn(Without(s[..i]), t); }
  }

  /** Copies the numerator's digits to the front of the buffer. */
  method CopyDigits(flo: string, nomL: nat, rat: array<char>, ghost l: Literal)
    requires IsLiteral(l) && flo == Text(l) && nomL == |Numerator(l)| <= rat.Length
    modifies rat
    ensures rat[..nomL] == Numerator(l)
  {
    hide Numerator, Trailing, StripLeading, Without;
    var i, j, state := 0, 0, -1;
    WithoutText(l);
    NumeratorPart(l, nomL);
    NothingCopied(flo);
    while j < nomL
      invariant i <= |flo| && j <= nomL && j == |StripLeading(Without(flo[..i]))| && rat[..j] == StripLeading(Without(flo[..i]))
      invariant state == (if j == 0 then -1 else 0)
      decreases |flo| - i
    {
      CopiedMore(flo, i, StripLeading(Digits(l)));
      if state == -1 && flo[i] != '.' && flo[i] != '0' {
        rat[j] := flo[i];
        j, state := j + 1, 0;
      } else if state == -1 && flo[i] == '.' {
      } else if state == -1 && flo[i] == '0' {
      } else if state == 0 && flo[i] != '.' {
        rat[j] := flo[i];
        j := j + 1;
      } else if state == 0 && flo[i] == '.' {
      }
      i := i + 1;
    }
    CopiedPart(flo, i, StripLeading(Digits(l)));
  }

  /** Numerator, slash, one, zeros and the end marker: they fill the buffer exactly. */
  method Render(flo: string, nomL: nat, denL: nat, ghost l: Literal) returns (rat: array<char>)
    requires IsLiteral(l) && flo == Text(l) && nomL == |Numerator(l)| > 0 && denL == Scale(l) + 1
    ensures fresh(rat) && rat.Length == nomL + denL + 2
    ensures rat[..] == Numerator(l) + "/1" + Zeros(denL - 1) + [0 as char]
  {
    hide Numerator, Trailing, Text;
    rat := new char[nomL + denL + 2];
    CopyDigits(flo, nomL, rat, l);
    rat[nomL] := '/';
    rat[nomL + 1] := '1';
    var j := nomL + 2;
    for k := 0 to denL - 1
      invariant j == nomL + 2 + k && rat[..j] == Numerator(l) + "/1" + Zeros(k)
    {
      rat[j] := '0';
      j := j + 1;
    }
    rat[j] := 0 as char;
  }

  lemma NumeratorPart(l: Literal, nomL: nat)
    requires nomL == |Numerator(l)|
    ensures nomL <= |StripLeading(Digits(l))| && Numerator(l) == StripLeading(Digits(l))[..nomL]
  {
  }

  lemma NothingCopied(s: string)
    ensures StripLeading(Without(s[..0])) == ""
  {
  }

  /** One more character, if there is one to come. */
  lemma CopiedMore(s: string, i: nat, ds: string)
    requires i <= |s| && ds == StripLeading(Without(s)) && |StripLeading(Without(s[..i]))| < |ds|
    ensures i < |s|
    ensures var x := StripLeading(Without(s[..i]));
            StripLeading(Without(s[..i + 1])) == if s[i] == '.' || (x == "" && s[i] == '0') then x else x + [s[i]]
  {
    assert s[..|s|] == s;
    assert s[..i + 1][..i] == s[..i];
    var w := Without(s[..i]);
    assert w + "" == w;
    StripMore(w, s[i]);
  }

  // ---------------------------------------------------------------------------
  // The conversion

  /** What is handed on to be read as a fraction in lowest terms, with its sign; or the error. */
  datatype Conversion = Refused | Given(text: string, negative: bool)

  predicate Negative(flo: string) {
    flo != "" && flo[0] == '-'
  }

  function Unsigned(flo: string): string {
    if Negative(flo) then flo[1..] else flo
  }

  /** A text is that of one literal only. */
  lemma TextInjective(k: Literal, l: Literal)
    requires IsLiteral(k) && IsLiteral(l) && Text(k) == Text(l)
    ensures k == l
  {
    TextSeparator(k);
    TextSeparator(l);
    if k.Point? {
      var s := Text(k);
      assert s[|k.a|] == '.' && s[|l.a|] == '.';
      assert k.a == s[..|k.a|] == l.a && k.b == s[|k.a| + 1..] == l.b;
    }
  }

  /** Literals and fractions, perhaps with a minus sign, are accepted. A literal other than zero becomes its
      digits over a power of ten, which is exactly its value. */
  method StringToRational(flo: string) returns (res: Conversion)
    ensures res.Refused? <==> !IsDecimal(Unsigned(flo)) && !IsFraction(Unsigned(flo))
    ensures IsFraction(Unsigned(flo)) ==> res == Given(Unsigned(flo), Negative(flo))
    ensures forall l {:trigger Text(l)} :: IsLiteral(l) && Unsigned(flo) == Text(l) ==>
              if StripLeading(Digits(l)) == "" then res == Given("0", false)
              else res == Given(Numerator(l) + "/1" + Zeros(Scale(l)), Negative(flo))
  {
    hide IsDecimal, IsFraction, Numerator, Trailing, StripLeading, Without, Text;
    var isNeg, rest := Negative(flo), Unsigned(flo);
    var accepted, nomL, isFrac, l := FirstScan(rest);
    forall k | IsLiteral(k) && rest == Text(k) ensures accepted && !isFrac && k == l {
      DecimalOf(rest, k);
      TextInjective(k, l);
    }
    if !accepted {
      return Refused;
    }
    if isFrac {
      return Given(rest, isNeg);
    }
    NumeratorEmpty(l);
    res := Given("0", false);
    if nomL > 0 {
      var denL := DenominatorLength(rest, l);
      var rat := Render(rest, nomL, denL, l);
      res := Given(rat[..rat.Length - 1], isNeg);
    }
  }

  lemma NumeratorEmpty(l: Literal)
    requires IsLiteral(l)
    ensures Numerator(l) == "" <==> StripLeading(Digits(l)) == ""
  {
    hide Digits, Trailing, StripLeading;
    if StripLeading(Digits(l)) != "" { NumeratorIs(l); }
  }
}
