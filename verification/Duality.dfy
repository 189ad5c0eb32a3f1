/** Exchanging the two sides of an interpolation problem negates the interpolant, if labels are exchanged as well:
    Pudlak's system is its own dual, and McMillan's and McMillan-prime's are each other's. */
module Duality {
  import opened Clauses
  import opened Proofs
  import opened Formulas
  import opened Interpolation
  import opened Strength

  function Flip(c: Colour): Colour {
    match c
    case A => B
    case B => A
    case AB => AB
  }

  /** What is on one side of the first problem is on the other side of the second. */
  ghost predicate Opposite(s1: Problem, s2: Problem) {
    && s1.assumed == {} && s2.assumed == {}
    && (forall v {:trigger VarClass(s1, v)} {:trigger VarClass(s2, v)} :: VarClass(s2, v) == Flip(VarClass(s1, v)))
    && forall id, v {:trigger s1.labels(id, v)} {:trigger s2.labels(id, v)} :: s2.labels(id, v) == Flip(s1.labels(id, v))
  }

  /** All leaves are original clauses, on different sides in the two problems. */
  ghost predicate LeavesOpposite(s1: Problem, s2: Problem, t: Tree) {
    match t
    case Leaf(id, _, ty) => ty == Orig && LeafInA(s1, id) != LeafInA(s2, id)
    case Res(_, pos, neg) => LeavesOpposite(s1, s2, pos) && LeavesOpposite(s1, s2, neg)
  }

  lemma {:induction false} BitsFlip(s1: Problem, s2: Problem, t: Tree)
    requires Opposite(s1, s2)
    ensures BitsOf(s2, t).a == BitsOf(s1, t).b && BitsOf(s2, t).b == BitsOf(s1, t).a
  {
    hide VarClass;
    match t
    case Leaf(id, c, _) =>
      forall v | v in Vars(c) ensures s2.labels(id, v) == Flip(s1.labels(id, v)) && VarClass(s2, v) == Flip(VarClass(s1, v)) {
      }
    case Res(p, pos, neg) =>
      BitsFlip(s1, s2, pos);
      BitsFlip(s1, s2, neg);
      assert VarClass(s2, p) == Flip(VarClass(s1, p));
  }

  lemma ColoursFlip(s1: Problem, s2: Problem, b1: Bits, b2: Bits, v: Var)
    requires Opposite(s1, s2) && b2.a == b1.b && b2.b == b1.a
    ensures ColouredA(s2, b2, v) == ColouredB(s1, b1, v) && ColouredB(s2, b2, v) == ColouredA(s1, b1, v)
    ensures !IsAssumedVar(s1, v) && !IsAssumedVar(s2, v)
  {
    assert VarClass(s2, v) == Flip(VarClass(s1, v));
  }

  lemma {:induction false} RestrictedFlip(s1: Problem, s2: Problem, b1: Bits, b2: Bits, c: seq<Lit>, wantB: bool)
    requires Opposite(s1, s2) && b2.a == b1.b && b2.b == b1.a
    ensures Restricted(s2, b2, c, !wantB) == Restricted(s1, b1, c, wantB)
  {
    hide VarClass, ColouredA, ColouredB;
    if c != [] {
      RestrictedFlip(s1, s2, b1, b2, c[1..], wantB);
      ColoursFlip(s1, s2, b1, b2, c[0].v);
    }
  }

  lemma {:induction false} OppositeItp(s1: Problem, s2: Problem, t: Tree, val: Valuation)
    requires Opposite(s1, s2) && LeavesOpposite(s1, s2, t)
    ensures Eval(Itp(s2, t), val) <==> !Eval(Itp(s1, t), val)
  {
    hide VarClass, Combine, ColouredA, ColouredB, Restricted, ClauseItp;
    BitsFlip(s1, s2, t);
    match t
    case Leaf(id, c, _) =>
      var inA := LeafInA(s1, id);
      RestrictedFlip(s1, s2, BitsOf(s1, t), BitsOf(s2, t), c, inA);
      ClauseItpMeans(s1, BitsOf(s1, t), c, inA, val);
      ClauseItpMeans(s2, BitsOf(s2, t), c, !inA, val);
    case Res(p, pos, neg) =>
      OppositeItp(s1, s2, pos, val);
      OppositeItp(s1, s2, neg, val);
      BitsFlip(s1, s2, pos);
      BitsFlip(s1, s2, neg);
      var j1, j2 := Join(BitsOf(s1, pos), BitsOf(s1, neg)), Join(BitsOf(s2, pos), BitsOf(s2, neg));
      ColoursFlip(s1, s2, j1, j2, p);
      CombineMeans(s1, j1, p, Itp(s1, pos), Itp(s1, neg), val);
      CombineMeans(s2, j2, p, Itp(s2, pos), Itp(s2, neg), val);
  }

  /** The same problem with A and B exchanged. */
  function Exchanged(s: Problem, all: set<nat>): Problem {
    s.(aMask := all - s.aMask)
  }

  /** The partitions are those of `all`, and every clause of the proof is an original one that belongs to one side. */
  ghost predicate OneSided(s: Problem, all: set<nat>, t: Tree) {
    match t
    case Leaf(id, _, ty) => ty == Orig && s.mask(id) <= all && ClassOf(s.mask(id), s.aMask) != AB
    case Res(_, pos, neg) => OneSided(s, all, pos) && OneSided(s, all, neg)
  }

  lemma ClassFlips(m: set<nat>, a: set<nat>, all: set<nat>)
    requires m <= all
    ensures ClassOf(m, all - a) == Flip(ClassOf(m, a))
  {
    assert m * (all - a) == m - a && m - (all - a) == m * a;
  }

  lemma {:induction false} LeavesExchange(s: Problem, all: set<nat>, t: Tree, l1: (Id, Var) -> Colour, l2: (Id, Var) -> Colour)
    requires OneSided(s, all, t)
    ensures LeavesOpposite(s.(labels := l1), Exchanged(s, all).(labels := l2), t)
  {
    match t
    case Leaf(id, _, _) => ClassFlips(s.mask(id), s.aMask, all);
    case Res(_, pos, neg) =>
      LeavesExchange(s, all, pos, l1, l2);
      LeavesExchange(s, all, neg, l1, l2);
  }

  lemma ProblemsOpposite(s: Problem, all: set<nat>, l1: (Id, Var) -> Colour, l2: (Id, Var) -> Colour)
    requires s.assumed == {} && forall v {:trigger s.part(v)} :: s.part(v) <= all
    requires forall id, v {:trigger l1(id, v)} {:trigger l2(id, v)} :: l2(id, v) == Flip(l1(id, v))
    ensures Opposite(s.(labels := l1), Exchanged(s, all).(labels := l2))
  {
    forall v ensures VarClass(Exchanged(s, all).(labels := l2), v) == Flip(VarClass(s.(labels := l1), v)) {
      ClassFlips(s.part(v), s.aMask, all);
    }
  }

  /** Exchanging A and B negates the interpolant of Pudlak's system, and takes McMillan's to the negation of
      McMillan-prime's. */
  lemma ExchangeNegates(s: Problem, all: set<nat>, t: Tree, val: Valuation)
    requires s.assumed == {} && OneSided(s, all, t) && forall v {:trigger s.part(v)} :: s.part(v) <= all
    ensures var x := Exchanged(s, all);
            && (Eval(Itp(x.(labels := Pudlak), t), val) <==> !Eval(Itp(s.(labels := Pudlak), t), val))
            && (Eval(Itp(x.(labels := McMillanPrime), t), val) <==> !Eval(Itp(s.(labels := McMillan), t), val))
            && (Eval(Itp(x.(labels := McMillan), t), val) <==> !Eval(Itp(s.(labels := McMillanPrime), t), val))
  {
    hide Itp, VarClass;
    var x := Exchanged(s, all);
    ProblemsOpposite(s, all, Pudlak, Pudlak);
    ProblemsOpposite(s, all, McMillan, McMillanPrime);
    ProblemsOpposite(s, all, McMillanPrime, McMillan);
    LeavesExchange(s, all, t, Pudlak, Pudlak);
    LeavesExchange(s, all, t, McMillan, McMillanPrime);
    LeavesExchange(s, all, t, McMillanPrime, McMillan);
    OppositeItp(s.(labels := Pudlak), x.(labels := Pudlak), t, val);
    OppositeItp(s.(labels := McMillan), x.(labels := McMillanPrime), t, val);
    OppositeItp(s.(labels := McMillanPrime), x.(labels := McMillan), t, val);
  }
}
