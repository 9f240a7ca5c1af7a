/**
 What the operators compute.  The structured meaning and the blocks share them, so that both agree says
 nothing about them; these laws do, in terms of integers and of each other.
 */
module OperatorLaws {
  import opened Prelude
  import opened Structured
  import opened BasicBlocks

  predicate InRange(n: int) {
    -0x8000_0000 <= n < 0x8000_0000
  }

  predicate Congruent(a: int, b: int) {
    (a - b) % 0x1_0000_0000 == 0
  }

  // ----- addition, subtraction, multiplication ------------------------------------------------------------

  /** The result is the integer one as far as 32 bits hold it, and no other result would be. */
  lemma SumWraps(a: int, b: int, other: int)
    ensures var r := Apply(Add, I32(a), I32(b)); r.Some? && r.value.I32? && Wrapped(r.value.n, a + b, other)
  {
    WrapFits(a + b, other);
  }

  lemma DifferenceWraps(a: int, b: int, other: int)
    ensures var r := Apply(Sub, I32(a), I32(b)); r.Some? && r.value.I32? && Wrapped(r.value.n, a - b, other)
  {
    WrapFits(a - b, other);
  }

  lemma ProductWraps(a: int, b: int, other: int)
    ensures var r := Apply(Mul, I32(a), I32(b)); r.Some? && r.value.I32? && Wrapped(r.value.n, a * b, other)
  {
    WrapFits(a * b, other);
  }

  predicate Wrapped(result: int, exact: int, other: int) {
    && InRange(result) && Congruent(result, exact) && (InRange(exact) ==> result == exact)
    && (InRange(other) && Congruent(other, exact) ==> other == result)
  }

  lemma WrapFits(exact: int, other: int)
    ensures Wrapped(Wrap32(exact), exact, other)
  {
  }

  /** Subtraction undoes addition, also when the sum wraps. */
  lemma SubtractionUndoes(a: int, b: int)
    requires InRange(a) && InRange(b)
    ensures var sum := Apply(Add, I32(a), I32(b)); sum.Some? && Apply(Sub, sum.value, I32(b)) == Some(I32(a))
  {
  }

  // ----- division --------------------------------------------------------------------------------------------

  /** q and r make a, r is smaller than b, and r is zero or has a's sign. */
  predicate Divides(a: int, b: int, q: int, r: int) {
    a == b * q + r && Size(r) < Size(b) && (r == 0 || (r < 0 <==> a < 0))
  }

  function Size(n: int): nat {
    if n < 0 then -n else n
  }

  /** Undefined exactly for a zero divisor and the one quotient that does not fit. */
  lemma DivisionDefined(a: int, b: int)
    requires InRange(a) && InRange(b)
    ensures Apply(Div, I32(a), I32(b)).Some? <==> b != 0 && (a != -0x8000_0000 || b != -1)
    ensures Apply(Rem, I32(a), I32(b)).Some? <==> Apply(Div, I32(a), I32(b)).Some?
  {
  }

  /** Where they are defined, quotient and remainder are the only pair that divides, and the quotient fits. */
  lemma DivisionExact(a: int, b: int, q: int, r: int)
    requires InRange(a) && InRange(b) && Apply(Div, I32(a), I32(b)).Some?
    ensures var d, m := Apply(Div, I32(a), I32(b)), Apply(Rem, I32(a), I32(b));
            && m.Some? && d.value.I32? && m.value.I32? && InRange(d.value.n) && InRange(m.value.n)
            && (Divides(a, b, q, r) <==> q == d.value.n && r == m.value.n)
  {
    QuotientDivides(a, b);
    var q0 := Apply(Div, I32(a), I32(b)).value.n;
    if Divides(a, b, q, r) {
      OnlyOne(a, b, q, r, q0, a - b * q0);
    }
  }

  lemma QuotientDivides(a: int, b: int)
    requires InRange(a) && b != 0 && !(a == -0x8000_0000 && b == -1)
    ensures Divides(a, b, Quotient(a, b), a - b * Quotient(a, b)) && InRange(Quotient(a, b))
  {
    var n := if a >= 0 then a else -a;
    assert n == b * (n / b) + n % b;
    QuotientSmall(n, b);
    if a < 0 {
      assert b * Quotient(a, b) == -(b * (n / b));
    }
  }

  lemma QuotientSmall(n: nat, b: int)
    requires b != 0
    ensures Size(n / b) <= n && (Size(n / b) == n ==> n == 0 || Size(b) == 1)
    ensures n / b > 0 ==> b > 0
  {
    assert n == b * (n / b) + n % b;
    FactorSmall(n, b, n / b, n % b);
  }

  lemma FactorSmall(n: nat, b: int, q: int, rem: nat)
    requires b != 0 && n == b * q + rem && rem < Size(b)
    ensures Size(q) <= n && (Size(q) == n ==> n == 0 || Size(b) == 1)
    ensures q > 0 ==> b > 0
  {
    SizeOfProduct(b, q);
    if b * q < 0 {
      MultipleOf(b, q);
    }
    Scaled(Size(q), Size(b), 1);
    if Size(b) > 1 {
      Scaled(Size(q), Size(b), 2);
    }
  }

  lemma SizeOfProduct(b: int, k: int)
    ensures Size(b * k) == Size(b) * Size(k) == Size(k) * Size(b)
  {
    assert (-b) * k == -(b * k) == b * (-k) && (-b) * (-k) == b * k;
    if b >= 0 && k >= 0 {
      SignOfProduct(b, k);
    } else if b >= 0 {
      SignOfProduct(b, -k);
    } else if k >= 0 {
      SignOfProduct(-b, k);
    } else {
      SignOfProduct(-b, -k);
    }
  }

  lemma SignOfProduct(b: nat, k: nat)
    ensures b * k >= 0
  {
  }

  lemma OnlyOne(a: int, b: int, q1: int, r1: int, q2: int, r2: int)
    requires b != 0 && Divides(a, b, q1, r1) && Divides(a, b, q2, r2)
    ensures q1 == q2 && r1 == r2
  {
    assert b * (q1 - q2) == r2 - r1;
    assert Size(r2 - r1) < Size(b);
    MultipleOf(b, q1 - q2);
  }

  lemma MultipleOf(b: int, k: int)
    requires Size(b * k) < Size(b)
    ensures k == 0
  {
    SizeOfProduct(b, k);
    if k != 0 {
      Scaled(Size(b), Size(k), 1);
    }
  }

  // ----- comparisons -----------------------------------------------------------------------------------------

  predicate Holds(op: Op, x: Value, y: Value) {
    Apply(op, x, y) == Some(I1(true))
  }

  /** Comparing integers always gives a bool. */
  lemma ComparisonsDefined(op: Op, a: int, b: int)
    requires op.Lt? || op.Le? || op.Gt? || op.Ge? || op.Eq? || op.Ne?
    ensures var r := Apply(op, I32(a), I32(b)); r.Some? && r.value.I1?
  {
  }

  /** Exactly one of <, == and > holds, and the others are their negations. */
  lemma Trichotomy(a: int, b: int)
    ensures var x, y := I32(a), I32(b);
            && (Holds(Lt, x, y) || Holds(Eq, x, y) || Holds(Gt, x, y))
            && !(Holds(Lt, x, y) && Holds(Eq, x, y)) && !(Holds(Eq, x, y) && Holds(Gt, x, y))
            && !(Holds(Lt, x, y) && Holds(Gt, x, y))
            && (Holds(Ge, x, y) <==> !Holds(Lt, x, y)) && (Holds(Le, x, y) <==> !Holds(Gt, x, y))
            && (Holds(Ne, x, y) <==> !Holds(Eq, x, y)) && (Holds(Gt, x, y) <==> Holds(Lt, y, x))
  {
  }

  /** < is transitive, and adding 1 goes up everywhere but at the largest integer, where it wraps down. */
  lemma OrderCounts(a: int, b: int, c: int)
    requires InRange(a)
    ensures Holds(Lt, I32(a), I32(b)) && Holds(Lt, I32(b), I32(c)) ==> Holds(Lt, I32(a), I32(c))
    ensures var next := Apply(Add, I32(a), I32(1));
            next.Some? && if a == 0x7FFF_FFFF then Holds(Lt, next.value, I32(a)) else Holds(Lt, I32(a), next.value)
  {
  }

  /** == is equality, for integers and for bools; the two do not compare. */
  lemma EqualityExact(x: Value, y: Value)
    ensures Apply(Eq, x, y).Some? <==> (x.I32? <==> y.I32?)
    ensures Apply(Eq, x, y).Some? ==> (Holds(Eq, x, y) <==> x == y) && (Holds(Ne, x, y) <==> x != y)
  {
  }

  // ----- truth ---------------------------------------------------------------------------------------------------

  /** && and || of bools are conjunction and disjunction, and De Morgan holds between them. */
  lemma ConnectivesExact(a: bool, b: bool)
    ensures Holds(And, I1(a), I1(b)) <==> a && b
    ensures Holds(Or, I1(a), I1(b)) <==> a || b
    ensures Apply(And, I1(a), I1(b)).Some? && Apply(Or, I1(a), I1(b)).Some?
    ensures Apply(Or, I1(a), I1(b)) == Some(I1(!Holds(And, I1(!a), I1(!b))))
  {
  }

  /** A condition takes its first branch unless it is false or zero, in the meaning and in the blocks. */
  lemma BranchTaken(cond: Value, st: Store, fuel: nat, c: Config, yes: nat, no: nat)
    ensures var one, two := Then(Do(Lit(I32(1))), End), Then(Do(Lit(I32(2))), End);
            Eval(If(true, Lit(cond), one, two), st, fuel)
            == Val(if cond == I1(false) || cond == I32(0) then I32(2) else I32(1), st)
    ensures ExecTerminator(CBr(Const(cond), yes, no), c)
         == Jump(c, if cond == I1(false) || cond == I32(0) then no else yes)
  {
    var one, two := Then(Do(Lit(I32(1))), End), Then(Do(Lit(I32(2))), End);
    assert Step(one.first, st, fuel) == Val(I32(1), st) && Step(two.first, st, fuel) == Val(I32(2), st);
    assert Exec(one, st, fuel) == Val(I32(1), st) && Exec(two, st, fuel) == Val(I32(2), st);
    assert Leave(st, st) == st;
  }

  /** What an operator has no result for: a division that fails, or operands that do not fit, and which it was. */
  lemma FailureTold(op: Op, x: Value, y: Value, st: Store, fuel: nat, c: Config, dst: nat)
    requires Apply(op, x, y).None?
    ensures var why := if x.I32? && y.I32? then NoQuotient else IllFormed;
            && Eval(Bin(op, Lit(x), Lit(y)), st, fuel) == Fault(why)
            && ExecInstr(Compute(dst, op, Const(x), Const(y)), c) == Stuck(why)
    ensures x.I32? && y.I32? ==> op.Div? || op.Rem?
  {
  }
}
