/** Forward-mode values: the dual-number algebra of src/dual.py.
    A dual (re, du) carries a value and its derivative along one fixed seed
    direction. A plain number on either side of an operator acts as a dual with
    derivative 0. The float64 components are modelled as reals. */
module Duals {
  import opened Wrappers
  import opened Arith

  datatype Dual = Dual(re: real, du: real)

  /** A plain number seen as a dual: constants have no derivative. */
  function Lift(c: real): Dual {
    Dual(c, 0.0)
  }

  // ---- dual with dual, and dual with a plain number on the right ----

  function Add(a: Dual, b: Dual): Dual {
    Dual(a.re + b.re, a.du + b.du)
  }

  function AddConst(a: Dual, c: real): Dual {
    Dual(a.re + c, a.du)
  }

  function Sub(a: Dual, b: Dual): Dual {
    Dual(a.re - b.re, a.du - b.du)
  }

  function SubConst(a: Dual, c: real): Dual {
    Dual(a.re - c, a.du)
  }

  function Mul(a: Dual, b: Dual): Dual {
    Dual(a.re * b.re, a.re * b.du + a.du * b.re)
  }

  function MulConst(a: Dual, c: real): Dual {
    Dual(a.re * c, a.du * c)
  }

  function Div(a: Dual, b: Dual): Dual
    requires b.re != 0.0
  {
    Dual(a.re / b.re, DivDerivative(a.re, b.re, a.du, b.du))
  }

  function DivConst(a: Dual, c: real): Dual
    requires c != 0.0
  {
    Dual(a.re / c, a.du / c)
  }

  /** x ** n for an integer exponent n. A base whose value is 0 gives (0, 0)
      whatever n is, even n == 0: the documented special case that avoids log(0).
      Otherwise the source's log-form r^n * (log(r) * 0 + d * n / r), whose log
      term vanishes because a plain exponent carries derivative 0; the result is
      the power rule for every non-zero base. */
  function Pow(x: Dual, n: int): (r: Dual)
    ensures x.re == 0.0 ==> r == Dual(0.0, 0.0)
    ensures x.re != 0.0 ==> r.re == IntPow(x.re, n)
    ensures x.re != 0.0 ==> r.du == (n as real) * IntPow(x.re, n - 1) * x.du
  {
    if x.re == 0.0 then Dual(0.0, 0.0)
    else
      var p := IntPow(x.re, n);
      IntPowStep(x.re, n);
      CancelBase(x.re, IntPow(x.re, n - 1), x.du, n as real);
      Dual(p, p * (x.du * (n as real) / x.re))
  }

  /** The power operator as written: log(r) is NaN for a negative base and
      NaN * 0 is NaN, so the derivative of a negative base is lost. None stands
      for that NaN derivative. */
  function PowAsWritten(x: Dual, n: int): (r: Option<Dual>)
    ensures x.re < 0.0 ==> r == None
    ensures x.re >= 0.0 ==> r.Some? && r.value.re == (if x.re == 0.0 then 0.0 else IntPow(x.re, n))
  {
    if x.re == 0.0 then Some(Dual(0.0, 0.0))
    else if x.re < 0.0 then None
    else
      var p := IntPow(x.re, n);
      Some(Dual(p, p * (x.du * (n as real) / x.re)))
  }

  // ---- reflected operators: a plain number c on the left ----

  /** c + x delegates to x + c. */
  function RAdd(c: real, a: Dual): Dual {
    AddConst(a, c)
  }

  /** c - x is computed as -1 * x + c. */
  function RSub(c: real, a: Dual): Dual {
    AddConst(MulConst(a, -1.0), c)
  }

  /** c * x delegates to x * c. */
  function RMul(c: real, a: Dual): Dual {
    MulConst(a, c)
  }

  /** c / x is computed as x ** -1 * c, so it inherits the zero-base rule. */
  function RDiv(c: real, a: Dual): Dual {
    MulConst(Pow(a, -1), c)
  }

  /** c / x as written: x ** -1 goes through the log form, so a negative value
      loses its derivative here too. */
  function RDivAsWritten(c: real, a: Dual): (r: Option<Dual>)
    ensures a.re < 0.0 ==> r == None
    ensures a.re >= 0.0 ==> r == Some(RDiv(c, a))
  {
    var p := PowAsWritten(a, -1);
    if p.None? then None
    else
      PowAsWrittenOnNonNegativeBase(a, -1);
      Some(MulConst(p.value, c))
  }

  // ---- unary operators ----

  function Neg(a: Dual): Dual {
    Dual(-a.re, -a.du)
  }

  function Pos(a: Dual): Dual {
    Dual(a.re, a.du)
  }

  // ---- equality ----

  function Equal(a: Dual, b: Dual): bool {
    a.re == b.re && a.du == b.du
  }

  /** x == c (and, reflected, c == x): only a dual without derivative equals a number. */
  function EqualConst(a: Dual, c: real): bool {
    a.du == 0.0 && a.re == c
  }

  function NotEqual(a: Dual, b: Dual): bool {
    !Equal(a, b)
  }

  function NotEqualConst(a: Dual, c: real): bool {
    !EqualConst(a, c)
  }

  // ---- ordering: only the value component is compared ----

  datatype Relation = Less | AtMost | Greater | AtLeast

  function Holds(rel: Relation, a: real, b: real): bool {
    match rel
    case Less => a < b
    case AtMost => a <= b
    case Greater => a > b
    case AtLeast => a >= b
  }

  /** The operator Python asks of the right operand when the left one is a
      plain number: c < x is answered by x > c, and so on. */
  function Mirror(rel: Relation): Relation {
    match rel
    case Less => Greater
    case AtMost => AtLeast
    case Greater => Less
    case AtLeast => AtMost
  }

  function Compare(rel: Relation, a: Dual, b: Dual): bool {
    Holds(rel, a.re, b.re)
  }

  function CompareConst(rel: Relation, a: Dual, c: real): bool {
    Holds(rel, a.re, c)
  }

  /** c rel x, for a plain number c on the left. */
  function CompareReflected(rel: Relation, c: real, a: Dual): bool {
    CompareConst(Mirror(rel), a, c)
  }

  // ---- properties ----

  /** x ** -1 is the reciprocal, with derivative -d / r^2. */
  lemma PowReciprocal(x: Dual)
    requires x.re != 0.0
    ensures Pow(x, -1) == Dual(1.0 / x.re, -(x.du / (x.re * x.re)))
  {
    NegativePowers(x.re);
    ReciprocalDerivative(x.re, x.du);
  }

  /** A plain operand on the right behaves exactly like the dual it is promoted to. */
  lemma ConstantsArePromoted(a: Dual, c: real)
    ensures AddConst(a, c) == Add(a, Lift(c))
    ensures SubConst(a, c) == Sub(a, Lift(c))
    ensures MulConst(a, c) == Mul(a, Lift(c))
    ensures c != 0.0 ==> DivConst(a, c) == Div(a, Lift(c))
  {
    if c != 0.0 {
      QuotientByConstant(a.re, a.du, c);
    }
  }

  /** A plain operand on the left behaves like its promotion too, except that
      c / x with a zero-valued x gives (0, 0) through the power operator instead
      of dividing by zero. */
  lemma ReflectedOperators(c: real, a: Dual)
    ensures RAdd(c, a) == Add(Lift(c), a)
    ensures RSub(c, a) == Sub(Lift(c), a)
    ensures RMul(c, a) == Mul(Lift(c), a)
    ensures a.re != 0.0 ==> RDiv(c, a) == Div(Lift(c), a)
    ensures a.re == 0.0 ==> RDiv(c, a) == Dual(0.0, 0.0)
  {
    if a.re != 0.0 {
      PowReciprocal(a);
      QuotientOfConstant(c, a.re, a.du);
    }
  }

  /** c / x at a non-zero value, in the form the reverse-mode node records:
      value c/v and derivative -(c/v^2) times the operand's derivative. */
  lemma ReflectedQuotient(c: real, a: Dual)
    requires a.re != 0.0
    ensures RDiv(c, a) == Dual(c / a.re, -(c / (a.re * a.re)) * a.du)
  {
    PowReciprocal(a);
    QuotientOfConstant(c, a.re, a.du);
  }

  /** Subtraction undoes addition. */
  lemma AddSubInverse(a: Dual, b: Dual)
    ensures Sub(Add(a, b), b) == a
    ensures Add(Sub(a, b), b) == a
    ensures Add(a, Neg(a)) == Lift(0.0)
  {
  }

  /** Multiplying a quotient by its divisor gives back the dividend. */
  lemma MulDivInverse(a: Dual, b: Dual)
    requires b.re != 0.0
    ensures Mul(Div(a, b), b) == a
  {
    ProductQuotient(a.re, a.du, b.re, b.du);
  }

  /** Multiplication of duals is commutative, associative, distributes over
      addition and has Lift(1) as its unit: the duals form a commutative ring. */
  lemma MulRingLaws(a: Dual, b: Dual, c: Dual)
    ensures Mul(a, b) == Mul(b, a)
    ensures Mul(Mul(a, b), c) == Mul(a, Mul(b, c))
    ensures Mul(a, Add(b, c)) == Add(Mul(a, b), Mul(a, c))
    ensures Mul(a, Lift(1.0)) == a
  {
    assert (a.re * b.re) * c.du + (a.re * b.du + a.du * b.re) * c.re
        == a.re * (b.re * c.du + b.du * c.re) + a.du * (b.re * c.re);
    assert (a.re * b.re) * c.re == a.re * (b.re * c.re);
  }

  /** The power operator at a non-zero base, one exponent up, in terms of the
      power one exponent down. */
  lemma PowSucc(x: Dual, n: int)
    requires x.re != 0.0
    ensures Pow(x, n + 1) == Dual(x.re * IntPow(x.re, n), ((n as real) + 1.0) * IntPow(x.re, n) * x.du)
  {
    IntPowStep(x.re, n + 1);
    assert n + 1 - 1 == n;
  }

  /** The product rule applied to x ** n and x. */
  lemma MulByBase(x: Dual, n: int)
    requires x.re != 0.0
    ensures Mul(Pow(x, n), x)
         == Dual(IntPow(x.re, n) * x.re, IntPow(x.re, n) * x.du + ((n as real) * IntPow(x.re, n - 1) * x.du) * x.re)
  {
  }

  /** For a non-zero base, one more power is one more multiplication: the power
      operator agrees with repeated application of the product rule. */
  lemma PowIsRepeatedMul(x: Dual, n: int)
    requires x.re != 0.0
    ensures Pow(x, n + 1) == Mul(Pow(x, n), x)
    ensures Pow(x, 0) == Lift(1.0)
    ensures Pow(x, 1) == x
  {
    var r, d := x.re, x.du;
    var p, q := IntPow(r, n), IntPow(r, n - 1);
    PowSucc(x, n);
    MulByBase(x, n);
    IntPowStep(r, n);
    PowerRuleStep(p, q, r, d, n as real);
    SmallPowers(r);
  }

  /** Negation flips both components and unary plus copies both. */
  lemma SignOperators(a: Dual)
    ensures Neg(a) == MulConst(a, -1.0)
    ensures Neg(Neg(a)) == a
    ensures Pos(a) == a
  {
  }

  /** Equality is equality of both components; a plain number equals exactly its
      own promotion; != is the negation of ==. */
  lemma EqualityIsStructural(a: Dual, b: Dual, c: real)
    ensures Equal(a, b) <==> a == b
    ensures EqualConst(a, c) <==> a == Lift(c)
    ensures NotEqual(a, b) <==> a != b
    ensures NotEqualConst(a, c) <==> a != Lift(c)
  {
  }

  /** Orderings look only at the value component, and a plain number gives the
      same answer on either side as its promotion would. */
  lemma OrderReadsOnlyValues(rel: Relation, a: Dual, b: Dual, c: real, da: real, db: real)
    ensures Compare(rel, a, b) == Compare(rel, Dual(a.re, da), Dual(b.re, db))
    ensures Compare(rel, a, b) == Compare(Mirror(rel), b, a)
    ensures CompareConst(rel, a, c) == Compare(rel, a, Lift(c))
    ensures CompareReflected(rel, c, a) == Compare(rel, Lift(c), a)
  {
  }

  /** The power operator as written agrees with Pow on every non-negative base. */
  lemma PowAsWrittenOnNonNegativeBase(x: Dual, n: int)
    requires x.re >= 0.0
    ensures PowAsWritten(x, n) == Some(Pow(x, n))
  {
  }

  /** (-2, 3) ** 2: the source's log-form yields a NaN derivative, while the
      power rule gives 2 * (-2) * 3 = -12. Likewise 6 / (-2, 3), which goes
      through (-2, 3) ** -1: NaN as written, -6 * 3 / 4 = -4.5 by the quotient
      rule. */
  lemma PowAsWrittenLosesNegativeBase()
    ensures PowAsWritten(Dual(-2.0, 3.0), 2) == None
    ensures Pow(Dual(-2.0, 3.0), 2) == Dual(4.0, -12.0)
    ensures RDivAsWritten(6.0, Dual(-2.0, 3.0)) == None
    ensures RDiv(6.0, Dual(-2.0, 3.0)) == Dual(-3.0, -4.5)
  {
    assert IntPow(-2.0, 1) == -2.0;
    assert IntPow(-2.0, 2) == 4.0;
    PowReciprocal(Dual(-2.0, 3.0));
  }

  /** Concrete values pinned by the unit tests of the dual type. */
  lemma UnitTestValues()
    ensures AddConst(Dual(1.0, 2.0), 7.0) == Dual(8.0, 2.0)
    ensures Add(Dual(1.0, 2.0), Dual(2.0, 3.0)) == Dual(3.0, 5.0)
    ensures Sub(Dual(7.0, 4.0), Dual(2.0, 3.0)) == Dual(5.0, 1.0)
    ensures SubConst(Dual(7.0, 4.0), 3.5) == Dual(3.5, 4.0)
    ensures Mul(Dual(1.0, 2.0), Dual(2.0, 3.0)) == Dual(2.0, 7.0)
    ensures MulConst(Dual(1.0, 2.0), 1.5) == Dual(1.5, 3.0)
    ensures Div(Dual(1.0, 2.0), Dual(2.0, 3.0)) == Dual(0.5, 0.25)
    ensures DivConst(Dual(1.0, 2.0), 0.25) == Dual(4.0, 8.0)
    ensures Pow(Dual(2.0, 3.0), 4) == Dual(16.0, 96.0)
    ensures RSub(8.0, Dual(1.0, 2.0)) == Dual(7.0, -2.0)
    ensures RSub(-8.0, Dual(1.0, 2.0)) == Dual(-9.0, -2.0)
    ensures RMul(3.5, Dual(2.0, 3.0)) == Dual(7.0, 10.5)
    ensures RDiv(6.0, Dual(2.0, 3.0)) == Dual(3.0, -18.0 / 4.0)
    ensures CompareReflected(Less, -4.0, Dual(1.0, 2.0))
    ensures CompareReflected(AtLeast, 8.0, Dual(8.0, 9.0))
  {
    assert IntPow(2.0, 3) == 8.0;
    assert IntPow(2.0, 4) == 16.0;
    assert IntPow(2.0, -1) == 0.5;
    assert IntPow(2.0, -2) == 0.25;
  }
}
