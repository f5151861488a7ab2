/** The functions the drivers of src/ad.py differentiate. The source accepts any
    Python callable; the model fixes the language such callables are built from
    with the operators of the two modes: input coordinates, plain constants, the
    four arithmetic operators, negation and powers with a constant exponent.
    Value and Deriv give the mathematical meaning every mode is compared with. */
module Expressions {
  import opened Arith

  datatype BinOp = Plus | Minus | Times | Over

  datatype Expr =
    | Var(i: nat)               // x[i]
    | Const(c: real)            // a plain number
    | Bin(op: BinOp, a: Expr, b: Expr)
    | Neg(a: Expr)
    | PowNat(a: Expr, n: nat)   // a ** n with a plain non-negative exponent

  /** e is defined at the point x in the calculus sense: every input index is in
      range, no divisor is zero, and a power with a zero base has exponent 2 or
      more. The excluded zero-base powers, x ** 0 and x ** 1 at 0, are where
      the power rule and the modes' zero-base handling part; see the Agreement
      module. */
  predicate Regular(e: Expr, x: seq<real>)
    decreases e, 0
  {
    match e
    case Var(i) => i < |x|
    case Const(_) => true
    case Bin(op, a, b) => Regular(a, x) && Regular(b, x) && (op == Over ==> Value(b, x) != 0.0)
    case Neg(a) => Regular(a, x)
    case PowNat(a, n) => Regular(a, x) && (n >= 2 || Value(a, x) != 0.0)
  }

  /** The value of e at x. */
  function Value(e: Expr, x: seq<real>): real
    requires Regular(e, x)
    decreases e, 1
  {
    match e
    case Var(i) => x[i]
    case Const(c) => c
    case Bin(op, a, b) =>
      ValueRule(op, Value(a, x), Value(b, x))
    case Neg(a) => -Value(a, x)
    case PowNat(a, n) => NatPow(Value(a, x), n)
  }

  /** The partial derivative of e with respect to x[i] at x, by the textbook
      rules: sum, difference, product and quotient rules and the power rule. */
  function Deriv(e: Expr, x: seq<real>, i: nat): real
    requires Regular(e, x)
  {
    match e
    case Var(j) => if j == i then 1.0 else 0.0
    case Const(_) => 0.0
    case Bin(op, a, b) =>
      DerivRule(op, Value(a, x), Value(b, x), Deriv(a, x, i), Deriv(b, x, i))
    case Neg(a) => -Deriv(a, x, i)
    case PowNat(a, n) => (n as real) * IntPow(Value(a, x), n - 1) * Deriv(a, x, i)
  }

  /** The four arithmetic operators on numbers. */
  function ValueRule(op: BinOp, va: real, vb: real): real
    requires op == Over ==> vb != 0.0
  {
    match op
    case Plus => va + vb
    case Minus => va - vb
    case Times => va * vb
    case Over => va / vb
  }

  /** The sum, difference, product and quotient rules: the derivative of
      a op b from the operands' values va, vb and derivatives da, db. */
  function DerivRule(op: BinOp, va: real, vb: real, da: real, db: real): real
    requires op == Over ==> vb != 0.0
  {
    match op
    case Plus => da + db
    case Minus => da - db
    case Times => va * db + da * vb
    case Over => DivDerivative(va, vb, da, db)
  }

  /** Every output of a vector-valued function is regular at x. */
  predicate AllRegular(outs: seq<Expr>, x: seq<real>) {
    forall k | 0 <= k < |outs| :: Regular(outs[k], x)
  }

  /** The Jacobian: row k holds the partials of output k, one column per input. */
  function Jacobian(outs: seq<Expr>, x: seq<real>): (J: seq<seq<real>>)
    requires AllRegular(outs, x)
    ensures |J| == |outs|
    ensures forall k | 0 <= k < |outs| :: |J[k]| == |x|
  {
    seq(|outs|, k requires 0 <= k < |outs| && AllRegular(outs, x) =>
      seq(|x|, i requires 0 <= i < |x| => Deriv(outs[k], x, i)))
  }

  /** The values of all outputs at x. */
  function Values(outs: seq<Expr>, x: seq<real>): (v: seq<real>)
    requires AllRegular(outs, x)
    ensures |v| == |outs|
  {
    seq(|outs|, k requires 0 <= k < |outs| && AllRegular(outs, x) => Value(outs[k], x))
  }

  /** The quotient rule when one or both operands are constants. */
  lemma QuotientRuleCases(va: real, vb: real, da: real, db: real)
    requires vb != 0.0
    ensures DerivRule(Over, va, vb, 0.0, db) == (-(va / (vb * vb))) * db
    ensures DerivRule(Over, va, vb, da, 0.0) == da / vb
    ensures DerivRule(Over, va, vb, 0.0, 0.0) == 0.0
  {
    QuotientOfConstant(va, vb, db);
    QuotientByConstant(va, da, vb);
    ZeroQuotient(va, vb);
  }

  /** The product rule when one operand is a constant. */
  lemma ProductRuleCases(va: real, vb: real, da: real, db: real)
    ensures DerivRule(Times, va, vb, da, 0.0) == da * vb
    ensures DerivRule(Times, va, vb, 0.0, db) == db * va
    ensures ValueRule(Times, va, vb) == vb * va
  {
  }

  /** The combination rules of Deriv applied to two operands of derivative 0. */
  lemma ConstantRules(op: BinOp, va: real, vb: real)
    requires op == Over ==> vb != 0.0
    ensures DerivRule(op, va, vb, 0.0, 0.0) == 0.0
  {
    if op == Over {
      QuotientRuleCases(va, vb, 0.0, 0.0);
    }
  }

  /** An expression without inputs has derivative zero in every direction. */
  predicate Closed(e: Expr) {
    match e
    case Var(_) => false
    case Const(_) => true
    case Bin(_, a, b) => Closed(a) && Closed(b)
    case Neg(a) => Closed(a)
    case PowNat(a, _) => Closed(a)
  }

  lemma {:induction false} ClosedHasNoDerivative(e: Expr, x: seq<real>, i: nat)
    requires Regular(e, x) && Closed(e)
    ensures Deriv(e, x, i) == 0.0
  {
    match e
    case Const(_) =>
    case Bin(op, a, b) =>
      ClosedHasNoDerivative(a, x, i);
      ClosedHasNoDerivative(b, x, i);
      ConstantRules(op, Value(a, x), Value(b, x));
    case Neg(a) =>
      ClosedHasNoDerivative(a, x, i);
    case PowNat(a, n) =>
      ClosedHasNoDerivative(a, x, i);
  }
}
