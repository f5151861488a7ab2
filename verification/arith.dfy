/** Integer powers of reals, the only exponentiation the model needs, and the
    field identities the derivative proofs rest on. Each identity is stated over
    plain reals so that callers only need to match terms. */
module Arith {

  /** r^n by repeated multiplication; 0^0 is 1, as for Python numbers. */
  function NatPow(r: real, n: nat): (p: real)
    ensures r != 0.0 ==> p != 0.0
  {
    if n == 0 then 1.0 else r * NatPow(r, n - 1)
  }

  /** r^n for any integer exponent; a negative exponent needs a non-zero base. */
  function IntPow(r: real, n: int): (p: real)
    requires r != 0.0 || n >= 0
    ensures r != 0.0 ==> p != 0.0
    ensures n >= 0 ==> p == NatPow(r, n)
  {
    if n >= 0 then NatPow(r, n) else 1.0 / NatPow(r, -n)
  }

  /** One more factor of the base raises the exponent by one, for every integer exponent. */
  lemma IntPowStep(r: real, n: int)
    requires r != 0.0
    ensures IntPow(r, n) == r * IntPow(r, n - 1)
  {
    if n <= 0 {
      var p := NatPow(r, -n);
      assert NatPow(r, 1 - n) == r * p;
      assert IntPow(r, n - 1) == 1.0 / (r * p);
      assert IntPow(r, n) == 1.0 / p by {
        if n == 0 {
          assert p == 1.0;
        }
      }
      assert r * (1.0 / (r * p)) == 1.0 / p;
    }
  }

  /** A positive power of zero is zero. */
  lemma ZeroPowers(n: nat)
    requires n >= 1
    ensures NatPow(0.0, n) == 0.0
    ensures IntPow(0.0, n) == 0.0
  {
  }

  /** The first two powers. */
  lemma SmallPowers(r: real)
    ensures IntPow(r, 0) == 1.0
    ensures IntPow(r, 1) == r
  {
    assert NatPow(r, 1) == r * NatPow(r, 0);
  }

  /** The reciprocal and its square, as integer powers. */
  lemma NegativePowers(r: real)
    requires r != 0.0
    ensures IntPow(r, -1) == 1.0 / r
    ensures IntPow(r, -2) == 1.0 / (r * r)
  {
    assert NatPow(r, 1) == r;
    assert NatPow(r, 2) == r * r;
  }

  /** The power rule at exponent -1: -1 * r^-2 * d == -(d / r^2). */
  lemma ReciprocalDerivative(r: real, d: real)
    requires r != 0.0
    ensures (-1.0) * (1.0 / (r * r)) * d == -(d / (r * r))
  {
  }

  /** (r * q) * (d * n / r) == n * q * d: the power rule cancels one factor of the base. */
  lemma CancelBase(r: real, q: real, d: real, n: real)
    requires r != 0.0
    ensures (r * q) * (d * n / r) == n * q * d
  {
    var s := d * n / r;
    assert s * r == d * n;
    calc {
      (r * q) * s;
      == q * (s * r);
      == q * (d * n);
    }
  }

  /** The power-rule step: with p == r * q, p d + (n q d) r == (n + 1) p d. */
  lemma PowerRuleStep(p: real, q: real, r: real, d: real, n: real)
    requires p == r * q
    ensures p * d + (n * q * d) * r == (n + 1.0) * p * d
  {
    assert (n * q * d) * r == n * (r * q) * d;
  }

  /** The quotient rule: the derivative of a / b from the derivatives da, db
      of its numerator and denominator, (da b - a db) / b^2. */
  function DivDerivative(a: real, b: real, da: real, db: real): real
    requires b != 0.0
  {
    (da * b - a * db) / (b * b)
  }

  /** The quotient rule written two ways: through the local partials 1/b and
      -a/b^2 of a / b, and as (a'b - ab')/b^2. */
  lemma QuotientRule(a: real, b: real, da: real, db: real)
    requires b != 0.0
    ensures (1.0 / b) * da + (-(a / (b * b))) * db == DivDerivative(a, b, da, db)
  {
  }

  /** The quotient rule with a constant divisor c collapses to a'/c. */
  lemma QuotientByConstant(a: real, da: real, c: real)
    requires c != 0.0
    ensures DivDerivative(a, c, da, 0.0) == da / c
    ensures (1.0 / c) * da == da / c
  {
  }

  /** The quotient rule applied to two constants gives 0. */
  lemma ZeroQuotient(a: real, b: real)
    requires b != 0.0
    ensures DivDerivative(a, b, 0.0, 0.0) == 0.0
  {
    QuotientOfConstant(a, b, 0.0);
  }

  /** The quotient rule with a constant numerator c: (c/b)' is -c b'/b^2. */
  lemma QuotientOfConstant(c: real, b: real, db: real)
    requires b != 0.0
    ensures DivDerivative(c, b, 0.0, db) == (-(c / (b * b))) * db
    ensures (1.0 / b) * c == c / b
    ensures (-(db / (b * b))) * c == DivDerivative(c, b, 0.0, db)
    ensures (-(db / (b * b))) * c == (-(c / (b * b))) * db
  {
  }

  /** Multiplying a quotient back by its divisor cancels, also inside the
      quotient rule. */
  lemma ProductQuotient(a: real, da: real, b: real, db: real)
    requires b != 0.0
    ensures (a / b) * b == a
    ensures (a / b) * db + DivDerivative(a, b, da, db) * b == da
  {
  }

  /** One step of the backward pass, regrouped: adding the trace times the
      partial once for the child itself and once per path below it. */
  lemma Distribute(g: real, trace: real, p: real, own: real, below: real, rest: real)
    ensures (g + own * (trace * p)) + (trace * p) * below + trace * rest
         == g + trace * (p * (own + below) + rest)
  {
    assert own * (trace * p) + (trace * p) * below == trace * (p * (own + below));
  }
}
