/** Forward mode: the AutoDiff driver of src/ad.py. A function is evaluated on
    a vector of duals (the tracer); every operator dispatches on whether each
    operand is a plain number or a dual, exactly as Python's binary and
    reflected operator protocol does for DualNumber. */
module ForwardMode {
  import opened Wrappers
  import opened Arith
  import Duals
  import opened Expressions

  /** A run-time value inside the traced function: a plain number or a dual. */
  datatype Traced = Plain(c: real) | Tracer(d: Duals.Dual)

  /** What `.real` reads: a plain number's real part is the number itself. */
  function Primal(v: Traced): real {
    match v
    case Plain(c) => c
    case Tracer(d) => d.re
  }

  /** What the Jacobian driver reads from an output: the dual part, or 0 for an
      output that is not a dual. */
  function Sensitivity(v: Traced): real {
    match v
    case Plain(_) => 0.0
    case Tracer(d) => d.du
  }

  /** One binary operator on run-time values. None is the ZeroDivisionError
      Python raises for a zero divisor; c / x with a dual x never raises, as it
      goes through x ** -1. */
  function Combine(op: BinOp, u: Traced, w: Traced): Option<Traced> {
    match u
    case Plain(p) => CombinePlain(op, p, w)
    case Tracer(a) => CombineDual(op, a, w)
  }

  /** A plain number on the left: plain arithmetic, or the dual's reflected operator. */
  function CombinePlain(op: BinOp, p: real, w: Traced): Option<Traced> {
    match w
    case Plain(q) =>
      if op == Over && q == 0.0 then None else Some(Plain(ValueRule(op, p, q)))
    case Tracer(b) =>
      Some(Tracer(match op
        case Plus => Duals.RAdd(p, b)
        case Minus => Duals.RSub(p, b)
        case Times => Duals.RMul(p, b)
        case Over => Duals.RDiv(p, b)))
  }

  /** A dual on the left: the dual's operator, with a plain or dual right operand. */
  function CombineDual(op: BinOp, a: Duals.Dual, w: Traced): Option<Traced> {
    match w
    case Plain(q) =>
      if op == Over && q == 0.0 then None
      else Some(Tracer(match op
        case Plus => Duals.AddConst(a, q)
        case Minus => Duals.SubConst(a, q)
        case Times => Duals.MulConst(a, q)
        case Over => Duals.DivConst(a, q)))
    case Tracer(b) =>
      if op == Over && b.re == 0.0 then None
      else Some(Tracer(match op
        case Plus => Duals.Add(a, b)
        case Minus => Duals.Sub(a, b)
        case Times => Duals.Mul(a, b)
        case Over => Duals.Div(a, b)))
  }

  /** Runs e on the tracer. None is an exception: an input index beyond the
      tracer (IndexError) or a division by zero. Powers and c / x use the
      corrected power Duals.Pow; the source's log form loses the derivative at
      a negative value (Duals.PowAsWritten, Duals.RDivAsWritten). */
  function Eval(e: Expr, tracer: seq<Duals.Dual>): Option<Traced> {
    match e
    case Var(i) => if i < |tracer| then Some(Tracer(tracer[i])) else None
    case Const(c) => Some(Plain(c))
    case Bin(op, a, b) =>
      var u := Eval(a, tracer);
      if u.None? then None
      else
        var w := Eval(b, tracer);
        if w.None? then None else Combine(op, u.value, w.value)
    case Neg(a) =>
      var u := Eval(a, tracer);
      if u.None? then None
      else Some(match u.value
        case Plain(c) => Plain(-c)
        case Tracer(d) => Tracer(Duals.Neg(d)))
    case PowNat(a, n) =>
      var u := Eval(a, tracer);
      if u.None? then None
      else Some(match u.value
        case Plain(c) => Plain(NatPow(c, n))
        case Tracer(d) => Tracer(Duals.Pow(d, n)))
  }

  // ---- one operator agrees with the calculus rules ----

  lemma PlusAgrees(u: Traced, w: Traced)
    ensures Combine(Plus, u, w).Some?
    ensures Primal(Combine(Plus, u, w).value) == Primal(u) + Primal(w)
    ensures Sensitivity(Combine(Plus, u, w).value) == Sensitivity(u) + Sensitivity(w)
  {
  }

  lemma MinusAgrees(u: Traced, w: Traced)
    ensures Combine(Minus, u, w).Some?
    ensures Primal(Combine(Minus, u, w).value) == Primal(u) - Primal(w)
    ensures Sensitivity(Combine(Minus, u, w).value) == Sensitivity(u) - Sensitivity(w)
  {
  }

  lemma TimesAgrees(u: Traced, w: Traced)
    ensures Combine(Times, u, w).Some?
    ensures Primal(Combine(Times, u, w).value) == ValueRule(Times, Primal(u), Primal(w))
    ensures Sensitivity(Combine(Times, u, w).value)
         == DerivRule(Times, Primal(u), Primal(w), Sensitivity(u), Sensitivity(w))
  {
    match u {
      case Plain(p) =>
        match w {
          case Plain(q) => ConstantRules(Times, p, q);
          case Tracer(b) => ProductRuleCases(p, b.re, 0.0, b.du);
        }
      case Tracer(a) =>
        match w {
          case Plain(q) => ProductRuleCases(a.re, q, a.du, 0.0);
          case Tracer(b) =>
        }
    }
  }

  lemma OverAgrees(u: Traced, w: Traced)
    requires Primal(w) != 0.0
    ensures Combine(Over, u, w).Some?
    ensures Primal(Combine(Over, u, w).value) == Primal(u) / Primal(w)
    ensures Sensitivity(Combine(Over, u, w).value)
         == DerivRule(Over, Primal(u), Primal(w), Sensitivity(u), Sensitivity(w))
  {
    match u {
      case Plain(p) =>
        match w {
          case Plain(q) => OverPlainPlain(p, q);
          case Tracer(b) => OverPlainDual(p, b);
        }
      case Tracer(a) =>
        match w {
          case Plain(q) => OverDualPlain(a, q);
          case Tracer(b) => OverDualDual(a, b);
        }
    }
  }

  lemma OverPlainPlain(p: real, q: real)
    requires q != 0.0
    ensures Combine(Over, Plain(p), Plain(q)) == Some(Plain(p / q))
    ensures DerivRule(Over, p, q, 0.0, 0.0) == 0.0
  {
    QuotientRuleCases(p, q, 0.0, 0.0);
  }

  lemma OverPlainDual(p: real, b: Duals.Dual)
    requires b.re != 0.0
    ensures Combine(Over, Plain(p), Tracer(b)) == Some(Tracer(Duals.RDiv(p, b)))
    ensures Duals.RDiv(p, b).re == p / b.re
    ensures Duals.RDiv(p, b).du == DerivRule(Over, p, b.re, 0.0, b.du)
  {
    QuotientRuleCases(p, b.re, 0.0, b.du);
    Duals.ReflectedQuotient(p, b);
  }

  lemma OverDualPlain(a: Duals.Dual, q: real)
    requires q != 0.0
    ensures Combine(Over, Tracer(a), Plain(q)) == Some(Tracer(Duals.DivConst(a, q)))
    ensures Duals.DivConst(a, q).du == DerivRule(Over, a.re, q, a.du, 0.0)
  {
    QuotientRuleCases(a.re, q, a.du, 0.0);
  }

  lemma OverDualDual(a: Duals.Dual, b: Duals.Dual)
    requires b.re != 0.0
    ensures Duals.Div(a, b).du == DerivRule(Over, a.re, b.re, a.du, b.du)
  {
  }

  /** Every operator computes the value rule on the values and the derivative
      rule on the values and derivatives, whatever mix of plain numbers and
      duals it is given. */
  lemma CombineAgrees(op: BinOp, u: Traced, w: Traced)
    requires op == Over ==> Primal(w) != 0.0
    ensures Combine(op, u, w).Some?
    ensures Primal(Combine(op, u, w).value) == ValueRule(op, Primal(u), Primal(w))
    ensures Sensitivity(Combine(op, u, w).value)
         == DerivRule(op, Primal(u), Primal(w), Sensitivity(u), Sensitivity(w))
  {
    match op
    case Plus => PlusAgrees(u, w);
    case Minus => MinusAgrees(u, w);
    case Times => TimesAgrees(u, w);
    case Over => OverAgrees(u, w);
  }

  /** The tracer carries the point x in its real parts. */
  predicate Carries(tracer: seq<Duals.Dual>, x: seq<real>) {
    |tracer| == |x| && forall j | 0 <= j < |x| :: tracer[j].re == x[j]
  }

  /** The tracer's dual parts select coordinate i. */
  predicate SelectsInput(tracer: seq<Duals.Dual>, i: nat) {
    forall j | 0 <= j < |tracer| :: tracer[j].du == (if j == i then 1.0 else 0.0)
  }

  /** What ForwardAgrees promises for one expression. */
  predicate AgreesAt(e: Expr, x: seq<real>, tracer: seq<Duals.Dual>, i: nat)
    requires Regular(e, x)
  {
    && Eval(e, tracer).Some?
    && Primal(Eval(e, tracer).value) == Value(e, x)
    && (SelectsInput(tracer, i) ==> Sensitivity(Eval(e, tracer).value) == Deriv(e, x, i))
  }

  lemma BinStep(op: BinOp, a: Expr, b: Expr, x: seq<real>, tracer: seq<Duals.Dual>, i: nat)
    requires Regular(Bin(op, a, b), x)
    requires AgreesAt(a, x, tracer, i) && AgreesAt(b, x, tracer, i)
    ensures AgreesAt(Bin(op, a, b), x, tracer, i)
  {
    var u, w := Eval(a, tracer).value, Eval(b, tracer).value;
    CombineAgrees(op, u, w);
    assert Eval(Bin(op, a, b), tracer) == Combine(op, u, w);
  }

  lemma NegStep(a: Expr, x: seq<real>, tracer: seq<Duals.Dual>, i: nat)
    requires Regular(Neg(a), x) && AgreesAt(a, x, tracer, i)
    ensures AgreesAt(Neg(a), x, tracer, i)
  {
  }

  lemma PowStep(a: Expr, n: nat, x: seq<real>, tracer: seq<Duals.Dual>, i: nat)
    requires Regular(PowNat(a, n), x) && AgreesAt(a, x, tracer, i)
    ensures AgreesAt(PowNat(a, n), x, tracer, i)
  {
    if Value(a, x) == 0.0 {
      ZeroPowers(n);
      ZeroPowers(n - 1);
    }
  }

  /** Forward mode is correct: wherever e is regular, running it on a tracer
      that carries x raises nothing and yields the value of e at x, and if the
      tracer selects input i the dual part is the partial derivative by x[i]. */
  lemma {:induction false} ForwardAgrees(e: Expr, x: seq<real>, tracer: seq<Duals.Dual>, i: nat)
    requires Regular(e, x) && Carries(tracer, x)
    ensures Eval(e, tracer).Some?
    ensures Primal(Eval(e, tracer).value) == Value(e, x)
    ensures SelectsInput(tracer, i) ==> Sensitivity(Eval(e, tracer).value) == Deriv(e, x, i)
  {
    match e
    case Var(_) =>
    case Const(_) =>
    case Bin(op, a, b) =>
      ForwardAgrees(a, x, tracer, i);
      ForwardAgrees(b, x, tracer, i);
      BinStep(op, a, b, x, tracer, i);
    case Neg(a) =>
      ForwardAgrees(a, x, tracer, i);
      NegStep(a, x, tracer, i);
    case PowNat(a, n) =>
      ForwardAgrees(a, x, tracer, i);
      PowStep(a, n, x, tracer, i);
  }

  /** An output comes back as a plain number exactly when it is built from
      constants alone; so the 0 the Jacobian driver writes for a plain output
      is its derivative (Expressions.ClosedHasNoDerivative). */
  lemma {:induction false} PlainExactlyWhenClosed(e: Expr, tracer: seq<Duals.Dual>)
    requires Eval(e, tracer).Some?
    ensures Eval(e, tracer).value.Plain? <==> Closed(e)
  {
    match e
    case Var(_) =>
    case Const(_) =>
    case Bin(op, a, b) =>
      PlainExactlyWhenClosed(a, tracer);
      PlainExactlyWhenClosed(b, tracer);
    case Neg(a) =>
      PlainExactlyWhenClosed(a, tracer);
    case PowNat(a, _) =>
      PlainExactlyWhenClosed(a, tracer);
  }

  /** The 0 written for a plain output is the output's derivative. */
  lemma PlainOutputHasNoDerivative(e: Expr, x: seq<real>, tracer: seq<Duals.Dual>, i: nat)
    requires Regular(e, x) && Eval(e, tracer).Some? && Eval(e, tracer).value.Plain?
    ensures Sensitivity(Eval(e, tracer).value) == Deriv(e, x, i) == 0.0
  {
    PlainExactlyWhenClosed(e, tracer);
    ClosedHasNoDerivative(e, x, i);
  }

  // ---- the driver ----

  /** The tracer of pass i: x[i] with dual part 1, every other input with 0. */
  function OneHot(x: seq<real>, i: nat): (tracer: seq<Duals.Dual>)
    ensures Carries(tracer, x) && SelectsInput(tracer, i)
  {
    seq(|x|, j requires 0 <= j < |x| => Duals.Dual(x[j], if j == i then 1.0 else 0.0))
  }

  /** The tracer the value driver builds: every input with dual part 1. */
  function AllOnes(x: seq<real>): (tracer: seq<Duals.Dual>)
    ensures Carries(tracer, x)
  {
    seq(|x|, j requires 0 <= j < |x| => Duals.Dual(x[j], 1.0))
  }

  /** Builds pass i's tracer the way the driver does: the inputs before i, then
      input i with dual part 1, then the inputs after it. */
  method SeedPass(x: seq<real>, i: nat) returns (tracer: seq<Duals.Dual>)
    requires i < |x|
    ensures Carries(tracer, x) && SelectsInput(tracer, i)
  {
    tracer := [];
    var j := 0;
    while j < i
      invariant j <= i && |tracer| == j
      invariant forall k | 0 <= k < j :: tracer[k] == Duals.Dual(x[k], 0.0)
    {
      tracer := tracer + [Duals.Dual(x[j], 0.0)];
      j := j + 1;
    }
    tracer := tracer + [Duals.Dual(x[i], 1.0)];
    j := i + 1;
    while j < |x|
      invariant i < j <= |x| && |tracer| == j
      invariant forall k | 0 <= k < j :: tracer[k] == Duals.Dual(x[k], if k == i then 1.0 else 0.0)
    {
      tracer := tracer + [Duals.Dual(x[j], 0.0)];
      j := j + 1;
    }
  }

  /** Runs every output on one tracer; any exception aborts the whole call. */
  function EvalAll(outs: seq<Expr>, tracer: seq<Duals.Dual>): (r: Option<seq<Traced>>)
    ensures r.Some? <==> forall k | 0 <= k < |outs| :: Eval(outs[k], tracer).Some?
    ensures r.Some? ==>
      |r.value| == |outs| && forall k | 0 <= k < |outs| :: r.value[k] == Eval(outs[k], tracer).value
  {
    if |outs| == 0 then Some([])
    else
      var head := Eval(outs[0], tracer);
      var tail := EvalAll(outs[1..], tracer);
      if head.None? then None
      else if tail.None? then
        assert !Eval(outs[1..][0], tracer).Some? || exists k | 1 <= k < |outs| :: !Eval(outs[k], tracer).Some? by {
          var k :| 0 <= k < |outs[1..]| && !Eval(outs[1..][k], tracer).Some?;
          assert outs[1..][k] == outs[k + 1];
        }
        None
      else Some([head.value] + tail.value)
  }

  /** get_val: the values of all outputs on the all-ones tracer. */
  function GetVal(outs: seq<Expr>, x: seq<real>): (r: Option<seq<real>>)
    ensures r.Some? <==> forall k | 0 <= k < |outs| :: Eval(outs[k], AllOnes(x)).Some?
    ensures r.Some? ==>
      |r.value| == |outs| && forall k | 0 <= k < |outs| :: r.value[k] == Primal(Eval(outs[k], AllOnes(x)).value)
  {
    var vs := EvalAll(outs, AllOnes(x));
    if vs.None? then None
    else Some(seq(|outs|, k requires 0 <= k < |outs| => Primal(vs.value[k])))
  }

  /** The values the driver reports are the values of the outputs. */
  lemma GetValCorrect(outs: seq<Expr>, x: seq<real>)
    requires AllRegular(outs, x)
    ensures GetVal(outs, x) == Some(Values(outs, x))
  {
    forall k | 0 <= k < |outs|
      ensures Eval(outs[k], AllOnes(x)).Some? && Primal(Eval(outs[k], AllOnes(x)).value) == Value(outs[k], x)
    {
      ForwardAgrees(outs[k], x, AllOnes(x), 0);
    }
    assert GetVal(outs, x).value == Values(outs, x);
  }

  /** One pass's column: the dual part of every output, or 0 for a plain one. */
  function Column(outs: seq<Expr>, tracer: seq<Duals.Dual>): (r: Option<seq<real>>)
    ensures r.Some? <==> forall k | 0 <= k < |outs| :: Eval(outs[k], tracer).Some?
    ensures r.Some? ==>
      |r.value| == |outs| && forall k | 0 <= k < |outs| :: r.value[k] == Sensitivity(Eval(outs[k], tracer).value)
  {
    var vs := EvalAll(outs, tracer);
    if vs.None? then None
    else Some(seq(|outs|, k requires 0 <= k < |outs| => Sensitivity(vs.value[k])))
  }

  /** The transpose of |cols| columns of height m: row k is entry k of every column. */
  function Transpose(cols: seq<seq<real>>, m: nat): (rows: seq<seq<real>>)
    requires forall i | 0 <= i < |cols| :: |cols[i]| == m
    ensures |rows| == m
    ensures forall k | 0 <= k < m ::
      |rows[k]| == |cols| && forall i | 0 <= i < |cols| :: rows[k][i] == cols[i][k]
  {
    seq(m, k requires 0 <= k < m => seq(|cols|, i requires 0 <= i < |cols| => cols[i][k]))
  }

  /** The forward-mode Jacobian driver: one pass per input, each pass one
      column; the columns are stacked and transposed. With no inputs the numpy
      array is empty; the model returns no rows then. */
  method ForwardJacobian(outs: seq<Expr>, x: seq<real>) returns (J: Option<seq<seq<real>>>)
    ensures J.Some? <==> forall i, k | 0 <= i < |x| && 0 <= k < |outs| :: Eval(outs[k], OneHot(x, i)).Some?
    ensures J.Some? && |x| == 0 ==> J.value == []
    ensures J.Some? && |x| > 0 ==> |J.value| == |outs|
    ensures J.Some? && |x| > 0 ==> forall k | 0 <= k < |outs| ::
      |J.value[k]| == |x| && forall i | 0 <= i < |x| :: J.value[k][i] == Sensitivity(Eval(outs[k], OneHot(x, i)).value)
  {
    var cols: seq<seq<real>> := [];
    for i := 0 to |x|
      invariant |cols| == i
      invariant forall p, k | 0 <= p < i && 0 <= k < |outs| :: Eval(outs[k], OneHot(x, p)).Some?
      invariant forall p | 0 <= p < i ::
        |cols[p]| == |outs| && forall k | 0 <= k < |outs| :: cols[p][k] == Sensitivity(Eval(outs[k], OneHot(x, p)).value)
    {
      var tracer := SeedPass(x, i);
      assert tracer == OneHot(x, i);
      var col := Column(outs, tracer);
      if col.None? {
        return None;
      }
      cols := cols + [col.value];
    }
    if |x| == 0 {
      return Some([]);
    }
    J := Some(Transpose(cols, |outs|));
  }

  /** The Jacobian driver returns the Jacobian wherever every output is regular. */
  method ForwardJacobianCorrect(outs: seq<Expr>, x: seq<real>) returns (J: Option<seq<seq<real>>>)
    requires AllRegular(outs, x) && |x| > 0
    ensures J == Some(Jacobian(outs, x))
  {
    forall i, k | 0 <= i < |x| && 0 <= k < |outs|
      ensures Eval(outs[k], OneHot(x, i)).Some?
      ensures Sensitivity(Eval(outs[k], OneHot(x, i)).value) == Deriv(outs[k], x, i)
    {
      ForwardAgrees(outs[k], x, OneHot(x, i), i);
    }
    J := ForwardJacobian(outs, x);
    var JJ := Jacobian(outs, x);
    forall k | 0 <= k < |outs|
      ensures J.value[k] == JJ[k]
    {
      assert forall i | 0 <= i < |x| :: J.value[k][i] == JJ[k][i];
    }
    assert J.value == JJ;
  }

  /** forward_mode: the values and the Jacobian. */
  method Forward(outs: seq<Expr>, x: seq<real>) returns (vals: Option<seq<real>>, J: Option<seq<seq<real>>>)
    ensures AllRegular(outs, x) ==> vals == Some(Values(outs, x))
    ensures AllRegular(outs, x) && |x| > 0 ==> J == Some(Jacobian(outs, x))
  {
    vals := GetVal(outs, x);
    if AllRegular(outs, x) {
      GetValCorrect(outs, x);
    }
    if AllRegular(outs, x) && |x| > 0 {
      J := ForwardJacobianCorrect(outs, x);
    } else {
      J := ForwardJacobian(outs, x);
    }
  }
}
