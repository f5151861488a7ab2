/** The two drivers side by side, and concrete inputs on which the reverse
    driver as written departs from the Jacobian. */
module Agreement {
  import opened Wrappers
  import opened Arith
  import opened Expressions
  import ForwardMode
  import ReverseMode
  import Tapes
  import Duals

  /** Forward mode and reverse mode with the corrected Jacobian driver report
      the same values and the same Jacobian for every regular function of at
      least one input. reverse_mode as written (rw) agrees with them too when
      the function has other than one output and none of them is a bare input;
      on one output it raises. */
  method BothModes(outs: seq<Expr>, x: seq<real>)
    returns (fv: Option<seq<real>>, fJ: Option<seq<seq<real>>>, rv: Option<seq<real>>, rJ: Option<seq<seq<real>>>,
             rw: Option<(seq<real>, seq<seq<real>>)>)
    ensures AllRegular(outs, x) ==> fv == rv == Some(Values(outs, x))
    ensures AllRegular(outs, x) && |x| > 0 ==> fJ == rJ == Some(Jacobian(outs, x))
    ensures AllRegular(outs, x) && |x| > 0 && |outs| != 1 && (forall k | 0 <= k < |outs| :: !outs[k].Var?) ==>
      fv.Some? && fJ.Some? && rw == Some((fv.value, fJ.value))
    ensures |outs| == 1 ==> rw.None?
  {
    fv, fJ := ForwardMode.Forward(outs, x);
    rv, rJ := ReverseMode.Reverse(outs, x);
    rw := ReverseMode.ReverseAsWritten(outs, x);
  }

  /** f(x) = (x0, 1) at x = (3): the first row should be (1), but the
      unseeded backward pass from the root x0 itself finds no path and
      reports (0). */
  lemma SeedCounterexample()
    ensures Jacobian([Var(0), Const(1.0)], [3.0]) == [[1.0], [0.0]]
    ensures ReverseMode.ReverseJacobianAsWritten([Var(0), Const(1.0)], [3.0]) == Some([[0.0], [0.0]])
    ensures ReverseMode.ReverseJacobian([Var(0), Const(1.0)], [3.0]) == Some([[1.0], [0.0]])
  {
    var outs, x := [Var(0), Const(1.0)], [3.0];
    var t := Tapes.Roots(x);
    assert outs[1..] == [Const(1.0)] && outs[1..][1..] == [];
    assert ReverseMode.BuildAll(outs[1..][1..], 1, t) == Some(([], t));
    assert ReverseMode.Build(Const(1.0), 1, t) == Some((ReverseMode.Plain(1.0), t));
    assert ReverseMode.Build(Var(0), 1, t) == Some((ReverseMode.Ref(0), t));
    assert [ReverseMode.Plain(1.0)] + [] == [ReverseMode.Plain(1.0)];
    assert ReverseMode.BuildAll(outs[1..], 1, t) == Some(([ReverseMode.Plain(1.0)], t));
    assert [ReverseMode.Ref(0)] + [ReverseMode.Plain(1.0)] == [ReverseMode.Ref(0), ReverseMode.Plain(1.0)];
    assert ReverseMode.BuildAll(outs, 1, t) == Some(([ReverseMode.Ref(0), ReverseMode.Plain(1.0)], t));
    ReverseMode.NoPathUpward(t, 0, 0);
    var J := ReverseMode.ReverseJacobianAsWritten(outs, x).value;
    assert J[0] == [0.0] && J[1] == [0.0];
    assert J == [[0.0], [0.0]];
    ReverseMode.ReverseJacobianCorrect(outs, x);
    assert Jacobian(outs, x)[0] == [1.0] && Jacobian(outs, x)[1] == [0.0];
  }

  /** f(x) = (x0 * x0) at x = (3): one output sends the driver down the branch
      that raises, while the corrected driver reports (6). */
  lemma SingleOutputCounterexample()
    ensures Jacobian([Bin(Times, Var(0), Var(0))], [3.0]) == [[6.0]]
    ensures ReverseMode.ReverseJacobianAsWritten([Bin(Times, Var(0), Var(0))], [3.0]).None?
    ensures ReverseMode.ReverseJacobian([Bin(Times, Var(0), Var(0))], [3.0]) == Some([[6.0]])
  {
    var outs, x := [Bin(Times, Var(0), Var(0))], [3.0];
    assert Jacobian(outs, x)[0] == [6.0];
    ReverseMode.ReverseJacobianCorrect(outs, x);
  }

  /** x ** 1 at x = 0, outside the regular domain, as the second output
      beside a constant (so that the driver as written does not raise): forward
      mode takes the dual operator's zero-base special case and reports 0,
      reverse mode records the partial 1 * 0^0 = 1 and reports 1. */
  lemma ZeroBaseModesDiffer()
    ensures ForwardMode.Column([PowNat(Var(0), 1), Const(0.0)], ForwardMode.OneHot([0.0], 0)) == Some([0.0, 0.0])
    ensures ReverseMode.ReverseJacobianAsWritten([PowNat(Var(0), 1), Const(0.0)], [0.0]) == Some([[1.0], [0.0]])
  {
    var outs, x := [PowNat(Var(0), 1), Const(0.0)], [0.0];
    var tracer := ForwardMode.OneHot(x, 0);
    assert ForwardMode.Eval(outs[0], tracer) == Some(ForwardMode.Tracer(Duals.Dual(0.0, 0.0)));
    assert ForwardMode.Eval(outs[1], tracer) == Some(ForwardMode.Plain(0.0));
    assert ForwardMode.Column(outs, tracer).value == [0.0, 0.0];
    var t := Tapes.Roots(x);
    var n := Tapes.PowConstNode(t, 0, 1);
    var t' := Tapes.Push(t, n);
    SmallPowers(0.0);
    assert ReverseMode.Build(Var(0), 1, t) == Some((ReverseMode.Ref(0), t));
    assert ReverseMode.Build(outs[0], 1, t) == Some((ReverseMode.Ref(1), t'));
    assert outs[1..] == [Const(0.0)] && outs[1..][1..] == [];
    assert ReverseMode.BuildAll(outs[1..][1..], 1, t') == Some(([], t'));
    assert ReverseMode.Build(Const(0.0), 1, t') == Some((ReverseMode.Plain(0.0), t'));
    assert [ReverseMode.Plain(0.0)] + [] == [ReverseMode.Plain(0.0)];
    assert ReverseMode.BuildAll(outs[1..], 1, t') == Some(([ReverseMode.Plain(0.0)], t'));
    assert [ReverseMode.Ref(1)] + [ReverseMode.Plain(0.0)] == [ReverseMode.Ref(1), ReverseMode.Plain(0.0)];
    assert ReverseMode.BuildAll(outs, 1, t) == Some(([ReverseMode.Ref(1), ReverseMode.Plain(0.0)], t'));
    ReverseMode.RecordUnary(t, n, 0, 0);
    ReverseMode.RootAdjoint(t, 0, 0);
    assert ReverseMode.PathSum(t', 1, 0) == 1.0;
    var J := ReverseMode.ReverseJacobianAsWritten(outs, x).value;
    assert J[0] == [1.0] && J[1] == [0.0];
    assert J == [[1.0], [0.0]];
  }

  /** x ** 2 at x = -2, beside a constant: the power rule gives -4, which
      reverse mode as written reports and forward mode reports with the
      corrected power; as written, the forward pass's tracer (-2, 1) loses its
      derivative in the log form. */
  lemma NegativeBaseModesDiffer()
    ensures Duals.PowAsWritten(ForwardMode.OneHot([-2.0], 0)[0], 2) == None
    ensures ForwardMode.Column([PowNat(Var(0), 2), Const(0.0)], ForwardMode.OneHot([-2.0], 0)) == Some([-4.0, 0.0])
    ensures ReverseMode.ReverseJacobianAsWritten([PowNat(Var(0), 2), Const(0.0)], [-2.0]) == Some([[-4.0], [0.0]])
  {
    var outs, x := [PowNat(Var(0), 2), Const(0.0)], [-2.0];
    assert IntPow(-2.0, 1) == -2.0;
    assert AllRegular(outs, x);
    assert Deriv(outs[0], x, 0) == -4.0;
    assert Jacobian(outs, x) == [[-4.0], [0.0]] by {
      assert Jacobian(outs, x)[0] == [-4.0] && Jacobian(outs, x)[1] == [0.0];
    }
    ReverseMode.ReverseJacobianAsWrittenCorrect(outs, x);
    var tracer := ForwardMode.OneHot(x, 0);
    ForwardMode.ForwardAgrees(outs[0], x, tracer, 0);
    ForwardMode.ForwardAgrees(outs[1], x, tracer, 0);
    assert ForwardMode.Column(outs, tracer).value == [-4.0, 0.0];
  }

  /** The polynomial x ** 2 + 1 of the driver's unit tests. */
  const UnitPolynomial: seq<Expr> := [Bin(Plus, PowNat(Var(0), 2), Const(1.0))]

  /** Its value v^2 + 1 and derivative 2v, at every point, 0 included. */
  lemma UnitPolynomialMeaning(v: real)
    ensures AllRegular(UnitPolynomial, [v])
    ensures Values(UnitPolynomial, [v]) == [v * v + 1.0]
    ensures Jacobian(UnitPolynomial, [v]) == [[2.0 * v]]
  {
    var e := UnitPolynomial[0];
    SmallPowers(v);
    assert NatPow(v, 2) == v * v;
    assert Deriv(PowNat(Var(0), 2), [v], 0) == 2.0 * IntPow(v, 1) * 1.0;
    assert Deriv(e, [v], 0) == 2.0 * v;
    assert Jacobian(UnitPolynomial, [v])[0] == [2.0 * v];
  }

  /** The forward-mode values the driver's unit tests pin: value 1 and
      derivative 0 at 0, value 10 at 3, value 5 and derivative 4 at 2. */
  lemma ForwardUnitTestValues()
    ensures ForwardMode.GetVal(UnitPolynomial, [0.0]) == Some([1.0])
    ensures ForwardMode.GetVal(UnitPolynomial, [3.0]) == Some([10.0])
    ensures ForwardMode.GetVal(UnitPolynomial, [2.0]) == Some([5.0])
    ensures ForwardMode.Column(UnitPolynomial, ForwardMode.OneHot([0.0], 0)) == Some([0.0])
    ensures ForwardMode.Column(UnitPolynomial, ForwardMode.OneHot([2.0], 0)) == Some([4.0])
  {
    UnitPolynomialMeaning(0.0);
    UnitPolynomialMeaning(3.0);
    UnitPolynomialMeaning(2.0);
    ForwardMode.GetValCorrect(UnitPolynomial, [0.0]);
    ForwardMode.GetValCorrect(UnitPolynomial, [3.0]);
    ForwardMode.GetValCorrect(UnitPolynomial, [2.0]);
    ColumnIsDerivative(0.0);
    ColumnIsDerivative(2.0);
  }

  lemma ColumnIsDerivative(v: real)
    ensures ForwardMode.Column(UnitPolynomial, ForwardMode.OneHot([v], 0)) == Some([2.0 * v])
  {
    UnitPolynomialMeaning(v);
    ForwardMode.ForwardAgrees(UnitPolynomial[0], [v], ForwardMode.OneHot([v], 0), 0);
    assert Deriv(UnitPolynomial[0], [v], 0) == Jacobian(UnitPolynomial, [v])[0][0];
    assert ForwardMode.Column(UnitPolynomial, ForwardMode.OneHot([v], 0)).value == [2.0 * v];
  }

  /** The drivers themselves on the unit tests: forward_mode at 2 reports
      value 5 and derivative 4, and get_jacobian at 0 reports 0. */
  method ForwardUnitTestDrivers() returns (vals: Option<seq<real>>, J: Option<seq<seq<real>>>, J0: Option<seq<seq<real>>>)
    ensures vals == Some([5.0]) && J == Some([[4.0]])
    ensures J0 == Some([[0.0]])
  {
    UnitPolynomialMeaning(2.0);
    UnitPolynomialMeaning(0.0);
    vals, J := ForwardMode.Forward(UnitPolynomial, [2.0]);
    J0 := ForwardMode.ForwardJacobianCorrect(UnitPolynomial, [0.0]);
  }

  /** Reverse mode on the same polynomial: get_vals reports the values, but
      with its one output the Jacobian driver as written raises; the corrected
      driver reports 4 at 2 and 0 at 0. */
  lemma ReverseUnitTestValues()
    ensures ReverseMode.GetVals(UnitPolynomial, [0.0]) == Some([1.0])
    ensures ReverseMode.GetVals(UnitPolynomial, [3.0]) == Some([10.0])
    ensures ReverseMode.GetVals(UnitPolynomial, [2.0]) == Some([5.0])
    ensures ReverseMode.ReverseJacobianAsWritten(UnitPolynomial, [2.0]).None?
    ensures ReverseMode.ReverseJacobian(UnitPolynomial, [2.0]) == Some([[4.0]])
    ensures ReverseMode.ReverseJacobian(UnitPolynomial, [0.0]) == Some([[0.0]])
  {
    UnitPolynomialMeaning(0.0);
    UnitPolynomialMeaning(3.0);
    UnitPolynomialMeaning(2.0);
    ReverseMode.GetValsCorrect(UnitPolynomial, [0.0]);
    ReverseMode.GetValsCorrect(UnitPolynomial, [3.0]);
    ReverseMode.GetValsCorrect(UnitPolynomial, [2.0]);
    ReverseMode.ReverseJacobianCorrect(UnitPolynomial, [2.0]);
    ReverseMode.ReverseJacobianCorrect(UnitPolynomial, [0.0]);
  }
}
