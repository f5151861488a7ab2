# Auto_Diff in Dafny

A model of the automatic-differentiation core of Auto_Diff:

- the dual numbers of `src/dual.py`;
- the recording nodes of `src/reversead.py`;
- the two drivers of `src/ad.py`: `AutoDiff` (forward mode) and `ReverseAutoDiff` (reverse mode).

Floats are modelled as Dafny `real`. An exception is modelled as `None`. The exceptions modelled are an input index out of range and a division or negative power of zero.

The functions the drivers differentiate are Python callables. The model fixes the language they are written in (`Expressions.Expr`):

- input coordinates and plain constants;
- `+ - * /`;
- negation;
- powers with a constant non-negative integer exponent.

`Expressions.Value` and `Expressions.Deriv` give the textbook meaning that every mode is compared with. `Expressions.Regular` says where that meaning is defined: inputs in range, no zero divisor, and a zero base only under an exponent of 2 or more.

Modules:

- `Arith`: integer powers of reals, and the field identities the proofs use.
- `Duals` (`src/dual.py`): a `Dual(re, du)` for every operator, including the reflected ones. A plain operand behaves as a dual with derivative 0.
- `Tapes` (`src/reversead.py`): the graph is an arena `seq<Node>`, and node identity is the arena index. Every operator appends a node. The node holds its value, its children (older indices, so the graph is acyclic) and the local partials.
- `Expressions`: the function language and its reference semantics.
- `ForwardMode` (`AutoDiff` in `src/ad.py`): evaluating an expression on a tracer of duals. It dispatches on plain/dual operands as Python's operator protocol does. The value driver, and the Jacobian driver with one pass per input.
- `ReverseMode` (`ReverseAutoDiff` in `src/ad.py`):
  - recording an expression on the input roots;
  - the backward pass `_get_partials` over a map keyed by node identity;
  - the row, Jacobian and value drivers.
- `Agreement`: the two modes side by side, and concrete inputs on which the drivers depart from the Jacobian.

The main results:

- `ForwardMode.ForwardAgrees` and `ForwardMode.ForwardJacobianCorrect`: forward mode with the corrected power computes the value and the partial derivatives of every regular function. As written, the dual power loses the derivative at a negative base (see Findings).
- `ReverseMode.BackwardAddsPathSums`: the backward pass adds, into every entry, the sum over all paths of the products of local partials.
- `ReverseMode.BuildCorrect`: recording on the roots yields adjoints equal to the partial derivatives.
- `ReverseMode.ReverseJacobianCorrect`: the corrected reverse driver returns the Jacobian.
- `ReverseMode.ReverseJacobianAsWrittenCorrect`: the reverse driver as written returns the Jacobian exactly on functions of other than one output, none of which is a bare input.
- `Agreement.BothModes`: forward mode with the corrected power and reverse mode with the corrected driver report the same values and Jacobian. The reverse driver as written joins them on functions of other than one output, none of which is a bare input.

## Model

| member | source | states |
|---|---|---|
| Duals.Add | src/dual.py:15-17 | dual + dual: values and derivatives add (partners: Duals.AddSubInverse, ForwardMode.PlusAgrees) |
| Duals.AddConst | src/dual.py:18-19 | dual + number: the derivative is kept (partner: Duals.ConstantsArePromoted) |
| Duals.Sub | src/dual.py:21-23 | dual - dual, componentwise (partners: Duals.AddSubInverse, ForwardMode.MinusAgrees) |
| Duals.SubConst | src/dual.py:24-25 | dual - number (partner: Duals.ConstantsArePromoted) |
| Duals.Mul | src/dual.py:27-29 | the product rule (partners: Duals.MulRingLaws, ForwardMode.TimesAgrees) |
| Duals.MulConst | src/dual.py:30-31 | dual * number scales both parts (partner: Duals.ConstantsArePromoted) |
| Duals.Div | src/dual.py:33-35 | the quotient rule at a non-zero divisor (partners: Duals.MulDivInverse, ForwardMode.OverAgrees) |
| Duals.DivConst | src/dual.py:36-37 | dual / number divides both parts (partner: Duals.ConstantsArePromoted) |
| Duals.Pow | src/dual.py:39-49 | a zero-valued base gives (0, 0) whatever the exponent, 0 included; for any other base and integer exponent n the value is r^n and the derivative follows the power rule n r^(n-1) d |
| Duals.PowAsWritten | src/dual.py:39-49 | the power operator with its log form: a negative base yields no dual (its derivative is NaN); any other base yields a dual whose value is 0 at a zero base and r^n otherwise |
| Duals.PowAsWrittenOnNonNegativeBase | src/dual.py:43-49 | on a base that is not negative the log form gives the same dual as the power rule |
| Duals.PowAsWrittenLosesNegativeBase | src/dual.py:46-49 | (-2, 3) ** 2 and 6 / (-2, 3) have a NaN derivative as written, where the power and quotient rules give (4, -12) and (-3, -4.5) |
| Duals.RAdd | src/dual.py:59-60 | c + x delegates to x + c (partner: Duals.ReflectedOperators) |
| Duals.RSub | src/dual.py:62-63 | c - x as -1 * x + c (partner: Duals.ReflectedOperators) |
| Duals.RMul | src/dual.py:65-66 | c * x delegates to x * c (partner: Duals.ReflectedOperators) |
| Duals.RDiv | src/dual.py:68-69 | c / x as x ** -1 * c with the corrected power (partners: Duals.ReflectedOperators, Duals.ReflectedQuotient) |
| Duals.RDivAsWritten | src/dual.py:68-69 | c / x as written: a negative value gives no dual (NaN derivative), any other value gives exactly Duals.RDiv |
| Duals.Neg | src/dual.py:84-85 | negation of both parts (partner: Duals.SignOperators) |
| Duals.Pos | src/dual.py:87-88 | a copy (partner: Duals.SignOperators) |
| Duals.Equal | src/dual.py:71-75 | dual == dual (partner: Duals.EqualityIsStructural) |
| Duals.EqualConst | src/dual.py:76-78 | dual == number: derivative 0 and equal value (partner: Duals.EqualityIsStructural) |
| Duals.NotEqual | src/dual.py:81-82 | the negation of == (partner: Duals.EqualityIsStructural) |
| Duals.NotEqualConst | src/dual.py:81-82 | the negation of == against a number (partner: Duals.EqualityIsStructural) |
| Duals.Compare | src/dual.py:90-112 | < <= > >= between duals on the real parts (partner: Duals.OrderReadsOnlyValues) |
| Duals.CompareConst | src/dual.py:90-112 | the same against a number on the right (partner: Duals.OrderReadsOnlyValues) |
| Duals.CompareReflected | src/dual.py:90-112 | a number on the left, answered by the mirrored operator of the dual (partner: Duals.OrderReadsOnlyValues) |
| Duals.PowReciprocal | src/dual.py:39-49 | with the corrected power, x ** -1 at a non-zero value is (1/r, -d/r^2); as written a negative value loses the derivative (Duals.RDivAsWritten) |
| Duals.PowIsRepeatedMul | src/dual.py:27-57 | for a non-zero base, x ** (n+1) equals (x ** n) * x under the product rule; x ** 0 is 1 and x ** 1 is x, so the power rule agrees with repeated multiplication |
| Duals.ConstantsArePromoted | src/dual.py:15-37 | a plain right operand of + - * / gives exactly the result of its promotion to a dual with derivative 0 |
| Duals.ReflectedOperators | src/dual.py:59-69 | c + x, c - x and c * x equal the promoted operation; with the corrected power, c / x equals it at a non-zero value, and gives (0, 0) at a zero value because it goes through x ** -1 |
| Duals.ReflectedQuotient | src/dual.py:68-69 | with the corrected power, c / x at a non-zero value is (c/r, -(c/r^2) d) |
| Duals.AddSubInverse | src/dual.py:15-25 | subtracting b undoes adding b and vice versa; x + (-x) is the zero dual |
| Duals.MulDivInverse | src/dual.py:27-37 | (a / b) * b == a for every b with non-zero value |
| Duals.MulRingLaws | src/dual.py:15-31 | dual multiplication is commutative, associative, distributes over addition and has unit 1 |
| Duals.SignOperators | src/dual.py:84-88 | negation is multiplication by -1 and an involution; unary plus is the identity |
| Duals.EqualityIsStructural | src/dual.py:71-82 | == holds exactly when both components agree; a dual equals a number exactly when it is that number's promotion; != is the negation |
| Duals.OrderReadsOnlyValues | src/dual.py:90-112 | < <= > >= ignore the derivative; x rel y is y mirror(rel) x; a plain number on either side answers like its promotion |
| Duals.UnitTestValues | test_suite/test_dual.py:19-166 | the concrete results the unit tests of the dual type pin, for example (1, 2) / (2, 3) = (0.5, 0.25) and (2, 3) ** 4 = (16, 96) |
| Tapes.Root | src/reversead.py:5-8 | a fresh node with no children and no partials (partner: ReverseMode.RootAdjoint) |
| Tapes.Push | src/reversead.py:14-15 | a node wired to older nodes keeps the arena acyclic and leaves every existing node unchanged |
| Tapes.Roots | src/ad.py:122 | the input roots hold the inputs in order and have no children |
| Tapes.AddNode | src/reversead.py:10-16 | node + node: value sum, partials [1, 1] (partner: Tapes.BinaryNodesFollowDuals) |
| Tapes.AddConstNode | src/reversead.py:17-22 | node + c, and c + node through __radd__: partial [1] (partner: Tapes.ConstNodesFollowDuals) |
| Tapes.MulNode | src/reversead.py:27-33 | node * node: partials [b, a] (partner: Tapes.BinaryNodesFollowDuals) |
| Tapes.MulConstNode | src/reversead.py:34-39 | node * c, and c * node through __rmul__: partial [c] (partner: Tapes.ConstNodesFollowDuals) |
| Tapes.SubNode | src/reversead.py:44-50 | node - node: partials [1, -1] (partner: Tapes.BinaryNodesFollowDuals) |
| Tapes.SubConstNode | src/reversead.py:51-56 | node - c: partial [1] (partner: Tapes.ConstNodesFollowDuals) |
| Tapes.RSubConstNode | src/reversead.py:65-70 | c - node: value c - v, partial [-1] (partner: Tapes.ConstNodesFollowDuals) |
| Tapes.DivNode | src/reversead.py:72-78 | node / node: partials [1/b, -a/b^2] (partner: Tapes.BinaryNodesFollowDuals) |
| Tapes.DivConstNode | src/reversead.py:79-84 | node / c: partial [1/c] (partner: Tapes.QuotientNodesFollowDuals) |
| Tapes.RDivConstNode | src/reversead.py:93-98 | c / node: partial [-c/v^2] (partner: Tapes.QuotientNodesFollowDuals) |
| Tapes.PowConstNode | src/reversead.py:107-112 | node ** k: value v^k, partial [k v^(k-1)], which needs a non-zero value unless k >= 1 (partners: Tapes.UnaryNodesFollowDuals, Tapes.ZeroBasePartialsDiffer) |
| Tapes.NegNode | src/reversead.py:123-128 | -node: partials [-1, v], only the first read (partner: Tapes.UnaryNodesFollowDuals) |
| Tapes.PosNode | src/reversead.py:130-135 | +node: partials [1, v] (partner: Tapes.UnaryNodesFollowDuals) |
| Tapes.NodeEqual | src/reversead.py:114-116 | node == node (partner: Tapes.NodeEqualityIgnoresChildren) |
| Tapes.NodeEqualConst | src/reversead.py:117-118 | node == number (partner: Tapes.NodeEqualityIgnoresChildren) |
| Tapes.NodeNotEqual | src/reversead.py:120-121 | the negation of == (partner: Tapes.NodeEqualityIgnoresChildren) |
| Tapes.NodeNotEqualConst | src/reversead.py:120-121 | the negation of == against a number (partner: Tapes.NodeEqualityIgnoresChildren) |
| Tapes.NodeCompare | src/reversead.py:137-159 | < <= > >= between nodes on their values (partner: Tapes.NodeOrderReadsOnlyValues) |
| Tapes.NodeCompareConst | src/reversead.py:137-159 | the same against a number on the right (partner: Tapes.NodeOrderReadsOnlyValues) |
| Tapes.NodeCompareReflected | src/reversead.py:137-159 | a number on the left, answered by the node's mirrored operator (partner: Tapes.NodeOrderReadsOnlyValues) |
| Tapes.BinaryNodesFollowDuals | src/reversead.py:10-84 | the partials node+node, node-node, node*node and node/node record carry two derivatives to the derivative the dual operator computes on the same values |
| Tapes.ConstNodesFollowDuals | src/reversead.py:17-70 | the same for node + c, node - c, node * c and c - node |
| Tapes.QuotientNodesFollowDuals | src/reversead.py:79-98 | the same for node / c and c / node |
| Tapes.UnaryNodesFollowDuals | src/reversead.py:100-135 | the same for node ** k at a non-zero value, negation and unary plus |
| Tapes.ZeroBasePartialsDiffer | src/reversead.py:107-112 | at a zero value, node ** 1 records partial 1 while the dual operator reports derivative 0 |
| Tapes.NodeEqualityIgnoresChildren | src/reversead.py:114-121 | node == node compares value and partials but not children; node == number compares the value; != negates == |
| Tapes.NodeOrderReadsOnlyValues | src/reversead.py:137-159 | orderings read only the value, mirror when the operands swap, and answer a plain left operand mathematically |
| Expressions.ClosedHasNoDerivative | src/ad.py:64-65 | an output built from constants alone has derivative 0 in every direction |
| ForwardMode.Combine | src/dual.py:15-69 | one binary operator on a plain number or a dual on each side, dispatched as Python does (partner: ForwardMode.CombineAgrees) |
| ForwardMode.CombinePlain | src/dual.py:59-69 | a plain left operand: plain arithmetic, or the dual's reflected operator (partner: ForwardMode.CombineAgrees) |
| ForwardMode.CombineDual | src/dual.py:15-37 | a dual left operand with a plain or dual right operand (partner: ForwardMode.CombineAgrees) |
| ForwardMode.Eval | src/ad.py:57-58 | the function run on a tracer of duals (partner: ForwardMode.ForwardAgrees) |
| ForwardMode.PlainExactlyWhenClosed | src/ad.py:64-65 | an output evaluates to a plain number exactly when it is built from constants alone |
| ForwardMode.PlainOutputHasNoDerivative | src/ad.py:64-65 | the 0 the driver writes for a plain output equals the output's derivative |
| ForwardMode.CombineAgrees | src/dual.py:15-69 | every binary operator on any mix of plain numbers and duals computes the value rule on the values and the sum, difference, product or quotient rule on the derivatives, and raises only for a zero divisor |
| ForwardMode.OverAgrees | src/dual.py:33-37 | division of any mix of numbers and duals follows the quotient rule when the divisor's value is non-zero |
| ForwardMode.TimesAgrees | src/dual.py:27-31 | multiplication of any mix follows the product rule |
| ForwardMode.ForwardAgrees | src/ad.py:48-58 | with the corrected power, on a tracer carrying x a regular function raises nothing, its real part is its value at x, and its dual part is the partial derivative by x[i] when the tracer selects input i |
| ForwardMode.SeedPass | src/ad.py:48-56 | building the tracer as the driver does, with the inputs before i, then input i with dual part 1, then the inputs after it, gives a tracer that carries x and selects input i |
| ForwardMode.OneHot | src/ad.py:48-56 | the tracer of pass i (partners: ForwardMode.SeedPass, ForwardMode.ForwardAgrees) |
| ForwardMode.GetVal | src/ad.py:11-32 | get_val on the all-ones tracer: succeeds exactly when every output evaluates, and reports the real parts (partner: ForwardMode.GetValCorrect) |
| ForwardMode.Column | src/ad.py:62-68 | one pass's column of dual parts, 0 for a plain output (partners: ForwardMode.ForwardJacobian, ForwardMode.PlainOutputHasNoDerivative) |
| ForwardMode.Transpose | src/ad.py:70 | the final .T (partner: ForwardMode.ForwardJacobianCorrect) |
| ForwardMode.GetValCorrect | src/ad.py:25-32 | get_val returns the values of the outputs at every point where they are regular (values do not depend on the log form) |
| ForwardMode.ForwardJacobian | src/ad.py:34-70 | the driver succeeds exactly when every pass evaluates every output, and entry (k, i) is output k's dual part in pass i |
| ForwardMode.ForwardJacobianCorrect | src/ad.py:34-70 | with the corrected power, for regular outputs and at least one input the driver returns the Jacobian |
| ForwardMode.Forward | src/ad.py:72-73 | with the corrected power, forward_mode returns the values and the Jacobian of regular outputs |
| ReverseMode.Apply | src/reversead.py:10-98 | a recorded operator result is a reference to the node it appended, on a tape that extends the old one |
| ReverseMode.ApplyPlain | src/reversead.py:24-98 | a plain left operand: plain arithmetic, or the node's reflected operator (partner: ReverseMode.ApplyCorrect) |
| ReverseMode.ApplyRef | src/reversead.py:10-84 | a node left operand with a plain or node right operand (partner: ReverseMode.ApplyCorrect) |
| ReverseMode.LeftConstNode | src/reversead.py:24-98 | the node for c op node; it refers to that node only (partner: ReverseMode.LeftConstNodeRule) |
| ReverseMode.RightConstNode | src/reversead.py:17-84 | the node for node op c (partner: ReverseMode.RightConstNodeRule) |
| ReverseMode.BinaryNode | src/reversead.py:10-84 | the node for node op node (partner: ReverseMode.BinaryNodeRule) |
| ReverseMode.Build | src/reversead.py:10-135 | recording only appends nodes; a result node is fresh unless the expression is a bare input |
| ReverseMode.BuildAll | src/ad.py:122-123 | recording every output on one tape yields one value per output, each on the final tape |
| ReverseMode.Backward | src/ad.py:88-106 | _get_partials (partner: ReverseMode.BackwardAddsPathSums) |
| ReverseMode.Spread | src/ad.py:91-106 | the loop over the children in _get_partials (partner: ReverseMode.SpreadAddsChildSums) |
| ReverseMode.BackwardAddsPathSums | src/ad.py:88-106 | the backward pass from node k with trace c adds c times the sum over all paths from k to m of the products of partials to every entry m, unwritten entries counting 0 |
| ReverseMode.SpreadAddsChildSums | src/ad.py:91-106 | the loop over children from child j on adds trace times the path sums through those children |
| ReverseMode.NoPathUpward | src/ad.py:91-106 | there is no path from a node to itself or to a younger node |
| ReverseMode.AdjointStable | src/reversead.py:14-15 | appending nodes changes no path sum between existing nodes |
| ReverseMode.RootAdjoint | src/reversead.py:5-8 | a root's adjoint is 1 with respect to itself and 0 otherwise |
| ReverseMode.RecordBinary | src/ad.py:91-106 | a new node's adjoint is the partial-weighted sum of its children's adjoints |
| ReverseMode.LeftConstNodeRule | src/reversead.py:24-98 | the node for c op node holds c op v, and its partial carries the operand's derivative to the sum, difference, product or quotient rule |
| ReverseMode.RightConstNodeRule | src/reversead.py:17-84 | the same for node op c |
| ReverseMode.BinaryNodeRule | src/reversead.py:10-84 | the same for node op node |
| ReverseMode.ApplyCorrect | src/reversead.py:10-98 | applying an operator to values that stand for a and b raises nothing when a op b is defined, and yields a value that stands for a op b |
| ReverseMode.BuildCorrect | src/reversead.py:10-135 | recording a regular expression on the input roots succeeds; the result holds the expression's value, and its adjoint with respect to each root is the partial derivative, or it is a plain number of derivative 0 |
| ReverseMode.BuildAllCorrect | src/ad.py:122-123 | every output of a regular function records correctly on one shared tape |
| ReverseMode.Zeroes | src/ad.py:111 | the map the driver starts a row from holds exactly the roots, each at 0 |
| ReverseMode.RowAsWritten | src/ad.py:109-116 | the row as written holds, for each root, the sum over non-empty paths from the output to it; a plain output gives zeros |
| ReverseMode.Row | src/ad.py:109-116 | the corrected row holds each root's full adjoint, the empty path included |
| ReverseMode.RowsDifferOnlyAtTheOutput | src/ad.py:111-114 | the two rows differ only in the entry of an output that is itself a root, and there by exactly 1 |
| ReverseMode.ReverseJacobianAsWritten | src/ad.py:119-129 | the driver as written raises for every function with exactly one output; otherwise it returns one row per output |
| ReverseMode.ReverseJacobianAsWrittenCorrect | src/ad.py:119-129 | as written, the driver returns the Jacobian for regular functions with other than one output, none of which is a bare input |
| ReverseMode.ReverseJacobian | src/ad.py:119-129 | the corrected driver, single outputs included, returns one row per output and one entry per input whenever recording succeeds |
| ReverseMode.ReverseJacobianCorrect | src/ad.py:119-129 | the corrected driver returns the Jacobian of every regular function |
| ReverseMode.GetVals | src/ad.py:132-142 | get_vals: one value per output (partner: ReverseMode.GetValsCorrect) |
| ReverseMode.GetValsCorrect | src/ad.py:132-142 | get_vals returns the outputs' values where they are regular |
| ReverseMode.Reverse | src/ad.py:145-146 | reverse_mode with the corrected Jacobian driver returns the values and the Jacobian of regular outputs, one output included |
| ReverseMode.ReverseAsWritten | src/ad.py:145-146 | reverse_mode as written raises on every function with one output, and returns the values and the Jacobian of regular functions with other than one output, none a bare input |
| Agreement.BothModes | src/ad.py:72-73 | forward mode (corrected power) and reverse mode (corrected driver) report the same values, and the same Jacobian when there is an input; reverse_mode as written agrees with them on functions of other than one output with no bare-input output, and raises on one output |
| Agreement.SeedCounterexample | src/ad.py:111-114 | for f(x) = (x0, 1) at (3), the row of x0 is reported as (0) instead of (1) |
| Agreement.SingleOutputCounterexample | src/ad.py:125-127 | for f(x) = (x0 * x0) at (3) the driver raises, and the corrected driver reports (6) |
| Agreement.ZeroBaseModesDiffer | src/dual.py:43-44 | (x0 ** 1, 0) at 0: forward mode reports derivative 0 for x0 ** 1 through the zero-base special case, and reverse mode as written reports 1 |
| Agreement.NegativeBaseModesDiffer | src/dual.py:46-49 | (x0 ** 2, 0) at -2: the power rule gives -4, which reverse mode as written reports and forward mode with the corrected power reports; as written the forward tracer (-2, 1) loses its derivative in the log form |
| Agreement.UnitPolynomialMeaning | test_suite/test_ad.py:8-12 | x ** 2 + 1 is regular everywhere, 0 included, with value v^2 + 1 and derivative 2v |
| Agreement.ForwardUnitTestValues | test_suite/test_ad.py:36-56 | get_val of x ** 2 + 1 is 1 at 0, 10 at 3 and 5 at 2; the pass at 0 gives derivative 0 and the pass at 2 gives 4 |
| Agreement.ForwardUnitTestDrivers | test_suite/test_ad.py:49-67 | forward_mode at 2 returns value 5 and Jacobian 4; get_jacobian at 0 returns 0 |
| Agreement.ReverseUnitTestValues | src/ad.py:119-142 | on x ** 2 + 1, get_vals reports 1, 10 and 5 at 0, 3 and 2; the Jacobian driver as written raises (one output); the corrected driver reports 4 at 2 and 0 at 0 |

## Left out

- `src/elementary_functions.py` (sin, cos, exp, log and friends): it lies outside the arithmetic core.
- Exponents that are themselves duals or nodes, and non-integer exponents: their derivatives need `log`, which reals in Dafny do not have.
  - `Duals.Pow` and `Tapes.PowConstNode` take any integer exponent.
  - The expression language has non-negative exponents only.
- IEEE special values. In numpy, a float division by zero can give inf or NaN instead of raising. The model raises (`None`) where Python floats raise.
- The log form of the dual power at a negative base, which gives a NaN derivative (see Findings), is modelled by `Duals.PowAsWritten` and `Duals.RDivAsWritten` only. The rest of the model uses the corrected `Duals.Pow`:
- ForwardMode.Eval: uses the corrected power for `x ** n` and for `c / x`; as written, a tracer with a negative real part there yields a NaN derivative (`Agreement.NegativeBaseModesDiffer`).
- ForwardMode.ForwardAgrees: states forward mode with the corrected power; as written the derivative is NaN wherever a power or a `c / x` meets a negative value.
- ForwardMode.ForwardJacobianCorrect: the same, and it is stated for at least one input. With none, the driver returns an empty array rather than one empty row per output.
- ForwardMode.Forward: the same as ForwardMode.ForwardAgrees for the Jacobian; the values do not depend on the log form.
- Duals.RDiv: the corrected `c / x`; `Duals.RDivAsWritten` is the source's.
- ReverseMode.Reverse: reverse_mode with the corrected Jacobian driver. As written, one output raises and a bare-input output reads 0; `ReverseMode.ReverseAsWritten` is the source's.
- Agreement.BothModes: its forward/reverse Jacobian agreement is for the corrected power and the corrected reverse driver; for the drivers as written it states agreement only on functions of other than one output, none a bare input, and then only with the corrected power.
- Input normalisation and exception remapping in the drivers:
  - wrapping a scalar, and `np.ndarray(list)` (which reads a list as a shape): `src/ad.py:13-21`, `36-44`;
  - turning any exception into ValueError or IndexError: `src/ad.py:29-30`, `59-60`.
  - Inputs are given as a sequence of reals. Any exception is `None`.
- The node-with-node branches of `__rsub__` and `__rtruediv__` (`src/reversead.py:58-64`, `86-92`). Python only calls a reflected operator when the left operand is not a node, so these branches are unreachable.
- Unary plus and the comparisons are not in the expression language. They are modelled as functions with lemmas.
- The `DualNumber` constructor's default derivative 1: every dual the drivers build passes its derivative explicitly.
- The fallback loop of the dual power (`src/dual.py:50-57`): with a plain integer exponent the log form never raises, so it is not reached.
- Shared sub-expressions. A Python function can reuse one node object. An `Expr` is a tree, so a repeated subterm is recorded twice. Values and derivatives are the same, but the tape is larger.
- The instance state `self.partials` / `self.bases`: it is threaded through explicitly.
- Zero bases under exponents 0 and 1. `Expressions.Regular` excludes x ** 0 and x ** 1 at a zero value, so the correctness theorems say nothing there. Forward mode follows the documented special case (0, 0) and reverse mode the power rule (x ** 0 at 0 raises); `Agreement.ZeroBaseModesDiffer` shows the two part ways. At exponents 2 and more both modes agree with the calculus at 0 and the theorems cover it.
- ReverseMode.BuildCorrect: proves success and correctness for regular expressions only. Recording also succeeds at x ** 1 at 0, which it does not characterise.

## Findings

| source | as written | input that shows it | evidently intended | confidence | as-written member | corrected member |
|---|---|---|---|---|---|---|
| src/ad.py:111-114 | the accumulation map is reset to 0 for every root and the output's own entry is never seeded with 1, so an output that is itself an input root reads 0 for that root | f(x) = (x0, 1) at x = (3): row 0 is (0) | row 0 is (1), the derivative of x0 | not executed | ReverseMode.RowAsWritten, Agreement.SeedCounterexample | ReverseMode.Row, ReverseMode.ReverseJacobianCorrect |
| src/ad.py:125-127 | a function with one output passes the Python function itself to `_get_partials`, which has no children list and raises | f(x) = (x0 * x0) at x = (3) | the Jacobian ((6)) | not executed | ReverseMode.ReverseJacobianAsWritten, ReverseMode.ReverseAsWritten, Agreement.SingleOutputCounterexample | ReverseMode.ReverseJacobian, ReverseMode.ReverseJacobianCorrect, ReverseMode.Reverse |
| src/dual.py:46-49 | with a plain exponent the derivative is r^n (log(r) * 0 + d n / r); log of a negative base is NaN and NaN * 0 is NaN. c / x goes through x ** -1 (src/dual.py:68-69) and inherits it, and so does forward_mode at any negative value under a power or a reflected division, where reverse mode stays finite | (-2, 3) ** 2; 6 / (-2, 3); forward_mode of (x0 ** 2, 0) at -2 | (4, -12); (-3, -4.5); derivative -4, as reverse mode reports | not executed | Duals.PowAsWritten, Duals.RDivAsWritten, Duals.PowAsWrittenLosesNegativeBase, Agreement.NegativeBaseModesDiffer | Duals.Pow, Duals.RDiv, Duals.PowIsRepeatedMul, ForwardMode.ForwardAgrees |
