/** Reverse mode: the ReverseAutoDiff driver of src/ad.py over the nodes of
    src/reversead.py. Running a function on root nodes records a graph (the
    tape); the backward pass walks it from an output down to the roots,
    multiplying local partials along every path and adding the products up in
    a map keyed by node identity (here: the arena index). */
module ReverseMode {
  import opened Wrappers
  import opened Arith
  import opened Tapes
  import opened Expressions
  import Duals

  /** A run-time value inside the recorded function: a plain number or a
      reference to a node of the tape. */
  datatype Traced = Plain(c: real) | Ref(k: nat)

  predicate Fits(v: Traced, t: Tape) {
    v.Ref? ==> v.k < |t|
  }

  /** Appends a node and returns a reference to it. */
  function Record(t: Tape, n: Node): (r: (Traced, Tape))
    requires WellFormed(t) && WiredBelow(n, |t|)
    ensures WellFormed(r.1) && Extends(t, r.1) && Fits(r.0, r.1)
    ensures |r.1| == |t| + 1 && r.1[|t|] == n
  {
    (Ref(|t|), Push(t, n))
  }

  /** One binary operator on run-time values, recording a node whenever an
      operand is a node. None is the ZeroDivisionError of a zero divisor, which
      for nodes the operators' fallback branches raise again. */
  function Apply(op: BinOp, u: Traced, w: Traced, t: Tape): (r: Option<(Traced, Tape)>)
    requires WellFormed(t) && Fits(u, t) && Fits(w, t)
    ensures r.Some? ==> WellFormed(r.value.1) && Extends(t, r.value.1) && Fits(r.value.0, r.value.1)
    ensures r.Some? && r.value.0.Ref? ==> r.value.0.k == |t|
  {
    match u
    case Plain(p) => ApplyPlain(op, p, w, t)
    case Ref(a) => ApplyRef(op, a, w, t)
  }

  /** A plain number on the left: plain arithmetic, or the node's reflected
      operator (c + n and c * n delegate to n + c and n * c). */
  function ApplyPlain(op: BinOp, p: real, w: Traced, t: Tape): (r: Option<(Traced, Tape)>)
    requires WellFormed(t) && Fits(w, t)
    ensures r.Some? ==> WellFormed(r.value.1) && Extends(t, r.value.1) && Fits(r.value.0, r.value.1)
    ensures r.Some? && r.value.0.Ref? ==> r.value.0.k == |t|
  {
    match w
    case Plain(q) =>
      if op == Over && q == 0.0 then None else Some((Plain(ValueRule(op, p, q)), t))
    case Ref(b) =>
      if op == Over && t[b].val == 0.0 then None else Some(Record(t, LeftConstNode(op, t, p, b)))
  }

  /** A node on the left, with a plain or node right operand. */
  function ApplyRef(op: BinOp, a: nat, w: Traced, t: Tape): (r: Option<(Traced, Tape)>)
    requires WellFormed(t) && a < |t| && Fits(w, t)
    ensures r.Some? ==> WellFormed(r.value.1) && Extends(t, r.value.1) && Fits(r.value.0, r.value.1)
    ensures r.Some? && r.value.0.Ref? ==> r.value.0.k == |t|
  {
    match w
    case Plain(q) =>
      if op == Over && q == 0.0 then None else Some(Record(t, RightConstNode(op, t, a, q)))
    case Ref(b) =>
      if op == Over && t[b].val == 0.0 then None else Some(Record(t, BinaryNode(op, t, a, b)))
  }

  /** The node for p op node b: c + n and c * n delegate to n + c and n * c. */
  function LeftConstNode(op: BinOp, t: Tape, p: real, b: nat): (n: Node)
    requires b < |t| && (op == Over ==> t[b].val != 0.0)
    ensures WiredBelow(n, |t|) && n.children == [b]
  {
    match op
    case Plus => AddConstNode(t, b, p)
    case Minus => RSubConstNode(t, b, p)
    case Times => MulConstNode(t, b, p)
    case Over => RDivConstNode(t, b, p)
  }

  /** The node for node a op q. */
  function RightConstNode(op: BinOp, t: Tape, a: nat, q: real): (n: Node)
    requires a < |t| && (op == Over ==> q != 0.0)
    ensures WiredBelow(n, |t|) && n.children == [a]
  {
    match op
    case Plus => AddConstNode(t, a, q)
    case Minus => SubConstNode(t, a, q)
    case Times => MulConstNode(t, a, q)
    case Over => DivConstNode(t, a, q)
  }

  /** The node for node a op node b. */
  function BinaryNode(op: BinOp, t: Tape, a: nat, b: nat): (n: Node)
    requires a < |t| && b < |t| && (op == Over ==> t[b].val != 0.0)
    ensures WiredBelow(n, |t|) && n.children == [a, b]
  {
    match op
    case Plus => AddNode(t, a, b)
    case Minus => SubNode(t, a, b)
    case Times => MulNode(t, a, b)
    case Over => DivNode(t, a, b)
  }

  /** Runs e on the first n nodes of t, which are the roots. None is an
      exception: an input index of n or more (IndexError), a zero divisor, or a
      zero-valued node raised to a power below 1 (ZeroDivisionError). */
  function Build(e: Expr, n: nat, t: Tape): (r: Option<(Traced, Tape)>)
    requires WellFormed(t) && n <= |t|
    ensures r.Some? ==> WellFormed(r.value.1) && Extends(t, r.value.1) && Fits(r.value.0, r.value.1)
    ensures r.Some? && r.value.0.Ref? && !e.Var? ==> r.value.0.k >= |t|
  {
    match e
    case Var(i) => if i < n then Some((Ref(i), t)) else None
    case Const(c) => Some((Plain(c), t))
    case Bin(op, a, b) =>
      var ra := Build(a, n, t);
      if ra.None? then None
      else
        var (u, t1) := ra.value;
        var rb := Build(b, n, t1);
        if rb.None? then None
        else
          var (w, t2) := rb.value;
          Apply(op, u, w, t2)
    case Neg(a) =>
      var ra := Build(a, n, t);
      if ra.None? then None
      else
        var (u, t1) := ra.value;
        (match u
         case Plain(c) => Some((Plain(-c), t1))
         case Ref(k) => Some(Record(t1, NegNode(t1, k))))
    case PowNat(a, m) =>
      var ra := Build(a, n, t);
      if ra.None? then None
      else
        var (u, t1) := ra.value;
        match u
        case Plain(c) => Some((Plain(NatPow(c, m)), t1))
        case Ref(k) =>
          if t1[k].val == 0.0 && m < 1 then None
          else Some(Record(t1, PowConstNode(t1, k, m)))
  }

  /** Runs every output of a vector-valued function, in order, on one tape. */
  function BuildAll(outs: seq<Expr>, n: nat, t: Tape): (r: Option<(seq<Traced>, Tape)>)
    requires WellFormed(t) && n <= |t|
    ensures r.Some? ==> WellFormed(r.value.1) && Extends(t, r.value.1) && |r.value.0| == |outs|
    ensures r.Some? ==> forall k | 0 <= k < |outs| :: Fits(r.value.0[k], r.value.1)
    decreases |outs|
  {
    if |outs| == 0 then Some(([], t))
    else
      var r0 := Build(outs[0], n, t);
      if r0.None? then None
      else
        var (v, t1) := r0.value;
        var rs := BuildAll(outs[1..], n, t1);
        if rs.None? then None
        else
          var (vs, t2) := rs.value;
          Some(([v] + vs, t2))
  }

  // ---- the backward pass ----

  /** The adjoint read from the map; a key never written reads as 0. */
  function Get(acc: map<nat, real>, k: nat): real {
    if k in acc then acc[k] else 0.0
  }

  /** _get_partials: for every child of node k, in order, add trace times the
      local partial to the child's entry (creating it if missing) and recurse
      into the child with that product as its trace. */
  function Backward(t: Tape, k: nat, trace: real, acc: map<nat, real>): map<nat, real>
    requires WellFormed(t) && k < |t|
    decreases k, 1, 0
  {
    Spread(t, k, 0, trace, acc)
  }

  function Spread(t: Tape, k: nat, j: nat, trace: real, acc: map<nat, real>): map<nat, real>
    requires WellFormed(t) && k < |t| && j <= |t[k].children|
    decreases k, 0, |t[k].children| - j
  {
    if j == |t[k].children| then acc
    else
      var c := t[k].children[j];
      var ct := trace * t[k].partials[j];
      var acc1 := if c in acc then acc[c := acc[c] + ct] else acc[c := ct];
      Spread(t, k, j + 1, trace, Backward(t, c, ct, acc1))
  }

  // ---- what the backward pass computes ----

  /** The sum, over all non-empty paths from node k down to node m, of the
      product of the local partials along the path. */
  function PathSum(t: Tape, k: nat, m: nat): real
    requires WellFormed(t) && k < |t|
    decreases k, 1, 0
  {
    ChildSum(t, k, 0, m)
  }

  function ChildSum(t: Tape, k: nat, j: nat, m: nat): real
    requires WellFormed(t) && k < |t| && j <= |t[k].children|
    decreases k, 0, |t[k].children| - j
  {
    if j == |t[k].children| then 0.0
    else t[k].partials[j] * Adjoint(t, t[k].children[j], m) + ChildSum(t, k, j + 1, m)
  }

  /** The derivative of node k with respect to node m: the chain rule summed
      over all paths, counting the empty path when k is m itself. */
  function Adjoint(t: Tape, k: nat, m: nat): real
    requires WellFormed(t) && k < |t|
    decreases k, 2, 0
  {
    (if k == m then 1.0 else 0.0) + PathSum(t, k, m)
  }

  /** The backward pass from node k adds trace times the path sum from k to m
      into every entry m, and touches nothing else. */
  lemma {:induction false} BackwardAddsPathSums(t: Tape, k: nat, trace: real, acc: map<nat, real>, m: nat)
    requires WellFormed(t) && k < |t|
    ensures Get(Backward(t, k, trace, acc), m) == Get(acc, m) + trace * PathSum(t, k, m)
    decreases k, 1, 0
  {
    SpreadAddsChildSums(t, k, 0, trace, acc, m);
  }

  lemma {:induction false} SpreadAddsChildSums(t: Tape, k: nat, j: nat, trace: real, acc: map<nat, real>, m: nat)
    requires WellFormed(t) && k < |t| && j <= |t[k].children|
    ensures Get(Spread(t, k, j, trace, acc), m) == Get(acc, m) + trace * ChildSum(t, k, j, m)
    decreases k, 0, |t[k].children| - j
  {
    if j < |t[k].children| {
      var c := t[k].children[j];
      var ct := trace * t[k].partials[j];
      var acc1 := if c in acc then acc[c := acc[c] + ct] else acc[c := ct];
      assert Spread(t, k, j, trace, acc) == Spread(t, k, j + 1, trace, Backward(t, c, ct, acc1));
      var acc2 := Backward(t, c, ct, acc1);
      var own := if c == m then 1.0 else 0.0;
      var below, rest := PathSum(t, c, m), ChildSum(t, k, j + 1, m);
      assert ChildSum(t, k, j, m) == t[k].partials[j] * (own + below) + rest;
      BackwardAddsPathSums(t, c, ct, acc1, m);
      SpreadAddsChildSums(t, k, j + 1, trace, acc2, m);
      assert Get(acc1, m) == Get(acc, m) + own * ct;
      Distribute(Get(acc, m), trace, t[k].partials[j], own, below, rest);
    }
  }

  /** Nodes only point to older nodes, so there is no path from a node to
      itself or to any younger node. */
  lemma {:induction false} NoPathUpward(t: Tape, k: nat, m: nat)
    requires WellFormed(t) && k < |t| && k <= m
    ensures PathSum(t, k, m) == 0.0
    decreases k, 1, 0
  {
    NoChildPathUpward(t, k, 0, m);
  }

  lemma {:induction false} NoChildPathUpward(t: Tape, k: nat, j: nat, m: nat)
    requires WellFormed(t) && k < |t| && k <= m && j <= |t[k].children|
    ensures ChildSum(t, k, j, m) == 0.0
    decreases k, 0, |t[k].children| - j
  {
    if j < |t[k].children| {
      NoPathUpward(t, t[k].children[j], m);
      NoChildPathUpward(t, k, j + 1, m);
    }
  }

  /** Appending nodes changes no path sum between existing nodes. */
  lemma {:induction false} AdjointStable(t: Tape, t': Tape, k: nat, m: nat)
    requires WellFormed(t) && WellFormed(t') && Extends(t, t') && k < |t|
    ensures PathSum(t', k, m) == PathSum(t, k, m)
    ensures Adjoint(t', k, m) == Adjoint(t, k, m)
    decreases k, 1, 0
  {
    ChildSumStable(t, t', k, 0, m);
  }

  lemma {:induction false} ChildSumStable(t: Tape, t': Tape, k: nat, j: nat, m: nat)
    requires WellFormed(t) && WellFormed(t') && Extends(t, t') && k < |t|
    requires j <= |t[k].children|
    ensures t'[k] == t[k]
    ensures ChildSum(t', k, j, m) == ChildSum(t, k, j, m)
    decreases k, 0, |t[k].children| - j
  {
    assert t'[k] == t'[..|t|][k];
    if j < |t[k].children| {
      AdjointStable(t, t', t[k].children[j], m);
      ChildSumStable(t, t', k, j + 1, m);
    }
  }

  // ---- recording follows the chain rule ----

  /** The first |x| nodes of t are the roots made from the inputs x. */
  predicate Rooted(t: Tape, x: seq<real>) {
    && WellFormed(t)
    && |x| <= |t|
    && forall i | 0 <= i < |x| :: t[i] == Root(x[i])
  }

  lemma RootedStable(t: Tape, t': Tape, x: seq<real>)
    requires Rooted(t, x) && WellFormed(t') && Extends(t, t')
    ensures Rooted(t', x)
  {
    forall i | 0 <= i < |x|
      ensures t'[i] == Root(x[i])
    {
      assert t'[i] == t'[..|t|][i];
    }
  }

  /** The run-time value v stands for e at x: a plain number is e's value and e
      has derivative 0; a node holds e's value, and its adjoint with respect to
      every input root is e's partial derivative. */
  predicate Matches(v: Traced, t: Tape, e: Expr, x: seq<real>)
    requires WellFormed(t) && Fits(v, t) && Regular(e, x)
  {
    match v
    case Plain(c) =>
      c == Value(e, x) && forall m | 0 <= m < |x| :: Deriv(e, x, m) == 0.0
    case Ref(k) =>
      t[k].val == Value(e, x) && forall m | 0 <= m < |x| :: Adjoint(t, k, m) == Deriv(e, x, m)
  }

  /** Recording more nodes keeps what a value stands for. */
  lemma MatchesStable(v: Traced, t: Tape, t': Tape, e: Expr, x: seq<real>)
    requires WellFormed(t) && WellFormed(t') && Extends(t, t') && Fits(v, t) && Regular(e, x)
    requires Matches(v, t, e, x)
    ensures Fits(v, t') && Matches(v, t', e, x)
  {
    if v.Ref? {
      assert t'[v.k] == t'[..|t|][v.k];
      forall m | 0 <= m < |x|
        ensures Adjoint(t', v.k, m) == Deriv(e, x, m)
      {
        AdjointStable(t, t', v.k, m);
      }
    }
  }

  /** An input root's adjoint is 1 with respect to itself and 0 otherwise. */
  lemma RootAdjoint(t: Tape, i: nat, m: nat)
    requires WellFormed(t) && i < |t| && t[i].children == []
    ensures Adjoint(t, i, m) == if i == m then 1.0 else 0.0
  {
    assert ChildSum(t, i, 0, m) == 0.0;
  }

  /** A new node with one child c: its adjoint is its partial times c's. */
  lemma RecordUnary(t: Tape, n: Node, c: nat, m: nat)
    requires WellFormed(t) && WiredBelow(n, |t|) && c < |t| && n.children == [c] && m < |t|
    ensures Adjoint(Push(t, n), |t|, m) == n.partials[0] * Adjoint(t, c, m)
  {
    var t' := Push(t, n);
    assert ChildSum(t', |t|, 1, m) == 0.0;
    assert PathSum(t', |t|, m) == n.partials[0] * Adjoint(t', c, m);
    AdjointStable(t, t', c, m);
  }

  /** A new node with children c and d: the sum over both. */
  lemma RecordBinary(t: Tape, n: Node, c: nat, d: nat, m: nat)
    requires WellFormed(t) && WiredBelow(n, |t|) && c < |t| && d < |t| && n.children == [c, d] && m < |t|
    ensures Adjoint(Push(t, n), |t|, m) == n.partials[0] * Adjoint(t, c, m) + n.partials[1] * Adjoint(t, d, m)
  {
    var t' := Push(t, n);
    assert ChildSum(t', |t|, 2, m) == 0.0;
    assert ChildSum(t', |t|, 1, m) == n.partials[1] * Adjoint(t', d, m);
    assert PathSum(t', |t|, m) == n.partials[0] * Adjoint(t', c, m) + n.partials[1] * Adjoint(t', d, m);
    AdjointStable(t, t', c, m);
    AdjointStable(t, t', d, m);
  }

  /** Each node a binary operator records holds the operator's value, and its
      partials carry the operands' derivatives to the derivative the sum,
      difference, product or quotient rule gives. */
  lemma LeftConstNodeRule(op: BinOp, t: Tape, p: real, b: nat, db: real)
    requires b < |t| && (op == Over ==> t[b].val != 0.0)
    ensures LeftConstNode(op, t, p, b).val == ValueRule(op, p, t[b].val)
    ensures LeftConstNode(op, t, p, b).partials[0] * db == DerivRule(op, p, t[b].val, 0.0, db)
  {
    match op {
      case Plus =>
      case Minus =>
      case Times => ProductRuleCases(p, t[b].val, 0.0, db);
      case Over =>
        var v := t[b].val;
        assert LeftConstNode(op, t, p, b) == RDivConstNode(t, b, p);
        QuotientNodesFollowDuals(t, b, p, db);
        Duals.ReflectedQuotient(p, Duals.Dual(v, db));
        QuotientRuleCases(p, v, 0.0, db);
    }
  }

  lemma RightConstNodeRule(op: BinOp, t: Tape, a: nat, q: real, da: real)
    requires a < |t| && (op == Over ==> q != 0.0)
    ensures RightConstNode(op, t, a, q).val == ValueRule(op, t[a].val, q)
    ensures RightConstNode(op, t, a, q).partials[0] * da == DerivRule(op, t[a].val, q, da, 0.0)
  {
    match op {
      case Plus =>
      case Minus =>
      case Times => ProductRuleCases(t[a].val, q, da, 0.0);
      case Over =>
        QuotientRuleCases(t[a].val, q, da, 0.0);
        QuotientByConstant(t[a].val, da, q);
    }
  }

  lemma BinaryNodeRule(op: BinOp, t: Tape, a: nat, b: nat, da: real, db: real)
    requires a < |t| && b < |t| && (op == Over ==> t[b].val != 0.0)
    ensures BinaryNode(op, t, a, b).val == ValueRule(op, t[a].val, t[b].val)
    ensures BinaryNode(op, t, a, b).partials[0] * da + BinaryNode(op, t, a, b).partials[1] * db
         == DerivRule(op, t[a].val, t[b].val, da, db)
  {
    match op {
      case Plus =>
      case Minus =>
      case Times =>
      case Over => QuotientRule(t[a].val, t[b].val, da, db);
    }
  }

  /** The adjoint of the node recorded for p op node b, node a op q, and node a
      op node b: the sum, difference, product or quotient rule applied to the
      operands' adjoints. */
  lemma LeftConstAdjoint(op: BinOp, t: Tape, p: real, b: nat, m: nat)
    requires WellFormed(t) && b < |t| && m < |t| && (op == Over ==> t[b].val != 0.0)
    ensures Adjoint(Push(t, LeftConstNode(op, t, p, b)), |t|, m) == DerivRule(op, p, t[b].val, 0.0, Adjoint(t, b, m))
  {
    RecordUnary(t, LeftConstNode(op, t, p, b), b, m);
    LeftConstNodeRule(op, t, p, b, Adjoint(t, b, m));
  }

  lemma RightConstAdjoint(op: BinOp, t: Tape, a: nat, q: real, m: nat)
    requires WellFormed(t) && a < |t| && m < |t| && (op == Over ==> q != 0.0)
    ensures Adjoint(Push(t, RightConstNode(op, t, a, q)), |t|, m) == DerivRule(op, t[a].val, q, Adjoint(t, a, m), 0.0)
  {
    RecordUnary(t, RightConstNode(op, t, a, q), a, m);
    RightConstNodeRule(op, t, a, q, Adjoint(t, a, m));
  }

  lemma BinaryAdjoint(op: BinOp, t: Tape, a: nat, b: nat, m: nat)
    requires WellFormed(t) && a < |t| && b < |t| && m < |t| && (op == Over ==> t[b].val != 0.0)
    ensures Adjoint(Push(t, BinaryNode(op, t, a, b)), |t|, m)
         == DerivRule(op, t[a].val, t[b].val, Adjoint(t, a, m), Adjoint(t, b, m))
  {
    RecordBinary(t, BinaryNode(op, t, a, b), a, b, m);
    BinaryNodeRule(op, t, a, b, Adjoint(t, a, m), Adjoint(t, b, m));
  }

  /** Applying an operator to values that stand for a and b gives a value that
      stands for a op b, whenever a op b is defined. */
  lemma ApplyCorrect(op: BinOp, u: Traced, w: Traced, t: Tape, a: Expr, b: Expr, x: seq<real>)
    requires WellFormed(t) && |x| <= |t| && Fits(u, t) && Fits(w, t)
    requires Regular(a, x) && Regular(b, x) && (op == Over ==> Value(b, x) != 0.0)
    requires Matches(u, t, a, x) && Matches(w, t, b, x)
    ensures Apply(op, u, w, t).Some?
    ensures Matches(Apply(op, u, w, t).value.0, Apply(op, u, w, t).value.1, Bin(op, a, b), x)
  {
    match u {
      case Plain(p) =>
        match w {
          case Plain(q) => ApplyPlainPlain(op, p, q, t, a, b, x);
          case Ref(j) => ApplyPlainRef(op, p, j, t, a, b, x);
        }
      case Ref(i) =>
        match w {
          case Plain(q) => ApplyRefPlain(op, i, q, t, a, b, x);
          case Ref(j) => ApplyRefRef(op, i, j, t, a, b, x);
        }
    }
  }

  lemma ApplyPlainPlain(op: BinOp, p: real, q: real, t: Tape, a: Expr, b: Expr, x: seq<real>)
    requires WellFormed(t) && |x| <= |t|
    requires Regular(a, x) && Regular(b, x) && (op == Over ==> Value(b, x) != 0.0)
    requires Matches(Plain(p), t, a, x) && Matches(Plain(q), t, b, x)
    ensures ApplyPlain(op, p, Plain(q), t).Some?
    ensures Matches(ApplyPlain(op, p, Plain(q), t).value.0, t, Bin(op, a, b), x)
  {
    forall m | 0 <= m < |x|
      ensures Deriv(Bin(op, a, b), x, m) == 0.0
    {
      ConstantRules(op, p, q);
    }
  }

  lemma ApplyPlainRef(op: BinOp, p: real, j: nat, t: Tape, a: Expr, b: Expr, x: seq<real>)
    requires WellFormed(t) && |x| <= |t| && j < |t|
    requires Regular(a, x) && Regular(b, x) && (op == Over ==> Value(b, x) != 0.0)
    requires Matches(Plain(p), t, a, x) && Matches(Ref(j), t, b, x)
    ensures ApplyPlain(op, p, Ref(j), t).Some?
    ensures Matches(ApplyPlain(op, p, Ref(j), t).value.0, ApplyPlain(op, p, Ref(j), t).value.1, Bin(op, a, b), x)
  {
    var n := LeftConstNode(op, t, p, j);
    assert ApplyPlain(op, p, Ref(j), t) == Some((Ref(|t|), Push(t, n)));
    forall m | 0 <= m < |x|
      ensures Adjoint(Push(t, n), |t|, m) == Deriv(Bin(op, a, b), x, m)
    {
      LeftConstAdjoint(op, t, p, j, m);
    }
    LeftConstNodeRule(op, t, p, j, 0.0);
  }

  lemma ApplyRefPlain(op: BinOp, i: nat, q: real, t: Tape, a: Expr, b: Expr, x: seq<real>)
    requires WellFormed(t) && |x| <= |t| && i < |t|
    requires Regular(a, x) && Regular(b, x) && (op == Over ==> Value(b, x) != 0.0)
    requires Matches(Ref(i), t, a, x) && Matches(Plain(q), t, b, x)
    ensures ApplyRef(op, i, Plain(q), t).Some?
    ensures Matches(ApplyRef(op, i, Plain(q), t).value.0, ApplyRef(op, i, Plain(q), t).value.1, Bin(op, a, b), x)
  {
    var n := RightConstNode(op, t, i, q);
    assert ApplyRef(op, i, Plain(q), t) == Some((Ref(|t|), Push(t, n)));
    forall m | 0 <= m < |x|
      ensures Adjoint(Push(t, n), |t|, m) == Deriv(Bin(op, a, b), x, m)
    {
      RightConstAdjoint(op, t, i, q, m);
    }
    RightConstNodeRule(op, t, i, q, 0.0);
  }

  lemma ApplyRefRef(op: BinOp, i: nat, j: nat, t: Tape, a: Expr, b: Expr, x: seq<real>)
    requires WellFormed(t) && |x| <= |t| && i < |t| && j < |t|
    requires Regular(a, x) && Regular(b, x) && (op == Over ==> Value(b, x) != 0.0)
    requires Matches(Ref(i), t, a, x) && Matches(Ref(j), t, b, x)
    ensures ApplyRef(op, i, Ref(j), t).Some?
    ensures Matches(ApplyRef(op, i, Ref(j), t).value.0, ApplyRef(op, i, Ref(j), t).value.1, Bin(op, a, b), x)
  {
    var n := BinaryNode(op, t, i, j);
    assert ApplyRef(op, i, Ref(j), t) == Some((Ref(|t|), Push(t, n)));
    forall m | 0 <= m < |x|
      ensures Adjoint(Push(t, n), |t|, m) == Deriv(Bin(op, a, b), x, m)
    {
      BinaryAdjoint(op, t, i, j, m);
    }
    BinaryNodeRule(op, t, i, j, 0.0, 0.0);
  }

  /** Negation and a power with a constant exponent, likewise. */
  lemma NegAdjoint(t: Tape, a: nat, m: nat)
    requires WellFormed(t) && a < |t| && m < |t|
    ensures Adjoint(Push(t, NegNode(t, a)), |t|, m) == -Adjoint(t, a, m)
  {
    RecordUnary(t, NegNode(t, a), a, m);
  }

  lemma PowAdjoint(t: Tape, a: nat, n: nat, m: nat, v: real, d: real)
    requires WellFormed(t) && a < |t| && m < |t| && t[a].val == v && (v != 0.0 || n >= 2) && Adjoint(t, a, m) == d
    ensures Adjoint(Push(t, PowConstNode(t, a, n)), |t|, m) == (n as real) * IntPow(v, n - 1) * d
  {
    RecordUnary(t, PowConstNode(t, a, n), a, m);
  }

  /** Recording e on the input roots succeeds wherever e is regular, and leaves
      a value that stands for e: the recorded value is e's value and the
      adjoints with respect to the roots are e's partial derivatives. */
  lemma {:induction false} BuildCorrect(e: Expr, x: seq<real>, t: Tape)
    requires Rooted(t, x) && Regular(e, x)
    ensures Build(e, |x|, t).Some?
    ensures Rooted(Build(e, |x|, t).value.1, x)
    ensures Matches(Build(e, |x|, t).value.0, Build(e, |x|, t).value.1, e, x)
  {
    match e {
      case Var(i) =>
        forall m | 0 <= m < |x|
          ensures Adjoint(t, i, m) == Deriv(e, x, m)
        {
          RootAdjoint(t, i, m);
        }
      case Const(_) =>
      case Bin(op, a, b) =>
        BuildCorrect(a, x, t);
        var (u, t1) := Build(a, |x|, t).value;
        BuildCorrect(b, x, t1);
        BinCorrect(op, a, b, x, t, u, t1);
      case Neg(a) =>
        BuildCorrect(a, x, t);
        var (u, t1) := Build(a, |x|, t).value;
        NegCorrect(a, x, t, u, t1);
      case PowNat(a, n) =>
        BuildCorrect(a, x, t);
        var (u, t1) := Build(a, |x|, t).value;
        PowCorrect(a, n, x, t, u, t1);
    }
  }

  /** The steps of BuildCorrect: from values standing for the operands to the
      value recorded for the whole. */
  lemma BinCorrect(op: BinOp, a: Expr, b: Expr, x: seq<real>, t: Tape, u: Traced, t1: Tape)
    requires Rooted(t, x) && Regular(Bin(op, a, b), x)
    requires Build(a, |x|, t) == Some((u, t1)) && Rooted(t1, x) && Matches(u, t1, a, x)
    requires Build(b, |x|, t1).Some? && Rooted(Build(b, |x|, t1).value.1, x)
    requires Matches(Build(b, |x|, t1).value.0, Build(b, |x|, t1).value.1, b, x)
    ensures Build(Bin(op, a, b), |x|, t).Some?
    ensures Rooted(Build(Bin(op, a, b), |x|, t).value.1, x)
    ensures Matches(Build(Bin(op, a, b), |x|, t).value.0, Build(Bin(op, a, b), |x|, t).value.1, Bin(op, a, b), x)
  {
    var (w, t2) := Build(b, |x|, t1).value;
    MatchesStable(u, t1, t2, a, x);
    ApplyCorrect(op, u, w, t2, a, b, x);
    RootedStable(t2, Apply(op, u, w, t2).value.1, x);
  }

  lemma NegCorrect(a: Expr, x: seq<real>, t: Tape, u: Traced, t1: Tape)
    requires Rooted(t, x) && Regular(a, x)
    requires Build(a, |x|, t) == Some((u, t1)) && Rooted(t1, x) && Matches(u, t1, a, x)
    ensures Build(Neg(a), |x|, t).Some?
    ensures Rooted(Build(Neg(a), |x|, t).value.1, x)
    ensures Matches(Build(Neg(a), |x|, t).value.0, Build(Neg(a), |x|, t).value.1, Neg(a), x)
  {
    if u.Ref? {
      var k := u.k;
      forall m | 0 <= m < |x|
        ensures Adjoint(Push(t1, NegNode(t1, k)), |t1|, m) == Deriv(Neg(a), x, m)
      {
        NegAdjoint(t1, k, m);
      }
      RootedStable(t1, Push(t1, NegNode(t1, k)), x);
    }
  }

  lemma PowCorrect(a: Expr, n: nat, x: seq<real>, t: Tape, u: Traced, t1: Tape)
    requires Rooted(t, x) && Regular(PowNat(a, n), x)
    requires Build(a, |x|, t) == Some((u, t1)) && Rooted(t1, x) && Matches(u, t1, a, x)
    ensures Build(PowNat(a, n), |x|, t).Some?
    ensures Rooted(Build(PowNat(a, n), |x|, t).value.1, x)
    ensures Matches(Build(PowNat(a, n), |x|, t).value.0, Build(PowNat(a, n), |x|, t).value.1, PowNat(a, n), x)
  {
    match u {
      case Plain(c) =>
        PowOfPlainMatches(a, n, x, t1, c);
      case Ref(k) =>
        var t2 := Push(t1, PowConstNode(t1, k, n));
        PowOfNodeMatches(a, n, x, t1, k);
        assert Build(PowNat(a, n), |x|, t) == Some((Ref(|t1|), t2));
        RootedStable(t1, t2, x);
    }
  }

  lemma PowOfPlainMatches(a: Expr, n: nat, x: seq<real>, t: Tape, c: real)
    requires WellFormed(t) && Regular(PowNat(a, n), x) && Matches(Plain(c), t, a, x)
    ensures Matches(Plain(NatPow(c, n)), t, PowNat(a, n), x)
  {
    forall m | 0 <= m < |x|
      ensures Deriv(PowNat(a, n), x, m) == 0.0
    {
      assert Deriv(a, x, m) == 0.0;
    }
  }

  lemma PowOfNodeMatches(a: Expr, n: nat, x: seq<real>, t: Tape, k: nat)
    requires WellFormed(t) && |x| <= |t| && k < |t| && Regular(PowNat(a, n), x) && Matches(Ref(k), t, a, x)
    ensures t[k].val != 0.0 || n >= 2
    ensures Matches(Ref(|t|), Push(t, PowConstNode(t, k, n)), PowNat(a, n), x)
  {
    forall m | 0 <= m < |x|
      ensures Adjoint(Push(t, PowConstNode(t, k, n)), |t|, m) == Deriv(PowNat(a, n), x, m)
    {
      PowAdjoint(t, k, n, m, Value(a, x), Deriv(a, x, m));
    }
  }

  /** Recording every output in turn: each stands for its expression on the
      final tape. */
  lemma {:induction false} BuildAllCorrect(outs: seq<Expr>, x: seq<real>, t: Tape)
    requires Rooted(t, x) && AllRegular(outs, x)
    ensures BuildAll(outs, |x|, t).Some?
    ensures Rooted(BuildAll(outs, |x|, t).value.1, x)
    ensures forall k | 0 <= k < |outs| ::
      Matches(BuildAll(outs, |x|, t).value.0[k], BuildAll(outs, |x|, t).value.1, outs[k], x)
    decreases |outs|
  {
    if |outs| > 0 {
      BuildCorrect(outs[0], x, t);
      var (v, t1) := Build(outs[0], |x|, t).value;
      assert AllRegular(outs[1..], x) by {
        forall k | 0 <= k < |outs| - 1
          ensures Regular(outs[1..][k], x)
        {
          assert outs[1..][k] == outs[k + 1];
        }
      }
      BuildAllCorrect(outs[1..], x, t1);
      var (vs, t2) := BuildAll(outs[1..], |x|, t1).value;
      MatchesStable(v, t1, t2, outs[0], x);
      assert BuildAll(outs, |x|, t).value == ([v] + vs, t2);
      forall k | 0 <= k < |outs|
        ensures Matches(([v] + vs)[k], t2, outs[k], x)
      {
        if k > 0 {
          assert ([v] + vs)[k] == vs[k - 1] && outs[k] == outs[1..][k - 1];
        }
      }
    }
  }

  // ---- the driver ----

  /** The adjoint map the driver starts a row from: every input root at 0. */
  function Zeroes(n: nat): (acc: map<nat, real>)
    ensures forall i: nat :: i in acc <==> i < n
    ensures forall i: nat | i in acc :: acc[i] == 0.0
  {
    if n == 0 then map[] else Zeroes(n - 1)[n - 1 := 0.0]
  }

  /** _get_base_partials_1d as written: a plain output gives a row of zeros; a
      node output runs the backward pass with trace 1 from a map holding 0 for
      every root, and reads the roots' entries. The output's own entry is never
      seeded, so a row counts only the non-empty paths. */
  function RowAsWritten(t: Tape, v: Traced, n: nat): (row: seq<real>)
    requires WellFormed(t) && Fits(v, t)
    ensures |row| == n
    ensures forall i | 0 <= i < n :: row[i] == if v.Ref? then PathSum(t, v.k, i) else 0.0
  {
    match v
    case Plain(_) => seq(n, i => 0.0)
    case Ref(k) =>
      var acc := Backward(t, k, 1.0, Zeroes(n));
      var row := seq(n, i requires 0 <= i < n => Get(acc, i));
      assert forall i | 0 <= i < n :: row[i] == PathSum(t, k, i) by {
        forall i | 0 <= i < n
          ensures row[i] == PathSum(t, k, i)
        {
          BackwardAddsPathSums(t, k, 1.0, Zeroes(n), i);
        }
      }
      row
  }

  /** The corrected row: the output's own entry is seeded with 1 before the
      backward pass, so an output that is itself an input root reads 1 there. */
  function Row(t: Tape, v: Traced, n: nat): (row: seq<real>)
    requires WellFormed(t) && Fits(v, t)
    ensures |row| == n
    ensures forall i | 0 <= i < n :: row[i] == if v.Ref? then Adjoint(t, v.k, i) else 0.0
  {
    match v
    case Plain(_) => seq(n, i => 0.0)
    case Ref(k) =>
      var seed := Zeroes(n)[k := 1.0];
      var acc := Backward(t, k, 1.0, seed);
      var row := seq(n, i requires 0 <= i < n => Get(acc, i));
      assert forall i | 0 <= i < n :: row[i] == Adjoint(t, k, i) by {
        forall i | 0 <= i < n
          ensures row[i] == Adjoint(t, k, i)
        {
          BackwardAddsPathSums(t, k, 1.0, seed, i);
          assert Get(Zeroes(n), i) == 0.0;
          assert Get(seed, i) == if k == i then 1.0 else 0.0;
        }
      }
      row
  }

  /** get_jacobian as written: record all outputs on fresh roots, then one row
      per output. A function with exactly one output takes the other branch,
      which hands the Python function itself to _get_partials and raises. */
  function ReverseJacobianAsWritten(outs: seq<Expr>, x: seq<real>): (r: Option<seq<seq<real>>>)
    ensures r.Some? ==> |r.value| == |outs| && forall k | 0 <= k < |outs| :: |r.value[k]| == |x|
    ensures |outs| == 1 ==> r.None?
  {
    var t := Roots(x);
    var b := BuildAll(outs, |x|, t);
    if b.None? || |outs| == 1 then None
    else
      var (vs, t') := b.value;
      Some(seq(|outs|, k requires 0 <= k < |outs| => RowAsWritten(t', vs[k], |x|)))
  }

  /** get_jacobian corrected: one seeded row per output, for any number of
      outputs. */
  function ReverseJacobian(outs: seq<Expr>, x: seq<real>): (r: Option<seq<seq<real>>>)
    ensures r.Some? ==> |r.value| == |outs| && forall k | 0 <= k < |outs| :: |r.value[k]| == |x|
  {
    var t := Roots(x);
    var b := BuildAll(outs, |x|, t);
    if b.None? then None
    else
      var (vs, t') := b.value;
      Some(seq(|outs|, k requires 0 <= k < |outs| => Row(t', vs[k], |x|)))
  }

  /** get_vals: record the outputs on fresh roots and read their values. */
  function GetVals(outs: seq<Expr>, x: seq<real>): (r: Option<seq<real>>)
    ensures r.Some? ==> |r.value| == |outs|
  {
    var t := Roots(x);
    var b := BuildAll(outs, |x|, t);
    if b.None? then None
    else
      var (vs, t') := b.value;
      Some(seq(|outs|, k requires 0 <= k < |outs| => if vs[k].Ref? then t'[vs[k].k].val else vs[k].c))
  }

  lemma RootsAreRooted(x: seq<real>)
    ensures Rooted(Roots(x), x)
  {
    forall i | 0 <= i < |x|
      ensures Roots(x)[i] == Root(x[i])
    {
    }
  }

  /** Reverse mode computes the Jacobian wherever every output is regular. */
  lemma ReverseJacobianCorrect(outs: seq<Expr>, x: seq<real>)
    requires AllRegular(outs, x)
    ensures ReverseJacobian(outs, x) == Some(Jacobian(outs, x))
  {
    var t := Roots(x);
    RootsAreRooted(x);
    BuildAllCorrect(outs, x, t);
    var (vs, t') := BuildAll(outs, |x|, t).value;
    var J := ReverseJacobian(outs, x).value;
    forall k | 0 <= k < |outs|
      ensures J[k] == Jacobian(outs, x)[k]
    {
      assert J[k] == Row(t', vs[k], |x|);
      forall i | 0 <= i < |x|
        ensures J[k][i] == Jacobian(outs, x)[k][i]
      {
      }
    }
    assert J == Jacobian(outs, x);
  }

  /** ... and the values of the outputs. */
  lemma GetValsCorrect(outs: seq<Expr>, x: seq<real>)
    requires AllRegular(outs, x)
    ensures GetVals(outs, x) == Some(Values(outs, x))
  {
    var t := Roots(x);
    RootsAreRooted(x);
    BuildAllCorrect(outs, x, t);
    var (vs, t') := BuildAll(outs, |x|, t).value;
    forall k | 0 <= k < |outs|
      ensures GetVals(outs, x).value[k] == Values(outs, x)[k]
    {
    }
    assert GetVals(outs, x).value == Values(outs, x);
  }

  /** The unseeded row agrees with the seeded one except on the output's own
      entry, which only an output that is itself an input root can reach. */
  lemma RowsDifferOnlyAtTheOutput(t: Tape, v: Traced, n: nat)
    requires WellFormed(t) && Fits(v, t)
    ensures forall i | 0 <= i < n :: Row(t, v, n)[i] == RowAsWritten(t, v, n)[i] + (if v == Ref(i) then 1.0 else 0.0)
  {
  }

  /** So the driver as written gives the Jacobian for two or more outputs none
      of which is a bare input. */
  lemma ReverseJacobianAsWrittenCorrect(outs: seq<Expr>, x: seq<real>)
    requires AllRegular(outs, x) && |outs| != 1
    requires forall k | 0 <= k < |outs| :: !outs[k].Var?
    ensures ReverseJacobianAsWritten(outs, x) == Some(Jacobian(outs, x))
  {
    var t := Roots(x);
    RootsAreRooted(x);
    BuildAllCorrect(outs, x, t);
    ReverseJacobianCorrect(outs, x);
    var (vs, t') := BuildAll(outs, |x|, t).value;
    forall k | 0 <= k < |outs|
      ensures ReverseJacobianAsWritten(outs, x).value[k] == ReverseJacobian(outs, x).value[k]
    {
      BuildAllFresh(outs, x, t, k);
      RowsDifferOnlyAtTheOutput(t', vs[k], |x|);
    }
    assert ReverseJacobianAsWritten(outs, x).value == ReverseJacobian(outs, x).value;
  }

  /** Only a bare input records as one of the roots; any other output is plain
      or a node appended after them. */
  lemma {:induction false} BuildAllFresh(outs: seq<Expr>, x: seq<real>, t: Tape, k: nat)
    requires WellFormed(t) && |x| <= |t| && k < |outs| && !outs[k].Var?
    requires BuildAll(outs, |x|, t).Some?
    ensures BuildAll(outs, |x|, t).value.0[k].Ref? ==> BuildAll(outs, |x|, t).value.0[k].k >= |t|
    decreases |outs|
  {
    var (v, t1) := Build(outs[0], |x|, t).value;
    if k > 0 {
      assert outs[1..][k - 1] == outs[k];
      BuildAllFresh(outs[1..], x, t1, k - 1);
    }
  }

  /** reverse_mode with the corrected Jacobian driver: the values and the
      Jacobian of every regular function, one output included. */
  method Reverse(outs: seq<Expr>, x: seq<real>) returns (vals: Option<seq<real>>, J: Option<seq<seq<real>>>)
    ensures AllRegular(outs, x) ==> vals == Some(Values(outs, x)) && J == Some(Jacobian(outs, x))
  {
    vals := GetVals(outs, x);
    J := ReverseJacobian(outs, x);
    if AllRegular(outs, x) {
      GetValsCorrect(outs, x);
      ReverseJacobianCorrect(outs, x);
    }
  }

  /** reverse_mode as written: get_vals, then the driver as written. When the
      latter raises, so does the whole call, and no values are returned. */
  method ReverseAsWritten(outs: seq<Expr>, x: seq<real>) returns (r: Option<(seq<real>, seq<seq<real>>)>)
    ensures |outs| == 1 ==> r.None?
    ensures AllRegular(outs, x) && |outs| != 1 && (forall k | 0 <= k < |outs| :: !outs[k].Var?) ==>
      r == Some((Values(outs, x), Jacobian(outs, x)))
  {
    var vals := GetVals(outs, x);
    var J := ReverseJacobianAsWritten(outs, x);
    if AllRegular(outs, x) && |outs| != 1 && (forall k | 0 <= k < |outs| :: !outs[k].Var?) {
      GetValsCorrect(outs, x);
      ReverseJacobianAsWrittenCorrect(outs, x);
    }
    if vals.None? || J.None? {
      return None;
    }
    r := Some((vals.value, J.value));
  }
}
