/** Reverse-mode recording: the node type of src/reversead.py, kept in an arena.
    Each operator appends one node holding its value, the arena indices of the
    nodes it was computed from (its children, in operand order) and the local
    partial derivative of its value with respect to each child, evaluated at the
    recorded values. Node identity is the arena index. */
module Tapes {
  import opened Arith
  import Duals

  /** A root (one input coordinate) has no children and records no partials
      (the source stores None for them). Negation and unary plus record a
      second partial, the operand's value, that the backward pass never reads. */
  datatype Node = Node(val: real, children: seq<nat>, partials: seq<real>)

  type Tape = seq<Node>

  /** A freshly constructed node, as made for every input coordinate. */
  function Root(v: real): Node {
    Node(v, [], [])
  }

  /** The node may sit at arena index k: every child is an older node, and every
      child has its partial. */
  predicate WiredBelow(n: Node, k: nat) {
    && |n.partials| >= |n.children|
    && forall j | 0 <= j < |n.children| :: n.children[j] < k
  }

  /** Every node only refers to nodes created before it, so the graph is a DAG. */
  predicate WellFormed(t: Tape) {
    forall k | 0 <= k < |t| :: WiredBelow(t[k], k)
  }

  /** t' is t with nodes appended: recording never changes an existing node. */
  predicate Extends(t: Tape, t': Tape) {
    |t| <= |t'| && t'[..|t|] == t
  }

  /** Appending a node wired to existing nodes keeps the arena acyclic. */
  function Push(t: Tape, n: Node): (r: Tape)
    requires WellFormed(t) && WiredBelow(n, |t|)
    ensures WellFormed(r) && Extends(t, r)
    ensures |r| == |t| + 1 && r[|t|] == n
  {
    t + [n]
  }

  // ---- node with node ----

  function AddNode(t: Tape, a: nat, b: nat): (n: Node)
    requires a < |t| && b < |t|
    ensures WiredBelow(n, |t|)
  {
    Node(t[a].val + t[b].val, [a, b], [1.0, 1.0])
  }

  function SubNode(t: Tape, a: nat, b: nat): (n: Node)
    requires a < |t| && b < |t|
    ensures WiredBelow(n, |t|)
  {
    Node(t[a].val - t[b].val, [a, b], [1.0, -1.0])
  }

  function MulNode(t: Tape, a: nat, b: nat): (n: Node)
    requires a < |t| && b < |t|
    ensures WiredBelow(n, |t|)
  {
    Node(t[a].val * t[b].val, [a, b], [t[b].val, t[a].val])
  }

  function DivNode(t: Tape, a: nat, b: nat): (n: Node)
    requires a < |t| && b < |t|
    requires t[b].val != 0.0
    ensures WiredBelow(n, |t|)
  {
    Node(t[a].val / t[b].val, [a, b], [1.0 / t[b].val, -(t[a].val / (t[b].val * t[b].val))])
  }

  // ---- node with a plain number c on the right ----

  function AddConstNode(t: Tape, a: nat, c: real): (n: Node)
    requires a < |t|
    ensures WiredBelow(n, |t|)
  {
    Node(t[a].val + c, [a], [1.0])
  }

  function SubConstNode(t: Tape, a: nat, c: real): (n: Node)
    requires a < |t|
    ensures WiredBelow(n, |t|)
  {
    Node(t[a].val - c, [a], [1.0])
  }

  function MulConstNode(t: Tape, a: nat, c: real): (n: Node)
    requires a < |t|
    ensures WiredBelow(n, |t|)
  {
    Node(t[a].val * c, [a], [c])
  }

  function DivConstNode(t: Tape, a: nat, c: real): (n: Node)
    requires a < |t|
    requires c != 0.0
    ensures WiredBelow(n, |t|)
  {
    Node(t[a].val / c, [a], [1.0 / c])
  }

  /** node ** c for an integer exponent c; the partial c * v^(c-1) needs a
      non-zero value unless c >= 1. */
  function PowConstNode(t: Tape, a: nat, c: int): (n: Node)
    requires a < |t|
    requires t[a].val != 0.0 || c >= 1
    ensures WiredBelow(n, |t|)
  {
    Node(IntPow(t[a].val, c), [a], [(c as real) * IntPow(t[a].val, c - 1)])
  }

  // ---- plain number c on the left: c + n and c * n delegate to the forward
  //      operators, so only the two asymmetric ones are separate ----

  function RSubConstNode(t: Tape, a: nat, c: real): (n: Node)
    requires a < |t|
    ensures WiredBelow(n, |t|)
  {
    Node(-1.0 * t[a].val + c, [a], [-1.0])
  }

  function RDivConstNode(t: Tape, a: nat, c: real): (n: Node)
    requires a < |t|
    requires t[a].val != 0.0
    ensures WiredBelow(n, |t|)
  {
    Node(c / t[a].val, [a], [-(c / (t[a].val * t[a].val))])
  }

  // ---- unary ----

  function NegNode(t: Tape, a: nat): (n: Node)
    requires a < |t|
    ensures WiredBelow(n, |t|)
  {
    Node(-1.0 * t[a].val, [a], [-1.0, t[a].val])
  }

  function PosNode(t: Tape, a: nat): (n: Node)
    requires a < |t|
    ensures WiredBelow(n, |t|)
  {
    Node(t[a].val, [a], [1.0, t[a].val])
  }

  // ---- comparisons ----

  /** node == node compares the value and the partial lists, not the children. */
  function NodeEqual(x: Node, y: Node): bool {
    x.val == y.val && x.partials == y.partials
  }

  /** node == number (either side) compares the value only. */
  function NodeEqualConst(x: Node, c: real): bool {
    x.val == c
  }

  function NodeNotEqual(x: Node, y: Node): bool {
    !NodeEqual(x, y)
  }

  function NodeNotEqualConst(x: Node, c: real): bool {
    !NodeEqualConst(x, c)
  }

  function NodeCompare(rel: Duals.Relation, x: Node, y: Node): bool {
    Duals.Holds(rel, x.val, y.val)
  }

  function NodeCompareConst(rel: Duals.Relation, x: Node, c: real): bool {
    Duals.Holds(rel, x.val, c)
  }

  /** c rel node, answered by the node's mirrored operator. */
  function NodeCompareReflected(rel: Duals.Relation, c: real, x: Node): bool {
    NodeCompareConst(Duals.Mirror(rel), x, c)
  }

  // ---- properties ----

  /** The arena of input roots is well formed and holds the inputs in order. */
  function Roots(x: seq<real>): (t: Tape)
    ensures WellFormed(t) && |t| == |x|
    ensures forall i | 0 <= i < |x| :: t[i].val == x[i] && t[i].children == []
  {
    seq(|x|, i requires 0 <= i < |x| => Root(x[i]))
  }

  /** The local partials a binary node records are the chain rule of dual
      arithmetic: pushing derivatives da, db through the node's partials gives
      the derivative the dual operator computes on the same values. */
  lemma BinaryNodesFollowDuals(t: Tape, a: nat, b: nat, da: real, db: real)
    requires a < |t| && b < |t|
    ensures var n := AddNode(t, a, b);
      Duals.Add(Duals.Dual(t[a].val, da), Duals.Dual(t[b].val, db)) == Duals.Dual(n.val, n.partials[0] * da + n.partials[1] * db)
    ensures var n := SubNode(t, a, b);
      Duals.Sub(Duals.Dual(t[a].val, da), Duals.Dual(t[b].val, db)) == Duals.Dual(n.val, n.partials[0] * da + n.partials[1] * db)
    ensures var n := MulNode(t, a, b);
      Duals.Mul(Duals.Dual(t[a].val, da), Duals.Dual(t[b].val, db)) == Duals.Dual(n.val, n.partials[0] * da + n.partials[1] * db)
    ensures t[b].val != 0.0 ==> var n := DivNode(t, a, b);
      Duals.Div(Duals.Dual(t[a].val, da), Duals.Dual(t[b].val, db)) == Duals.Dual(n.val, n.partials[0] * da + n.partials[1] * db)
  {
    if t[b].val != 0.0 {
      QuotientRule(t[a].val, t[b].val, da, db);
    }
  }

  /** Likewise for nodes with one child and a plain operand on either side. */
  lemma ConstNodesFollowDuals(t: Tape, a: nat, c: real, d: real)
    requires a < |t|
    ensures var n := AddConstNode(t, a, c);
      Duals.AddConst(Duals.Dual(t[a].val, d), c) == Duals.Dual(n.val, n.partials[0] * d)
    ensures var n := SubConstNode(t, a, c);
      Duals.SubConst(Duals.Dual(t[a].val, d), c) == Duals.Dual(n.val, n.partials[0] * d)
    ensures var n := MulConstNode(t, a, c);
      Duals.MulConst(Duals.Dual(t[a].val, d), c) == Duals.Dual(n.val, n.partials[0] * d)
    ensures var n := RSubConstNode(t, a, c);
      Duals.RSub(c, Duals.Dual(t[a].val, d)) == Duals.Dual(n.val, n.partials[0] * d)
  {
  }

  /** Likewise for the two divisions by or of a plain number. */
  lemma QuotientNodesFollowDuals(t: Tape, a: nat, c: real, d: real)
    requires a < |t|
    ensures c != 0.0 ==> var n := DivConstNode(t, a, c);
      Duals.DivConst(Duals.Dual(t[a].val, d), c) == Duals.Dual(n.val, n.partials[0] * d)
    ensures t[a].val != 0.0 ==> var n := RDivConstNode(t, a, c);
      Duals.RDiv(c, Duals.Dual(t[a].val, d)) == Duals.Dual(n.val, n.partials[0] * d)
  {
    var v := t[a].val;
    if c != 0.0 {
      QuotientByConstant(v, d, c);
    }
    if v != 0.0 {
      Duals.ReflectedQuotient(c, Duals.Dual(v, d));
    }
  }

  /** Likewise for the power with a constant exponent at a non-zero value,
      negation and unary plus. */
  lemma UnaryNodesFollowDuals(t: Tape, a: nat, k: int, d: real)
    requires a < |t|
    ensures t[a].val != 0.0 ==> var n := PowConstNode(t, a, k);
      Duals.Pow(Duals.Dual(t[a].val, d), k) == Duals.Dual(n.val, n.partials[0] * d)
    ensures var n := NegNode(t, a);
      Duals.Neg(Duals.Dual(t[a].val, d)) == Duals.Dual(n.val, n.partials[0] * d)
    ensures var n := PosNode(t, a);
      Duals.Pos(Duals.Dual(t[a].val, d)) == Duals.Dual(n.val, n.partials[0] * d)
  {
  }

  /** At a zero value the two modes part ways on x ** 1: the dual operator
      returns (0, 0) by its special case, while the node records partial 1. */
  lemma ZeroBasePartialsDiffer(t: Tape, a: nat)
    requires a < |t| && t[a].val == 0.0
    ensures PowConstNode(t, a, 1).partials == [1.0]
    ensures Duals.Pow(Duals.Dual(t[a].val, 1.0), 1).du == 0.0
  {
    SmallPowers(0.0);
  }

  /** Node equality ignores the children: two nodes are equal exactly when they
      agree once the children are set aside. Equality with a number reads the
      value only, and != is the negation of ==. */
  lemma NodeEqualityIgnoresChildren(x: Node, y: Node, c: real)
    ensures NodeEqual(x, y) <==> x.(children := y.children) == y
    ensures NodeEqualConst(x, c) <==> NodeEqualConst(x.(partials := [], children := []), c)
    ensures NodeNotEqual(x, y) <==> !NodeEqual(y, x)
    ensures NodeNotEqualConst(x, c) <==> x.val != c
  {
  }

  /** Orderings read only the value, and a plain number on the left gives the
      same answer as the mathematical comparison. */
  lemma NodeOrderReadsOnlyValues(rel: Duals.Relation, x: Node, y: Node, c: real)
    ensures NodeCompare(rel, x, y) == NodeCompare(rel, Root(x.val), Root(y.val))
    ensures NodeCompare(rel, x, y) == NodeCompare(Duals.Mirror(rel), y, x)
    ensures NodeCompareReflected(rel, c, x) == Duals.Holds(rel, c, x.val)
  {
  }
}
