/** Symbol-free affine expressions and maps, and their mathematical meaning. */
module Affine {
  import opened Arith

  datatype BinaryOp = Add | Mul | Mod | FloorDiv | CeilDiv

  datatype Expr =
    | Dim(position: nat)
    | Const(value: int)
    | Binary(op: BinaryOp, lhs: Expr, rhs: Expr)

  type AffineMap = seq<Expr>

  /** The largest integer not above the exact quotient. */
  function Floor(a: int, b: int): int
    requires b != 0
  {
    if 0 < b then a / b else (-a) / (-b)
  }

  /** The smallest integer not below the exact quotient. */
  function Ceil(a: int, b: int): int
    requires b != 0
  {
    -Floor(-a, b)
  }

  function Remainder(a: int, b: int): int
    requires b != 0
  {
    a - b * Floor(a, b)
  }

  function Apply(op: BinaryOp, a: int, b: int): int {
    match op
    case Add => a + b
    case Mul => a * b
    case Mod => if b == 0 then 0 else Remainder(a, b)
    case FloorDiv => if b == 0 then 0 else Floor(a, b)
    case CeilDiv => if b == 0 then 0 else Ceil(a, b)
  }

  /** The value of an expression at a point. */
  function Eval(e: Expr, xs: seq<int>): int {
    match e
    case Dim(p) => if p < |xs| then xs[p] else 0
    case Const(v) => v
    case Binary(op, l, r) => Apply(op, Eval(l, xs), Eval(r, xs))
  }

  function EvalMap(m: AffineMap, xs: seq<int>): (ys: seq<int>)
    ensures |ys| == |m|
  {
    seq(|m|, i requires 0 <= i < |m| => Eval(m[i], xs))
  }

  /** Floor and remainder of a positive divisor are Euclidean. */
  lemma PositiveDivisor(a: int, b: int)
    requires 0 < b
    ensures Floor(a, b) == a / b && Remainder(a, b) == a % b
  {
  }

  /** Only dimensions below `n` occur. */
  predicate UsesDims(e: Expr, n: nat) {
    match e
    case Dim(p) => p < n
    case Const(_) => true
    case Binary(_, l, r) => UsesDims(l, n) && UsesDims(r, n)
  }

  // ----- What the operations are, by inequalities -----

  /** `r` is what the operation gives on `a` and `b`: the largest integer not above the exact
      quotient, the smallest not below it, or the remainder with the divisor's sign. */
  ghost predicate IsResult(op: BinaryOp, a: int, b: int, r: int) {
    match op
    case Add => r == a + b
    case Mul => r == a * b
    case FloorDiv => (0 < b && b * r <= a < b * (r + 1)) || (b < 0 && b * (r + 1) < a <= b * r)
    case CeilDiv => (0 < b && b * (r - 1) < a <= b * r) || (b < 0 && b * r <= a < b * (r - 1))
    case Mod => (0 <= r < b || b < r <= 0) && exists k :: a - r == b * k
  }

  /** `v` is the value of the expression: dimensions are given, and every operation has operands
      with values and gives what it is by inequalities. */
  ghost predicate Means(e: Expr, xs: seq<int>, v: int) {
    match e
    case Dim(p) => p < |xs| && v == xs[p]
    case Const(c) => v == c
    case Binary(op, l, r) => exists a, b :: Means(l, xs, a) && Means(r, xs, b) && IsResult(op, a, b, v)
  }

  lemma FloorByInequalities(a: int, b: int, q: int)
    requires b != 0
    ensures IsResult(FloorDiv, a, b, q) <==> q == Apply(FloorDiv, a, b)
  {
    if 0 < b {
      FloorPositive(a, b, q);
    } else {
      FloorPositive(-a, -b, q);
      assert (-b) * q == -(b * q) && (-b) * (q + 1) == -(b * (q + 1));
    }
  }

  lemma FloorPositive(a: int, b: int, q: int)
    requires 0 < b
    ensures b * q <= a < b * (q + 1) <==> q == a / b
  {
    if b * q <= a < b * (q + 1) {
      assert b * (q + 1) == b * q + b;
      assert a == q * b + (a - b * q);
      DivModUnique(a, b, q, a - b * q);
    }
    assert b * (a / b + 1) == b * (a / b) + b;
  }

  lemma CeilByInequalities(a: int, b: int, q: int)
    requires b != 0
    ensures IsResult(CeilDiv, a, b, q) <==> q == Apply(CeilDiv, a, b)
  {
    FloorByInequalities(-a, b, -q);
    assert b * -q == -(b * q) && b * (-q + 1) == -(b * (q - 1));
  }

  lemma ModByInequalities(a: int, b: int, r: int)
    requires b != 0
    ensures IsResult(Mod, a, b, r) <==> r == Apply(Mod, a, b)
  {
    var q := Apply(FloorDiv, a, b);
    FloorByInequalities(a, b, q);
    assert b * (q + 1) == b * q + b;
    if r == Apply(Mod, a, b) { assert a - r == b * q; }
    if IsResult(Mod, a, b, r) {
      var k :| a - r == b * k;
      assert b * (k + 1) == b * k + b;
      FloorByInequalities(a, b, k);
    }
  }

  lemma ResultIsApply(op: BinaryOp, a: int, b: int, r: int)
    requires op in {FloorDiv, Mod, CeilDiv} ==> b != 0
    ensures IsResult(op, a, b, r) <==> r == Apply(op, a, b)
  {
    match op
    case Add =>
    case Mul =>
    case FloorDiv => FloorByInequalities(a, b, r);
    case CeilDiv => CeilByInequalities(a, b, r);
    case Mod => ModByInequalities(a, b, r);
  }

  /** Every dimension is given and no divisor is zero. */
  predicate Proper(e: Expr, xs: seq<int>) {
    match e
    case Dim(p) => p < |xs|
    case Const(_) => true
    case Binary(op, l, r) => Proper(l, xs) && Proper(r, xs) && (op in {FloorDiv, Mod, CeilDiv} ==> Eval(r, xs) != 0)
  }

  /** Evaluation gives the one value there is. */
  lemma {:induction false} EvalByInequalities(e: Expr, xs: seq<int>, v: int)
    requires Proper(e, xs)
    ensures Means(e, xs, v) <==> v == Eval(e, xs)
  {
    match e
    case Dim(_) =>
    case Const(_) =>
    case Binary(op, l, r) =>
      EvalByInequalities(l, xs, Eval(l, xs));
      EvalByInequalities(r, xs, Eval(r, xs));
      ResultIsApply(op, Eval(l, xs), Eval(r, xs), v);
      if Means(e, xs, v) {
        var a, b :| Means(l, xs, a) && Means(r, xs, b) && IsResult(op, a, b, v);
        EvalByInequalities(l, xs, a);
        EvalByInequalities(r, xs, b);
      }
  }

  // ----- Composition -----

  function Substitute(e: Expr, parts: seq<Expr>): Expr {
    match e
    case Dim(p) => if p < |parts| then parts[p] else e
    case Const(_) => e
    case Binary(op, l, r) => Binary(op, Substitute(l, parts), Substitute(r, parts))
  }

  /** `outer` after `inner`. */
  function Compose(outer: AffineMap, inner: AffineMap): (m: AffineMap)
    ensures |m| == |outer|
  {
    seq(|outer|, i requires 0 <= i < |outer| => Substitute(outer[i], inner))
  }

  lemma {:induction false} SubstituteEval(e: Expr, parts: seq<Expr>, xs: seq<int>)
    requires UsesDims(e, |parts|)
    ensures Eval(Substitute(e, parts), xs) == Eval(e, EvalMap(parts, xs))
  {
    match e
    case Dim(_) =>
    case Const(_) =>
    case Binary(_, l, r) =>
      SubstituteEval(l, parts, xs);
      SubstituteEval(r, parts, xs);
  }

  lemma ComposeEval(outer: AffineMap, inner: AffineMap, xs: seq<int>)
    requires forall i :: 0 <= i < |outer| ==> UsesDims(outer[i], |inner|)
    ensures EvalMap(Compose(outer, inner), xs) == EvalMap(outer, EvalMap(inner, xs))
  {
    forall i | 0 <= i < |outer|
      ensures Eval(Substitute(outer[i], inner), xs) == Eval(outer[i], EvalMap(inner, xs))
    {
      SubstituteEval(outer[i], inner, xs);
    }
  }
}
