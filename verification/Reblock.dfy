/** Reblocking maps between grid x shard shapes (calculateReblockMap). A device shape of
    even rank lists its grid extents first and its shard extents after them; in order of
    descending stride they alternate: grid 0, shard 0, grid 1, shard 1, ... */
module Reblock {
  import opened Arith
  import opened Shapes
  import opened Affine

  predicate EvenRank(s: seq<int>) { |s| % 2 == 0 }

  /** Where the i-th dimension by descending stride sits in a shape of rank 2 * half. */
  function Slot(i: nat, half: nat): nat {
    (if i % 2 == 1 then half else 0) + i / 2
  }

  function SlotInverse(k: nat, half: nat): nat {
    if k < half then 2 * k else 2 * (k - half) + 1
  }

  lemma SlotsPair(i: nat, half: nat)
    requires i < 2 * half
    ensures Slot(i, half) < 2 * half && SlotInverse(Slot(i, half), half) == i
  {
  }

  lemma SlotsPairBack(k: nat, half: nat)
    requires k < 2 * half
    ensures SlotInverse(k, half) < 2 * half && Slot(SlotInverse(k, half), half) == k
  {
  }

  /** The dimensions by descending stride. */
  function Interleave(s: seq<int>): (r: seq<int>)
    requires EvenRank(s)
    ensures |r| == |s|
    ensures forall i :: 0 <= i < |s| ==> Slot(i, |s| / 2) < |s| && r[i] == s[Slot(i, |s| / 2)]
  {
    forall i | 0 <= i < |s| ensures Slot(i, |s| / 2) < |s| { SlotsPair(i, |s| / 2); }
    seq(|s|, i requires 0 <= i < |s| => s[Slot(i, |s| / 2)])
  }

  function Uninterleave(r: seq<int>): (s: seq<int>)
    requires EvenRank(r)
    ensures |s| == |r|
    ensures forall k :: 0 <= k < |r| ==> SlotInverse(k, |r| / 2) < |r| && s[k] == r[SlotInverse(k, |r| / 2)]
  {
    forall k | 0 <= k < |r| ensures SlotInverse(k, |r| / 2) < |r| { SlotsPairBack(k, |r| / 2); }
    seq(|r|, k requires 0 <= k < |r| => r[SlotInverse(k, |r| / 2)])
  }

  lemma InterleaveInverse(s: seq<int>)
    requires EvenRank(s)
    ensures Uninterleave(Interleave(s)) == s
    ensures Interleave(Uninterleave(s)) == s
  {
    forall k | 0 <= k < |s| ensures Uninterleave(Interleave(s))[k] == s[k] { SlotsPairBack(k, |s| / 2); }
    forall k | 0 <= k < |s| ensures Interleave(Uninterleave(s))[k] == s[k] { SlotsPair(k, |s| / 2); }
  }

  lemma InterleaveBox(c: seq<int>, shape: seq<int>)
    requires EvenRank(shape) && |c| == |shape|
    ensures InBox(c, shape) <==> InBox(Interleave(c), Interleave(shape))
    ensures Positive(shape) <==> Positive(Interleave(shape))
  {
    var half := |shape| / 2;
    forall k | 0 <= k < |shape|
      ensures SlotInverse(k, half) < |shape|
      ensures Interleave(c)[SlotInverse(k, half)] == c[k] && Interleave(shape)[SlotInverse(k, half)] == shape[k]
    {
      SlotsPairBack(k, half);
    }
  }

  lemma UninterleaveBox(r: seq<int>, shape: seq<int>)
    requires EvenRank(shape) && |r| == |shape| && InBox(r, Interleave(shape))
    ensures InBox(Uninterleave(r), shape)
  {
    InterleaveInverse(r);
    InterleaveBox(Uninterleave(r), shape);
  }

  /** The shape without its innermost grid and shard dimensions. */
  function Outer(s: seq<int>): (r: seq<int>)
    requires EvenRank(s) && s != []
    ensures |r| == |s| - 2
  {
    s[..|s| / 2 - 1] + s[|s| / 2..|s| - 1]
  }

  lemma InterleaveStep(s: seq<int>)
    requires EvenRank(s) && s != []
    ensures Interleave(s) == Interleave(Outer(s)) + [s[|s| / 2 - 1], s[|s| - 1]]
  {
    var n := |s| - 2;
    forall i | 0 <= i < n ensures Interleave(s)[i] == Interleave(Outer(s))[i] {
      assert Slot(i, n / 2) == if i % 2 == 1 then Slot(i, |s| / 2) - 1 else Slot(i, |s| / 2);
    }
    assert Slot(n, |s| / 2) == |s| / 2 - 1 && Slot(n + 1, |s| / 2) == |s| - 1;
  }

  lemma VolumeSnoc(s: seq<int>, d: int)
    ensures Volume(s + [d]) == Volume(s) * d
  {
    assert (s + [d])[..|s|] == s;
  }

  lemma DeviceVolumeStep(s: seq<int>)
    requires EvenRank(s) && s != []
    ensures DeviceVolume(s) == DeviceVolume(Outer(s)) * s[|s| / 2 - 1] * s[|s| - 1]
  {
    var g, d := s[|s| / 2 - 1], s[|s| - 1];
    InterleaveStep(s);
    assert Interleave(s) == (Interleave(Outer(s)) + [g]) + [d];
    VolumeSnoc(Interleave(Outer(s)), g);
    VolumeSnoc(Interleave(Outer(s)) + [g], d);
  }

  lemma VolumeOfHalves(a: seq<int>, b: seq<int>, g: int, d: int)
    ensures Volume((a + [g]) + (b + [d])) == Volume(a + b) * g * d
  {
    VolumeConcat(a, b);
    VolumeConcat(a + [g], b + [d]);
    VolumeSnoc(a, g);
    VolumeSnoc(b, d);
    Rearrange(Volume(a), Volume(b), g, d);
  }

  lemma SplitHalves(s: seq<int>) returns (a: seq<int>, b: seq<int>, g: int, d: int)
    requires EvenRank(s) && s != []
    ensures s == (a + [g]) + (b + [d]) && Outer(s) == a + b
    ensures g == s[|s| / 2 - 1] && d == s[|s| - 1]
  {
    var half := |s| / 2;
    a, b, g, d := s[..half - 1], s[half..|s| - 1], s[half - 1], s[|s| - 1];
  }

  /** Reordering dimensions keeps the volume. */
  lemma {:induction false} DeviceVolumeIsVolume(s: seq<int>)
    requires EvenRank(s)
    ensures DeviceVolume(s) == Volume(s)
    decreases |s|
  {
    if s == [] {
      assert Interleave(s) == [];
    } else {
      DeviceVolumeIsVolume(Outer(s));
      DeviceVolumeStep(s);
      var a, b, g, d := SplitHalves(s);
      VolumeOfHalves(a, b, g, d);
    }
  }

  lemma Rearrange(a: int, b: int, g: int, d: int)
    ensures (a * b) * g * d == (a * g) * (b * d)
  {
    assert (a * b) * g == (a * g) * b;
    assert ((a * g) * b) * d == (a * g) * (b * d);
  }

  /** The ascending-stride flat index of a point. */
  function Position(c: seq<int>, shape: seq<int>): int
    requires EvenRank(shape) && |c| == |shape|
  {
    Flat(Interleave(c), Interleave(shape))
  }

  function DeviceVolume(shape: seq<int>): int
    requires EvenRank(shape)
  {
    Volume(Interleave(shape))
  }

  /** The point of the input shape at the same flat index. */
  function Reblocked(input: seq<int>, output: seq<int>, c: seq<int>): (p: seq<int>)
    requires EvenRank(input) && EvenRank(output) && Positive(input) && |c| == |output|
    ensures |p| == |input|
  {
    InterleaveBox(input, input);
    Uninterleave(Coord(Position(c, output), Interleave(input)))
  }

  /** Shapes between which reblocking is defined. */
  predicate Compatible(input: seq<int>, output: seq<int>) {
    && EvenRank(input) && EvenRank(output) && Positive(input) && Positive(output)
    && Volume(input) == Volume(output)
  }

  // ----- Reblocking is a volume-preserving change of coordinates -----

  /** The reblocked point lies in the input box and keeps the flat index. */
  lemma ReblockKeepsPosition(input: seq<int>, output: seq<int>, c: seq<int>)
    requires Compatible(input, output) && InBox(c, output)
    ensures InBox(Reblocked(input, output, c), input)
    ensures Position(Reblocked(input, output, c), input) == Position(c, output)
  {
    InterleaveBox(c, output);
    InterleaveBox(input, input);
    DeviceVolumeIsVolume(input);
    DeviceVolumeIsVolume(output);
    FlatInRange(Interleave(c), Interleave(output));
    var f := Position(c, output);
    FlatOfCoord(f, Interleave(input));
    InRangeMod(f, DeviceVolume(input));
    InterleaveInverse(Coord(f, Interleave(input)));
    UninterleaveBox(Coord(f, Interleave(input)), input);
  }

  /** Points are determined by their flat index. */
  lemma PositionInjective(a: seq<int>, b: seq<int>, shape: seq<int>)
    requires EvenRank(shape) && Positive(shape) && InBox(a, shape) && InBox(b, shape)
    requires Position(a, shape) == Position(b, shape)
    ensures a == b
  {
    InterleaveBox(a, shape);
    InterleaveBox(b, shape);
    FlatInjective(Interleave(a), Interleave(b), Interleave(shape));
    InterleaveInverse(a);
    InterleaveInverse(b);
  }

  /** Reblocking to another shape and back is the identity. */
  lemma ReblockRoundTrip(input: seq<int>, output: seq<int>, c: seq<int>)
    requires Compatible(input, output) && InBox(c, output)
    ensures Reblocked(output, input, Reblocked(input, output, c)) == c
  {
    var p := Reblocked(input, output, c);
    ReblockKeepsPosition(input, output, c);
    ReblockKeepsPosition(output, input, p);
    PositionInjective(Reblocked(output, input, p), c, output);
  }

  /** Reblocking is a bijection from the output box onto the input box: every input point
      comes from exactly one output point. */
  lemma ReblockBijective(input: seq<int>, output: seq<int>, p: seq<int>)
    requires Compatible(input, output) && InBox(p, input)
    ensures InBox(Reblocked(output, input, p), output)
    ensures forall c :: InBox(c, output) ==> (Reblocked(input, output, c) == p <==> c == Reblocked(output, input, p))
  {
    ReblockKeepsPosition(output, input, p);
    ReblockRoundTrip(output, input, p);
    forall c | InBox(c, output) && Reblocked(input, output, c) == p ensures c == Reblocked(output, input, p) {
      ReblockRoundTrip(input, output, c);
    }
  }

  /** Reblocking through a third shape is reblocking directly. */
  lemma ReblockThroughThird(a: seq<int>, b: seq<int>, c: seq<int>, x: seq<int>)
    requires Compatible(a, b) && Compatible(b, c) && InBox(x, c)
    ensures Reblocked(a, b, Reblocked(b, c, x)) == Reblocked(a, c, x)
  {
    ReblockKeepsPosition(b, c, x);
    ReblockKeepsPosition(a, b, Reblocked(b, c, x));
    ReblockKeepsPosition(a, c, x);
    PositionInjective(Reblocked(a, b, Reblocked(b, c, x)), Reblocked(a, c, x), a);
  }

  // ----- The map the program builds -----

  /** `m` sends every point of the output box to its reblocked point. */
  ghost predicate IsReblockMap(m: AffineMap, input: seq<int>, output: seq<int>)
    requires Compatible(input, output)
  {
    && |m| == |input|
    && (forall i :: 0 <= i < |m| ==> UsesDims(m[i], |output|))
    && (forall c :: InBox(c, output) ==> EvalMap(m, c) == Reblocked(input, output, c))
  }

  /** Reblock maps compose to reblock maps; with `c == a` the composite is the identity. */
  lemma ReblockMapsCompose(ab: AffineMap, bc: AffineMap, a: seq<int>, b: seq<int>, c: seq<int>, x: seq<int>)
    requires Compatible(a, b) && Compatible(b, c) && IsReblockMap(ab, a, b) && IsReblockMap(bc, b, c)
    requires InBox(x, c)
    ensures EvalMap(Compose(ab, bc), x) == Reblocked(a, c, x)
    ensures a == c ==> EvalMap(Compose(ab, bc), x) == x
  {
    ComposeEval(ab, bc, x);
    ReblockKeepsPosition(b, c, x);
    ReblockThroughThird(a, b, c, x);
    ReblockKeepsPosition(a, c, x);
    if a == c { PositionInjective(Reblocked(a, c, x), x, c); }
  }

  method StrideIterationOrder(rank: nat) returns (permutation: seq<nat>)
    requires rank % 2 == 0
    ensures |permutation| == rank
    ensures forall k :: 0 <= k < rank ==> permutation[k] == Slot(rank - 1 - k, rank / 2)
  {
    var halfRank := rank / 2;
    permutation := [];
    var i := rank - 1;
    while i >= 0
      invariant -1 <= i < rank
      invariant |permutation| == rank - 1 - i
      invariant forall k :: 0 <= k < |permutation| ==> permutation[k] == Slot(rank - 1 - k, halfRank)
    {
      assert (i % 2) * halfRank == (if i % 2 == 1 then halfRank else 0);
      permutation := permutation + [(i % 2) * halfRank + i / 2];
      i := i - 1;
    }
  }

  /** The flat index contributed by the dimensions of stride rank `j` and beyond. */
  ghost predicate FlatFrom(e: Expr, shape: seq<int>, j: nat)
    requires EvenRank(shape) && j <= |shape|
  {
    && UsesDims(e, |shape|)
    && forall c :: InBox(c, shape) ==> Eval(e, c) == Flat(Interleave(c)[j..], Interleave(shape)[j..])
  }

  /** The expression with the term of dimension `i` in front; one of extent 1 needs no term. */
  function AddTerm(e: Expr, i: nat, size: int, stride: int): Expr {
    if size > 1 then Binary(Add, Binary(Mul, Dim(i), Const(stride)), e) else e
  }

  lemma AddTermValue(e: Expr, i: nat, size: int, stride: int, c: seq<int>)
    requires i < |c| && 0 <= c[i] < size
    ensures Eval(AddTerm(e, i, size, stride), c) == c[i] * stride + Eval(e, c)
  {
    if size > 1 {
      assert Eval(Binary(Mul, Dim(i), Const(stride)), c) == c[i] * stride;
    } else {
      assert 0 * stride == 0;
    }
  }

  lemma FlatTermStep(e: Expr, shape: seq<int>, j: nat)
    requires EvenRank(shape) && Positive(shape) && j < |shape| && FlatFrom(e, shape, j + 1)
    ensures var i, stride := Slot(j, |shape| / 2), Volume(Interleave(shape)[j + 1..]);
      && i < |shape|
      && Volume(Interleave(shape)[j..]) == shape[i] * stride
      && FlatFrom(AddTerm(e, i, shape[i], stride), shape, j)
  {
    var i, stride := Slot(j, |shape| / 2), Volume(Interleave(shape)[j + 1..]);
    FlatSplit(Interleave(shape), Interleave(shape), j);
    var e' := AddTerm(e, i, shape[i], stride);
    forall c | InBox(c, shape) ensures Eval(e', c) == Flat(Interleave(c)[j..], Interleave(shape)[j..]) {
      FlatSplit(Interleave(c), Interleave(shape), j);
      AddTermValue(e, i, shape[i], stride, c);
    }
  }

  lemma StrideGrows(r: seq<int>, j: nat, stride: int)
    requires j < |r| && stride == Volume(r[j + 1..])
    ensures Volume(r[j..]) == stride * r[j]
    ensures r[j] == 1 ==> Volume(r[j..]) == stride
  {
    FlatSplit(r, r, j);
  }

  /** The output coordinates, linearised in order of ascending stride. */
  method BuildOutputToFlat(outputShape: seq<int>) returns (expr: Expr)
    requires EvenRank(outputShape) && Positive(outputShape)
    ensures FlatFrom(expr, outputShape, 0)
  {
    var order := StrideIterationOrder(|outputShape|);
    expr := Const(0);
    var overallStride := 1;
    assert Interleave(outputShape)[|outputShape|..] == [];
    var k := 0;
    while k < |order|
      invariant 0 <= k <= |order|
      invariant overallStride == Volume(Interleave(outputShape)[|order| - k..])
      invariant FlatFrom(expr, outputShape, |order| - k)
    {
      var i := order[k];
      var dimStride := outputShape[i];
      ghost var j := |order| - k - 1;
      FlatTermStep(expr, outputShape, j);
      StrideGrows(Interleave(outputShape), j, overallStride);
      // A dimension of one element adds no term and leaves the stride alone.
      if dimStride > 1 {
        expr := Binary(Add, Binary(Mul, Dim(i), Const(overallStride)), expr);
        overallStride := overallStride * dimStride;
      }
      k := k + 1;
    }
  }

  /** The expression for one input coordinate: divide by the stride, then wrap, except on
      the outermost grid dimension where wrapping is unnecessary. */
  function InputTerm(i: nat, dimStride: int, overallStride: int): Expr {
    var quotient := Binary(FloorDiv, Dim(0), Const(overallStride));
    if i == 0 && dimStride != 1 then quotient else Binary(Mod, quotient, Const(dimStride))
  }

  lemma InputTermRight(input: seq<int>, j: nat, f: int)
    requires EvenRank(input) && Positive(input) && j < |input| && 0 <= f < DeviceVolume(input)
    ensures var i, stride := Slot(j, |input| / 2), Volume(Interleave(input)[j + 1..]);
      i < |input| && Positive(Interleave(input)) &&
      Eval(InputTerm(i, input[i], stride), [f]) == Coord(f, Interleave(input))[j]
  {
    InterleaveBox(input, input);
    CoordTerm(Interleave(input), j, f);
    InputTermValue(Slot(j, |input| / 2), Interleave(input)[j], Volume(Interleave(input)[j + 1..]), f);
  }

  lemma CoordTerm(r: seq<int>, j: nat, f: int)
    requires Positive(r) && j < |r| && 0 <= f < Volume(r)
    ensures 0 < Volume(r[j + 1..])
    ensures Coord(f, r)[j] == (f / Volume(r[j + 1..])) % r[j]
    ensures j == 0 ==> (f / Volume(r[j + 1..])) % r[j] == f / Volume(r[j + 1..])
  {
    CoordByStride(f, r, j);
    if j == 0 { OutermostUnwrapped(r, f); }
  }

  lemma InputTermValue(i: nat, size: int, stride: int, f: int)
    requires 0 < size && 0 < stride
    requires i == 0 && size != 1 ==> (f / stride) % size == f / stride
    ensures Eval(InputTerm(i, size, stride), [f]) == (f / stride) % size
  {
    PositiveDivisor(f, stride);
    PositiveDivisor(f / stride, size);
    assert Eval(Binary(FloorDiv, Dim(0), Const(stride)), [f]) == f / stride;
  }

  /** Below the volume the outermost quotient needs no wrapping. */
  lemma OutermostUnwrapped(r: seq<int>, f: int)
    requires Positive(r) && r != [] && 0 <= f < Volume(r)
    ensures 0 < Volume(r[1..]) && (f / Volume(r[1..])) % r[0] == f / Volume(r[1..])
  {
    FlatSplit(r, r, 0);
    assert r[0..] == r;
    VolumePositive(r[1..]);
    QuotientBelow(f, Volume(r[1..]), r[0]);
    InRangeMod(f / Volume(r[1..]), r[0]);
  }

  /** The term of the j-th dimension by descending stride stands at its slot. */
  ghost predicate TermInPlace(m: AffineMap, input: seq<int>, j: nat)
    requires EvenRank(input) && |m| == |input|
  {
    var i := Slot(j, |input| / 2);
    j < |input| && i < |input| && m[i] == InputTerm(i, input[i], Volume(Interleave(input)[j + 1..]))
  }

  ghost predicate IsFlatToInput(m: AffineMap, input: seq<int>)
    requires EvenRank(input)
  {
    && |m| == |input| && Positive(Interleave(input))
    && (forall i :: 0 <= i < |m| ==> UsesDims(m[i], 1))
    && (forall f :: 0 <= f < DeviceVolume(input) ==> EvalMap(m, [f]) == Uninterleave(Coord(f, Interleave(input))))
  }

  /** Flat indices to input coordinates. */
  method BuildFlatToInput(inputShape: seq<int>) returns (m: AffineMap)
    requires EvenRank(inputShape) && Positive(inputShape)
    ensures IsFlatToInput(m, inputShape)
  {
    var order := StrideIterationOrder(|inputShape|);
    m := seq(|inputShape|, _ => Const(0));
    var overallStride := 1;
    assert Interleave(inputShape)[|inputShape|..] == [];
    var k := 0;
    ghost var j := |inputShape|;
    while k < |order|
      invariant 0 <= k <= |order| == |inputShape| == |m|
      invariant j == |order| - k
      invariant overallStride == Volume(Interleave(inputShape)[j..])
      invariant TermsFrom(m, inputShape, j)
    {
      var i := order[k];
      var dimStride := inputShape[i];
      j := j - 1;
      assert i == Slot(j, |inputShape| / 2);
      FlatToInputStep(m, inputShape, j, overallStride);
      m := m[i := InputTerm(i, dimStride, overallStride)];
      overallStride := overallStride * dimStride;
      k := k + 1;
    }
    InputTermsRight(m, inputShape);
  }

  ghost predicate TermsFrom(m: AffineMap, input: seq<int>, j: nat)
    requires EvenRank(input) && |m| == |input|
  {
    forall k :: j <= k < |input| ==> TermInPlace(m, input, k)
  }

  lemma FlatToInputStep(m: AffineMap, input: seq<int>, j: nat, stride: int)
    requires EvenRank(input) && |m| == |input| && j < |input| && TermsFrom(m, input, j + 1)
    requires stride == Volume(Interleave(input)[j + 1..])
    ensures var i := Slot(j, |input| / 2);
      && i < |input|
      && TermsFrom(m[i := InputTerm(i, input[i], stride)], input, j)
      && stride * input[i] == Volume(Interleave(input)[j..])
  {
    StrideGrows(Interleave(input), j, stride);
    SlotsPair(j, |input| / 2);
    var i := Slot(j, |input| / 2);
    var m' := m[i := InputTerm(i, input[i], stride)];
    forall k | j < k < |input| ensures TermInPlace(m', input, k) {
      assert TermInPlace(m, input, k);
      SlotsPair(k, |input| / 2);
    }
  }

  lemma InputTermsRight(m: AffineMap, input: seq<int>)
    requires EvenRank(input) && Positive(input) && |m| == |input|
    requires TermsFrom(m, input, 0)
    ensures IsFlatToInput(m, input)
  {
    InterleaveBox(input, input);
    forall i | 0 <= i < |m| ensures UsesDims(m[i], 1) {
      SlotsPairBack(i, |m| / 2);
      assert TermInPlace(m, input, SlotInverse(i, |m| / 2));
    }
    forall f | 0 <= f < DeviceVolume(input) ensures EvalMap(m, [f]) == Uninterleave(Coord(f, Interleave(input))) {
      forall i | 0 <= i < |m| ensures EvalMap(m, [f])[i] == Uninterleave(Coord(f, Interleave(input)))[i] {
        SlotsPairBack(i, |m| / 2);
        assert TermInPlace(m, input, SlotInverse(i, |m| / 2));
        InputTermRight(input, SlotInverse(i, |m| / 2), f);
      }
    }
  }

  method IdentityMap(rank: nat) returns (m: AffineMap)
    ensures |m| == rank && forall i :: 0 <= i < rank ==> m[i] == Dim(i)
  {
    m := seq(rank, i requires 0 <= i < rank => Dim(i));
  }

  method CalculateReblockMap(inputShape: seq<int>, outputShape: seq<int>) returns (m: AffineMap)
    requires Compatible(inputShape, outputShape)
    ensures IsReblockMap(m, inputShape, outputShape)
  {
    if inputShape == outputShape {
      m := IdentityMap(|inputShape|);
      forall c | InBox(c, outputShape) ensures EvalMap(m, c) == Reblocked(inputShape, outputShape, c) {
        ReblockKeepsPosition(inputShape, outputShape, c);
        PositionInjective(Reblocked(inputShape, outputShape, c), c, outputShape);
        assert EvalMap(m, c) == c;
      }
      return;
    }
    var expr := BuildOutputToFlat(outputShape);
    var flatToInput := BuildFlatToInput(inputShape);
    DeviceVolumeIsVolume(inputShape);
    DeviceVolumeIsVolume(outputShape);
    m := Compose(flatToInput, [expr]);
    forall c | InBox(c, outputShape) ensures EvalMap(m, c) == Reblocked(inputShape, outputShape, c) {
      ComposeEval(flatToInput, [expr], c);
      assert EvalMap([expr], c) == [Position(c, outputShape)] by {
        assert Interleave(c)[0..] == Interleave(c) && Interleave(outputShape)[0..] == Interleave(outputShape);
      }
      InterleaveBox(c, outputShape);
      FlatInRange(Interleave(c), Interleave(outputShape));
    }
    forall i | 0 <= i < |m| ensures UsesDims(m[i], |outputShape|) {
      SubstituteUses(flatToInput[i], expr, |outputShape|);
    }
  }

  lemma {:induction false} SubstituteUses(e: Expr, part: Expr, n: nat)
    requires UsesDims(e, 1) && UsesDims(part, n)
    ensures UsesDims(Substitute(e, [part]), n)
  {
    match e
    case Dim(_) =>
    case Const(_) =>
    case Binary(_, l, r) =>
      SubstituteUses(l, part, n);
      SubstituteUses(r, part, n);
  }
}
