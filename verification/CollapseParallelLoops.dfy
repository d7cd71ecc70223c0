/** Collapsing the trailing dimensions of a parallel loop nest into one
    (CollapseParallelLoopPattern::matchAndRewrite). */
module CollapseParallelLoops {
  import opened Common
  import opened Arith
  import opened Shapes

  /** A loop bound: a compile-time constant or a value known only at run time. */
  datatype Bound = Known(value: int) | Runtime(id: nat)

  datatype ParallelOp = ParallelOp(lower: seq<Bound>, upper: seq<Bound>, step: seq<Bound>)

  /** Index arithmetic emitted into the new body. */
  datatype Index =
    | InductionVar(position: nat)
    | ConstantIndex(value: int)
    | DivUI(lhs: Index, rhs: Index)
    | MulI(lhs: Index, rhs: Index)
    | SubI(lhs: Index, rhs: Index)

  /** The new loop, and what each old induction variable is mapped to in its body. */
  datatype Rewritten = Rewritten(loop: ParallelOp, mapping: seq<Index>)

  // ----- What loops do -----

  type Environment = nat -> int

  function BoundValue(b: Bound, env: Environment): int {
    match b
    case Known(v) => v
    case Runtime(id) => env(id)
  }

  predicate InRange(lower: int, upper: int, step: int, x: int) {
    0 < step && lower <= x < upper && (x - lower) % step == 0
  }

  predicate WellShaped(p: ParallelOp) {
    |p.lower| == |p.upper| == |p.step|
  }

  predicate InDimension(p: ParallelOp, env: Environment, k: nat, x: int)
    requires WellShaped(p) && k < |p.lower|
  {
    InRange(BoundValue(p.lower[k], env), BoundValue(p.upper[k], env), BoundValue(p.step[k], env), x)
  }

  /** The loop nest runs its body with these induction variables. */
  predicate Iterates(p: ParallelOp, env: Environment, ivs: seq<int>)
    requires WellShaped(p)
  {
    |ivs| == |p.lower| && forall k :: 0 <= k < |ivs| ==> InDimension(p, env, k, ivs[k])
  }

  function IndexValue(e: Index, ivs: seq<int>): int {
    match e
    case InductionVar(k) => if k < |ivs| then ivs[k] else 0
    case ConstantIndex(v) => v
    case DivUI(l, r) =>
      var a, b := IndexValue(l, ivs), IndexValue(r, ivs);
      // Operands are non-negative and divisors positive whenever the extents are positive.
      if 0 <= a && 0 < b then a / b else 0
    case MulI(l, r) => IndexValue(l, ivs) * IndexValue(r, ivs)
    case SubI(l, r) => IndexValue(l, ivs) - IndexValue(r, ivs)
  }

  function Mapped(mapping: seq<Index>, ivs: seq<int>): (x: seq<int>)
    ensures |x| == |mapping|
  {
    seq(|mapping|, i requires 0 <= i < |mapping| => IndexValue(mapping[i], ivs))
  }

  /** The new loop runs the cloned body with the old variables standing for `x`. */
  ghost predicate Reproduces(r: Rewritten, env: Environment, x: seq<int>)
    requires WellShaped(r.loop)
  {
    exists ivs :: Iterates(r.loop, env, ivs) && Mapped(r.mapping, ivs) == x
  }

  // ----- The rewrite -----

  predicate Collapsible(p: ParallelOp)
    requires WellShaped(p)
  {
    && 4 <= |p.lower|
    && (forall i :: 2 <= i < |p.lower| ==> p.lower[i] == Known(0) && p.step[i] == Known(1))
    && (forall i :: 2 <= i < |p.lower| ==> p.upper[i].Known?)
  }

  /** The constant extents of the dimensions that get collapsed. */
  function Extents(p: ParallelOp): (d: seq<int>)
    requires WellShaped(p) && Collapsible(p)
    ensures |d| == |p.lower| - 2
  {
    seq(|p.lower| - 2, i requires 0 <= i < |p.lower| - 2 => p.upper[i + 2].value)
  }

  /** The collapsed dimension comes first, then dimension 1, then dimension 0. */
  function NewLoop(p: ParallelOp, collapsedSize: int): (q: ParallelOp)
    requires WellShaped(p) && 2 <= |p.lower|
    ensures WellShaped(q)
  {
    ParallelOp([Known(0), p.lower[1], p.lower[0]],
               [Known(collapsedSize), p.upper[1], p.upper[0]],
               [Known(1), p.step[1], p.step[0]])
  }

  /** The product the program takes: it reads the extents from the front. */
  method CalculateProductOfRemainingDims(startIdx: nat, endIdx: nat, dimSizes: seq<int>) returns (product: int)
    requires startIdx <= endIdx && endIdx - startIdx <= |dimSizes|
    ensures product == Volume(dimSizes[..endIdx - startIdx])
  {
    product := 1;
    var i := startIdx;
    while i < endIdx
      invariant startIdx <= i <= endIdx
      invariant product == Volume(dimSizes[..i - startIdx])
    {
      assert dimSizes[..i + 1 - startIdx][..i - startIdx] == dimSizes[..i - startIdx];
      product := product * dimSizes[i - startIdx];
      i := i + 1;
    }
  }

  /** The remaining index before variable `k` is split off. */
  function Remaining(d: seq<int>, k: nat): Index
    requires k < |d|
  {
    if k == 0 then InductionVar(0)
    else
      var divisor := ConstantIndex(Volume(d[..|d| - k]));
      SubI(Remaining(d, k - 1), MulI(DivUI(Remaining(d, k - 1), divisor), divisor))
  }

  function Decomposed(d: seq<int>, k: nat): Index
    requires k < |d|
  {
    if k == |d| - 1 then Remaining(d, k)
    else DivUI(Remaining(d, k), ConstantIndex(Volume(d[..|d| - 1 - k])))
  }

  /** The rewrite produced for `p`. */
  ghost predicate IsRewriteOf(r: Rewritten, p: ParallelOp)
    requires WellShaped(p) && Collapsible(p)
  {
    && r.loop == NewLoop(p, Volume(Extents(p))) && |r.mapping| == |p.lower|
    && r.mapping[0] == InductionVar(2) && r.mapping[1] == InductionVar(1)
    && forall k :: 0 <= k < |Extents(p)| ==> r.mapping[k + 2] == Decomposed(Extents(p), k)
  }

  method MatchAndRewrite(p: ParallelOp) returns (r: Option<Rewritten>)
    requires WellShaped(p)
    ensures r.Some? <==> Collapsible(p)
    ensures r.Some? <==> 4 <= |p.lower| && forall i :: 2 <= i < |p.lower| ==>
      p.lower[i] == Known(0) && p.step[i] == Known(1) && p.upper[i].Known?
    ensures r.Some? ==> IsRewriteOf(r.value, p)
    ensures r.Some? ==>
      && r.value.loop.lower == [Known(0), p.lower[1], p.lower[0]]
      && r.value.loop.upper == [Known(Volume(Extents(p))), p.upper[1], p.upper[0]]
      && r.value.loop.step == [Known(1), p.step[1], p.step[0]]
  {
    if |p.lower| < 4 { return None; }
    var startIdx, endIdx := 2, |p.lower|;
    var i := startIdx;
    while i < endIdx
      invariant 2 <= i <= endIdx
      invariant forall k :: 2 <= k < i ==> p.lower[k] == Known(0) && p.step[k] == Known(1)
    {
      if p.lower[i] != Known(0) || p.step[i] != Known(1) { return None; }
      i := i + 1;
    }
    var dimSizes: seq<int> := [];
    var collapsedSize := 1;
    i := startIdx;
    while i < endIdx
      invariant 2 <= i <= endIdx
      invariant |dimSizes| == i - 2 && collapsedSize == Volume(dimSizes)
      invariant forall k :: 2 <= k < i ==> p.upper[k] == Known(dimSizes[k - 2])
    {
      if !p.upper[i].Known? { return None; }
      var dimSize := p.upper[i].value - p.lower[i].value;
      assert (dimSizes + [dimSize])[..|dimSizes|] == dimSizes;
      dimSizes := dimSizes + [dimSize];
      collapsedSize := collapsedSize * dimSize;
      i := i + 1;
    }
    ExtentsAre(p, dimSizes);
    var decomposedVars := Decompose(dimSizes, startIdx, endIdx);
    r := Some(Rewritten(NewLoop(p, collapsedSize), [InductionVar(2), InductionVar(1)] + decomposedVars));
    MappingIs(p, r.value, decomposedVars);
  }

  lemma MappingIs(p: ParallelOp, r: Rewritten, decomposedVars: seq<Index>)
    requires WellShaped(p) && Collapsible(p) && |decomposedVars| == |Extents(p)|
    requires r == Rewritten(NewLoop(p, Volume(Extents(p))), [InductionVar(2), InductionVar(1)] + decomposedVars)
    requires forall k :: 0 <= k < |Extents(p)| ==> decomposedVars[k] == Decomposed(Extents(p), k)
    ensures IsRewriteOf(r, p)
  {
  }

  lemma ExtentsAre(p: ParallelOp, dimSizes: seq<int>)
    requires WellShaped(p) && Collapsible(p) && |dimSizes| == |p.lower| - 2
    requires forall k :: 2 <= k < |p.lower| ==> p.upper[k] == Known(dimSizes[k - 2])
    ensures dimSizes == Extents(p)
  {
  }

  method Decompose(dimSizes: seq<int>, startIdx: nat, endIdx: nat) returns (decomposedVars: seq<Index>)
    requires |dimSizes| >= 2 && endIdx == startIdx + |dimSizes|
    ensures |decomposedVars| == |dimSizes|
    ensures forall k :: 0 <= k < |dimSizes| ==> decomposedVars[k] == Decomposed(dimSizes, k)
  {
    decomposedVars := [];
    var remaining := InductionVar(0);
    var i := startIdx;
    while i < endIdx - 1
      invariant startIdx <= i <= endIdx - 1
      invariant |decomposedVars| == i - startIdx
      invariant remaining == Remaining(dimSizes, i - startIdx)
      invariant forall k :: 0 <= k < i - startIdx ==> decomposedVars[k] == Decomposed(dimSizes, k)
    {
      var productOfRemainingDims := CalculateProductOfRemainingDims(i + 1, endIdx, dimSizes);
      var divisor := ConstantIndex(productOfRemainingDims);
      var quotient := DivUI(remaining, divisor);
      decomposedVars := decomposedVars + [quotient];
      remaining := SubI(remaining, MulI(quotient, divisor));
      i := i + 1;
    }
    decomposedVars := decomposedVars + [remaining];
  }

  // ----- What the decomposition decodes -----

  function Reversed(s: seq<int>): (r: seq<int>)
    ensures |r| == |s|
  {
    seq(|s|, i requires 0 <= i < |s| => s[|s| - 1 - i])
  }

  lemma {:induction false} VolumeReversed(s: seq<int>)
    ensures Volume(Reversed(s)) == Volume(s)
  {
    if s == [] {
      assert Reversed(s) == s;
    } else {
      var n := |s| - 1;
      VolumeReversed(s[..n]);
      assert Reversed(s) == [s[n]] + Reversed(s[..n]);
      VolumeConcat([s[n]], Reversed(s[..n]));
      assert [s[n]][..0] == [];
    }
  }

  /** The divisor of variable `k` is the volume of the reversed extents after `k`. */
  lemma DivisorIsReversed(d: seq<int>, k: nat)
    requires k < |d|
    ensures Volume(d[..|d| - 1 - k]) == Volume(Reversed(d)[k + 1..])
  {
    VolumeReversed(d[..|d| - 1 - k]);
    assert Reversed(d[..|d| - 1 - k]) == Reversed(d)[k + 1..];
  }

  lemma ReversedPositive(d: seq<int>)
    ensures Positive(d) <==> Positive(Reversed(d))
  {
    assert forall i :: 0 <= i < |d| ==> d[i] == Reversed(d)[|d| - 1 - i];
  }

  lemma {:induction false} RemainingValue(d: seq<int>, k: nat, ivs: seq<int>)
    requires k < |d| && Positive(d) && ivs != [] && 0 <= ivs[0] < Volume(d)
    ensures 0 < Volume(Reversed(d)[k..])
    ensures IndexValue(Remaining(d, k), ivs) == ivs[0] % Volume(Reversed(d)[k..])
    decreases k
  {
    var r := Reversed(d);
    ReversedPositive(d);
    VolumePositive(r[k..]);
    if k == 0 {
      VolumeReversed(d);
      assert r[0..] == r;
      InRangeMod(ivs[0], Volume(d));
    } else {
      RemainingValue(d, k - 1, ivs);
      DivisorIsReversed(d, k - 1);
      FlatSplit(r, r, k - 1);
      SplitOff(d, k, ivs, r[k - 1], Volume(r[k..]));
    }
  }

  lemma SplitRemainder(c: int, extent: int, divisor: int, rest: int)
    requires 0 < extent && 0 < divisor && rest == c % (extent * divisor)
    ensures 0 <= rest
    ensures rest / divisor == (c / divisor) % extent
    ensures rest - (rest / divisor) * divisor == c % divisor
  {
    var q := (c / divisor) % extent;
    assert extent * divisor == divisor * extent;
    DivDiv(c, divisor, extent);
    MulMonotone(0, q, divisor);
    DivModUnique(rest, divisor, q, c % divisor);
  }

  lemma SplitOff(d: seq<int>, k: nat, ivs: seq<int>, extent: int, divisor: int)
    requires 0 < k < |d| && 0 < extent && 0 < divisor == Volume(d[..|d| - k]) && ivs != []
    requires IndexValue(Remaining(d, k - 1), ivs) == ivs[0] % (extent * divisor)
    ensures IndexValue(Remaining(d, k), ivs) == ivs[0] % divisor
    ensures IndexValue(DivUI(Remaining(d, k - 1), ConstantIndex(divisor)), ivs) == (ivs[0] / divisor) % extent
  {
    var rest := IndexValue(Remaining(d, k - 1), ivs);
    SplitRemainder(ivs[0], extent, divisor, rest);
    var divided := DivUI(Remaining(d, k - 1), ConstantIndex(divisor));
    assert IndexValue(divided, ivs) == rest / divisor;
    assert IndexValue(MulI(divided, ConstantIndex(divisor)), ivs) == (rest / divisor) * divisor;
  }

  /** The k-th decoded variable is the k-th coordinate in the reversed box. */
  lemma DecomposedValue(d: seq<int>, k: nat, ivs: seq<int>)
    requires k < |d| && Positive(d) && ivs != [] && 0 <= ivs[0] < Volume(d)
    ensures Positive(Reversed(d))
    ensures IndexValue(Decomposed(d, k), ivs) == Coord(ivs[0], Reversed(d))[k]
  {
    ReversedPositive(d);
    if k == |d| - 1 { LastValue(d, ivs); } else { QuotientValue(d, k, ivs); }
    CoordByStride(ivs[0], Reversed(d), k);
  }

  lemma QuotientValue(d: seq<int>, k: nat, ivs: seq<int>)
    requires k < |d| - 1 && Positive(d) && ivs != [] && 0 <= ivs[0] < Volume(d)
    ensures 0 < Volume(Reversed(d)[k + 1..]) && 0 < Reversed(d)[k]
    ensures IndexValue(Decomposed(d, k), ivs) == (ivs[0] / Volume(Reversed(d)[k + 1..])) % Reversed(d)[k]
  {
    ReversedPositive(d);
    RemainingValue(d, k, ivs);
    DivisorIsReversed(d, k);
    VolumePositive(Reversed(d)[k + 1..]);
    FlatSplit(Reversed(d), Reversed(d), k);
    SplitOff(d, k + 1, ivs, Reversed(d)[k], Volume(Reversed(d)[k + 1..]));
  }

  lemma LastValue(d: seq<int>, ivs: seq<int>)
    requires d != [] && Positive(d) && ivs != [] && 0 <= ivs[0] < Volume(d)
    ensures var k := |d| - 1;
      && 0 < Volume(Reversed(d)[k + 1..]) && 0 < Reversed(d)[k]
      && IndexValue(Decomposed(d, k), ivs) == (ivs[0] / Volume(Reversed(d)[k + 1..])) % Reversed(d)[k]
  {
    ReversedPositive(d);
    RemainingValue(d, |d| - 1, ivs);
    LastExtent(Reversed(d));
    assert ivs[0] / 1 == ivs[0];
  }

  lemma LastExtent(r: seq<int>)
    requires r != []
    ensures Volume(r[|r| - 1..]) == r[|r| - 1] && Volume(r[|r| - 1 + 1..]) == 1
  {
    assert r[|r| - 1..][..0] == [];
  }

  /** The decoding is a bijection from [0, product) onto the box of the reversed extents. */
  lemma DecodingIsBijective(d: seq<int>)
    requires Positive(d)
    ensures Positive(Reversed(d)) && Volume(Reversed(d)) == Volume(d)
    ensures forall c :: 0 <= c < Volume(d) ==> InBox(Coord(c, Reversed(d)), Reversed(d))
    ensures forall x :: InBox(x, Reversed(d)) ==>
      0 <= Flat(x, Reversed(d)) < Volume(d) &&
      forall c :: 0 <= c < Volume(d) ==> (Coord(c, Reversed(d)) == x <==> c == Flat(x, Reversed(d)))
  {
    var r := Reversed(d);
    ReversedPositive(d);
    VolumeReversed(d);
    forall c | 0 <= c < Volume(d) ensures InBox(Coord(c, r), r) && Flat(Coord(c, r), r) == c {
      FlatOfCoord(c, r);
      InRangeMod(c, Volume(d));
    }
    forall x | InBox(x, r)
      ensures 0 <= Flat(x, r) < Volume(d)
      ensures forall c :: 0 <= c < Volume(d) ==> (Coord(c, r) == x <==> c == Flat(x, r))
    {
      FlatInRange(x, r);
      CoordOfFlat(x, r);
    }
  }

  // ----- When the new nest runs the old iterations -----

  predicate OuterInRange(p: ParallelOp, env: Environment, a: int, b: int)
    requires WellShaped(p) && 2 <= |p.lower|
  {
    InDimension(p, env, 0, a) && InDimension(p, env, 1, b)
  }

  lemma OldIterations(p: ParallelOp, env: Environment, x: seq<int>)
    requires WellShaped(p) && Collapsible(p)
    ensures Iterates(p, env, x) <==>
      |x| == |p.lower| && OuterInRange(p, env, x[0], x[1]) && InBox(x[2..], Extents(p))
  {
    if |x| == |p.lower| {
      forall k | 2 <= k < |x| ensures InDimension(p, env, k, x[k]) <==> 0 <= x[2..][k - 2] < Extents(p)[k - 2] {
        assert x[k] % 1 == 0;
      }
      assert forall k :: 0 <= k < |Extents(p)| ==> x[2..][k] == x[k + 2] && 2 <= k + 2 < |x|;
    }
  }

  lemma NewIterations(p: ParallelOp, size: int, env: Environment, ivs: seq<int>)
    requires WellShaped(p) && Collapsible(p)
    ensures Iterates(NewLoop(p, size), env, ivs) <==>
      |ivs| == 3 && 0 <= ivs[0] < size && OuterInRange(p, env, ivs[2], ivs[1])
  {
    if |ivs| == 3 {
      var q := NewLoop(p, size);
      assert ivs[0] % 1 == 0;
      assert InDimension(q, env, 0, ivs[0]) <==> 0 <= ivs[0] < size;
      assert InDimension(q, env, 1, ivs[1]) <==> InDimension(p, env, 1, ivs[1]);
      assert InDimension(q, env, 2, ivs[2]) <==> InDimension(p, env, 0, ivs[2]);
    }
  }

  lemma MappedPoint(r: Rewritten, p: ParallelOp, ivs: seq<int>)
    requires WellShaped(p) && Collapsible(p) && IsRewriteOf(r, p) && Positive(Extents(p))
    requires |ivs| == 3 && 0 <= ivs[0] < Volume(Extents(p))
    ensures Positive(Reversed(Extents(p)))
    ensures Mapped(r.mapping, ivs) == [ivs[2], ivs[1]] + Coord(ivs[0], Reversed(Extents(p)))
  {
    ReversedPositive(Extents(p));
    forall k | 0 <= k < |Extents(p)|
      ensures IndexValue(r.mapping[k + 2], ivs) == Coord(ivs[0], Reversed(Extents(p)))[k]
    {
      DecomposedValue(Extents(p), k, ivs);
    }
  }

  /** For positive extents the new nest runs the body over the reversed box. */
  lemma NewNestRuns(r: Rewritten, p: ParallelOp, env: Environment, x: seq<int>)
    requires WellShaped(p) && Collapsible(p) && IsRewriteOf(r, p) && Positive(Extents(p))
    ensures Reproduces(r, env, x) <==>
      |x| == |p.lower| && OuterInRange(p, env, x[0], x[1]) && InBox(x[2..], Reversed(Extents(p)))
  {
    var d := Extents(p);
    var rd := Reversed(d);
    DecodingIsBijective(d);
    if Reproduces(r, env, x) {
      var ivs :| Iterates(r.loop, env, ivs) && Mapped(r.mapping, ivs) == x;
      NewIterations(p, Volume(d), env, ivs);
      MappedPoint(r, p, ivs);
      assert x[2..] == Coord(ivs[0], rd);
    }
    if |x| == |p.lower| && OuterInRange(p, env, x[0], x[1]) && InBox(x[2..], rd) {
      var ivs := [Flat(x[2..], rd), x[1], x[0]];
      NewIterations(p, Volume(d), env, ivs);
      MappedPoint(r, p, ivs);
      assert x == [x[0], x[1]] + x[2..];
      assert Mapped(r.mapping, ivs) == x;
    }
  }

  ghost predicate SameIterations(r: Rewritten, p: ParallelOp, env: Environment)
    requires WellShaped(p) && WellShaped(r.loop)
  {
    forall x :: Iterates(p, env, x) <==> Reproduces(r, env, x)
  }

  ghost predicate OuterEmpty(p: ParallelOp, env: Environment)
    requires WellShaped(p) && 2 <= |p.lower|
  {
    forall a, b :: !OuterInRange(p, env, a, b)
  }

  /** The extents read the same in both directions. */
  predicate Palindrome(d: seq<int>) {
    Reversed(d) == d
  }

  /** Given anything to do in the outer dimensions, the rewritten nest runs exactly the old
      iterations if and only if the collapsed size is not positive or the extents are all
      positive and read the same backwards. */
  lemma SameIterationsExactlyWhen(r: Rewritten, p: ParallelOp, env: Environment)
    requires WellShaped(p) && Collapsible(p) && IsRewriteOf(r, p)
    ensures SameIterations(r, p, env) <==>
      OuterEmpty(p, env) || Volume(Extents(p)) <= 0 || (Positive(Extents(p)) && Palindrome(Extents(p)))
  {
    var d := Extents(p);
    if Volume(d) <= 0 || OuterEmpty(p, env) {
      NothingRuns(r, p, env);
    } else {
      var a, b :| OuterInRange(p, env, a, b);
      if Positive(d) {
        PositiveExtents(r, p, env, a, b);
      } else {
        SpuriousIteration(r, p, env, a, b);
      }
    }
  }

  lemma NothingRuns(r: Rewritten, p: ParallelOp, env: Environment)
    requires WellShaped(p) && Collapsible(p) && IsRewriteOf(r, p)
    requires Volume(Extents(p)) <= 0 || OuterEmpty(p, env)
    ensures SameIterations(r, p, env)
  {
    forall x ensures !Iterates(p, env, x) && !Reproduces(r, env, x) {
      OldIterations(p, env, x);
      if InBox(x[if |x| < 2 then |x| else 2..], Extents(p)) {
        BoxMeansPositive(x[if |x| < 2 then |x| else 2..], Extents(p));
      }
      forall ivs ensures !Iterates(r.loop, env, ivs) { NewIterations(p, Volume(Extents(p)), env, ivs); }
    }
  }

  lemma BoxMeansPositive(x: seq<int>, d: seq<int>)
    requires InBox(x, d)
    ensures Positive(d) && 0 < Volume(d)
  {
    VolumePositive(d);
  }

  /** A positive product of extents that are not all positive: the old nest does nothing, the
      new one still runs. */
  lemma SpuriousIteration(r: Rewritten, p: ParallelOp, env: Environment, a: int, b: int)
    requires WellShaped(p) && Collapsible(p) && IsRewriteOf(r, p) && OuterInRange(p, env, a, b)
    requires 0 < Volume(Extents(p)) && !Positive(Extents(p))
    ensures !SameIterations(r, p, env)
  {
    NewIterations(p, Volume(Extents(p)), env, [0, b, a]);
    var x := Mapped(r.mapping, [0, b, a]);
    assert Reproduces(r, env, x);
    OldIterations(p, env, x);
    if Iterates(p, env, x) { BoxMeansPositive(x[2..], Extents(p)); assert false; }
  }

  lemma PositiveExtents(r: Rewritten, p: ParallelOp, env: Environment, a: int, b: int)
    requires WellShaped(p) && Collapsible(p) && IsRewriteOf(r, p) && OuterInRange(p, env, a, b)
    requires Positive(Extents(p))
    ensures SameIterations(r, p, env) <==> Palindrome(Extents(p))
  {
    var d := Extents(p);
    forall x ensures Iterates(p, env, x) <==>
        |x| == |p.lower| && OuterInRange(p, env, x[0], x[1]) && InBox(x[2..], d)
    { OldIterations(p, env, x); }
    forall x ensures Reproduces(r, env, x) <==>
        |x| == |p.lower| && OuterInRange(p, env, x[0], x[1]) && InBox(x[2..], Reversed(d))
    { NewNestRuns(r, p, env, x); }
    if !Palindrome(d) {
      var k :| 0 <= k < |d| && Reversed(d)[k] != d[k];
      ReversedPositive(d);
      var corner := Zeros(|d|)[k := (if Reversed(d)[k] < d[k] then d[k] else Reversed(d)[k]) - 1];
      assert InBox(corner, d) != InBox(corner, Reversed(d));
      var x := [a, b] + corner;
      assert x[2..] == corner;
      assert Iterates(p, env, x) != Reproduces(r, env, x);
    }
  }

  /** Each old iteration the new nest runs is run once. */
  lemma RunsOnce(r: Rewritten, p: ParallelOp, env: Environment, ivs: seq<int>, ivs': seq<int>)
    requires WellShaped(p) && Collapsible(p) && IsRewriteOf(r, p) && Positive(Extents(p))
    requires Iterates(r.loop, env, ivs) && Iterates(r.loop, env, ivs')
    requires Mapped(r.mapping, ivs) == Mapped(r.mapping, ivs')
    ensures ivs == ivs'
  {
    var d := Extents(p);
    DecodingIsBijective(d);
    NewIterations(p, Volume(d), env, ivs);
    NewIterations(p, Volume(d), env, ivs');
    MappedPoint(r, p, ivs);
    MappedPoint(r, p, ivs');
    var x := Mapped(r.mapping, ivs);
    assert x[2..] == Coord(ivs[0], Reversed(d)) == Coord(ivs'[0], Reversed(d));
    assert x[0] == ivs[2] == ivs'[2] && x[1] == ivs[1] == ivs'[1];
    assert ivs[0] == Flat(x[2..], Reversed(d)) == ivs'[0];
  }

  /** A nest with extents 2 and 3 in the collapsed dimensions. */
  function TwoByThree(): (p: ParallelOp)
    ensures WellShaped(p) && Collapsible(p) && Extents(p) == [2, 3]
  {
    ParallelOp([Known(0), Known(0), Known(0), Known(0)],
               [Known(1), Known(1), Known(2), Known(3)],
               [Known(1), Known(1), Known(1), Known(1)])
  }

  /** The old nest reaches (0, 2) in the collapsed dimensions, the new one does not. */
  lemma ReversedCounterexample(r: Rewritten, env: Environment)
    requires IsRewriteOf(r, TwoByThree())
    ensures Iterates(TwoByThree(), env, [0, 0, 0, 2])
    ensures !Reproduces(r, env, [0, 0, 0, 2])
  {
    assert 0 % 1 == 0;
    assert OuterInRange(TwoByThree(), env, 0, 0);
    OldIterations(TwoByThree(), env, [0, 0, 0, 2]);
    NewNestRuns(r, TwoByThree(), env, [0, 0, 0, 2]);
    TwoByThreeBoxes();
  }

  lemma TwoByThreeBoxes()
    ensures [0, 0, 0, 2][2..] == [0, 2]
    ensures InBox([0, 2], [2, 3]) && !InBox([0, 2], Reversed([2, 3]))
  {
    assert Reversed([2, 3])[1] == 2;
  }
}
