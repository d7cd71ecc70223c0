/** Device (grid x shard) and physical coordinates: buildDeviceToPhysicalMap,
    buildPhysicalToDeviceMap, and reblocking to a new grid (calculateReblockMapForGrid). */
module DeviceMaps {
  import opened Arith
  import opened Shapes
  import opened Affine
  import opened Reblock

  /** Extents of one shard when `physical` is spread over `grid`. */
  function ShardSizes(physical: seq<int>, grid: seq<int>): (s: seq<int>)
    requires |physical| == |grid| && Positive(grid)
    ensures |s| == |grid|
  {
    seq(|grid|, i requires 0 <= i < |grid| => physical[i] / grid[i])
  }

  /** Every grid extent divides its physical extent. */
  predicate GridDivides(physical: seq<int>, grid: seq<int>)
    requires |physical| == |grid| && Positive(grid)
  {
    forall i :: 0 <= i < |grid| ==> physical[i] % grid[i] == 0
  }

  /** Grid coordinate times shard extent plus shard coordinate, in every dimension. */
  function ToPhysical(shards: seq<int>, c: seq<int>): (p: seq<int>)
    requires |c| == 2 * |shards|
    ensures |p| == |shards|
  {
    seq(|shards|, i requires 0 <= i < |shards| => c[i] * shards[i] + c[|shards| + i])
  }

  /** Quotients by the shard extents, then the remainders. */
  function ToDevice(shards: seq<int>, p: seq<int>): (c: seq<int>)
    requires |p| == |shards| && Positive(shards)
    ensures |c| == 2 * |shards|
  {
    seq(|shards|, i requires 0 <= i < |shards| => p[i] / shards[i]) +
    seq(|shards|, i requires 0 <= i < |shards| => p[i] % shards[i])
  }

  method BuildDeviceToPhysicalMap(physicalShape: seq<int>, gridShape: seq<int>) returns (m: AffineMap)
    requires |physicalShape| == |gridShape| && Positive(gridShape)
    ensures |m| == |gridShape| && forall i :: 0 <= i < |m| ==> UsesDims(m[i], 2 * |gridShape|)
    ensures forall c :: |c| == 2 * |gridShape| ==> EvalMap(m, c) == ToPhysical(ShardSizes(physicalShape, gridShape), c)
  {
    var rank := |physicalShape|;
    m := [];
    var i := 0;
    while i < rank
      invariant 0 <= i <= rank && |m| == i
      invariant forall k :: 0 <= k < i ==>
        m[k] == PhysicalTerm(k, rank, physicalShape[k] / gridShape[k])
    {
      var shardSize := physicalShape[i] / gridShape[i];
      m := m + [PhysicalTerm(i, rank, shardSize)];
      i := i + 1;
    }
    forall k | 0 <= k < rank
      ensures UsesDims(m[k], 2 * rank)
    { PhysicalTermValue(k, rank, physicalShape[k] / gridShape[k], []); }
    forall c | |c| == 2 * rank ensures EvalMap(m, c) == ToPhysical(ShardSizes(physicalShape, gridShape), c) {
      forall k | 0 <= k < rank ensures EvalMap(m, c)[k] == ToPhysical(ShardSizes(physicalShape, gridShape), c)[k] {
        PhysicalTermValue(k, rank, physicalShape[k] / gridShape[k], c);
      }
    }
  }

  function PhysicalTerm(i: nat, rank: nat, shardSize: int): Expr {
    Binary(Add, Binary(Mul, Dim(i), Const(shardSize)), Dim(rank + i))
  }

  lemma PhysicalTermValue(i: nat, rank: nat, shardSize: int, c: seq<int>)
    requires i < rank
    ensures UsesDims(PhysicalTerm(i, rank, shardSize), 2 * rank)
    ensures |c| == 2 * rank ==> Eval(PhysicalTerm(i, rank, shardSize), c) == c[i] * shardSize + c[rank + i]
  {
    var product := Binary(Mul, Dim(i), Const(shardSize));
    assert UsesDims(Dim(i), 2 * rank) && UsesDims(Const(shardSize), 2 * rank);
    assert UsesDims(product, 2 * rank);
    assert |c| == 2 * rank ==> Eval(Dim(i), c) == c[i] && Eval(Const(shardSize), c) == shardSize;
    assert |c| == 2 * rank ==> Eval(product, c) == c[i] * shardSize;
  }

  method BuildPhysicalToDeviceMap(physicalShape: seq<int>, gridShape: seq<int>) returns (m: AffineMap)
    requires |physicalShape| == |gridShape| && Positive(gridShape)
    requires Positive(ShardSizes(physicalShape, gridShape))
    ensures |m| == 2 * |gridShape| && forall i :: 0 <= i < |m| ==> UsesDims(m[i], |gridShape|)
    ensures forall p :: |p| == |gridShape| ==> EvalMap(m, p) == ToDevice(ShardSizes(physicalShape, gridShape), p)
  {
    var rank := |physicalShape|;
    ghost var shards := ShardSizes(physicalShape, gridShape);
    m := [];
    var i := 0;
    while i < rank
      invariant 0 <= i <= rank && |m| == i
      invariant forall k :: 0 <= k < i ==> m[k] == Binary(FloorDiv, Dim(k), Const(shards[k]))
    {
      var shardSize := physicalShape[i] / gridShape[i];
      m := m + [Binary(FloorDiv, Dim(i), Const(shardSize))];
      i := i + 1;
    }
    i := 0;
    while i < rank
      invariant 0 <= i <= rank && |m| == rank + i
      invariant forall k :: 0 <= k < rank ==> m[k] == Binary(FloorDiv, Dim(k), Const(shards[k]))
      invariant forall k :: rank <= k < rank + i ==> m[k] == Binary(Mod, Dim(k - rank), Const(shards[k - rank]))
    {
      var shardSize := physicalShape[i] / gridShape[i];
      m := m + [Binary(Mod, Dim(i), Const(shardSize))];
      i := i + 1;
    }
    forall p | |p| == rank ensures EvalMap(m, p) == ToDevice(shards, p) {
      forall k | 0 <= k < rank
        ensures Eval(m[k], p) == p[k] / shards[k] && Eval(m[rank + k], p) == p[k] % shards[k]
      {
        PositiveDivisor(p[k], shards[k]);
      }
    }
  }

  // ----- The two maps undo each other -----

  /** Physical to device to physical is the identity, on every point. */
  lemma PhysicalRoundTrip(shards: seq<int>, p: seq<int>)
    requires |p| == |shards| && Positive(shards)
    ensures ToPhysical(shards, ToDevice(shards, p)) == p
  {
    forall i | 0 <= i < |p| ensures (p[i] / shards[i]) * shards[i] + p[i] % shards[i] == p[i] {}
  }

  /** Device to physical to device is the identity on every point with in-range shard
      coordinates. */
  lemma DeviceRoundTrip(grid: seq<int>, shards: seq<int>, c: seq<int>)
    requires |grid| == |shards| && Positive(shards) && InBox(c, grid + shards)
    ensures ToDevice(shards, ToPhysical(shards, c)) == c
  {
    var n := |shards|;
    var p := ToPhysical(shards, c);
    forall i | 0 <= i < n ensures p[i] / shards[i] == c[i] && p[i] % shards[i] == c[n + i] {
      assert (grid + shards)[n + i] == shards[i];
      DivModUnique(p[i], shards[i], c[i], c[n + i]);
    }
  }

  /** Every in-range physical point lands inside the grid exactly when the grid divides the
      shape. */
  lemma LandsInGridExactlyWhen(physical: seq<int>, grid: seq<int>)
    requires |physical| == |grid| && Positive(grid) && Positive(physical)
    requires Positive(ShardSizes(physical, grid))
    ensures (forall p :: InBox(p, physical) ==>
               InBox(ToDevice(ShardSizes(physical, grid), p), grid + ShardSizes(physical, grid)))
        <==> GridDivides(physical, grid)
  {
    if GridDivides(physical, grid) {
      forall p | InBox(p, physical)
        ensures InBox(ToDevice(ShardSizes(physical, grid), p), grid + ShardSizes(physical, grid))
      {
        LandsInGrid(physical, grid, p);
      }
    } else {
      var i :| 0 <= i < |grid| && physical[i] % grid[i] != 0;
      LandsOutside(physical, grid, i);
    }
  }

  lemma LandsInGrid(physical: seq<int>, grid: seq<int>, p: seq<int>)
    requires |physical| == |grid| && Positive(grid) && Positive(ShardSizes(physical, grid))
    requires GridDivides(physical, grid) && InBox(p, physical)
    ensures InBox(ToDevice(ShardSizes(physical, grid), p), grid + ShardSizes(physical, grid))
  {
    forall i | 0 <= i < |grid| ensures 0 <= p[i] / (physical[i] / grid[i]) < grid[i] {
      var s := ShardSizes(physical, grid)[i];
      assert physical[i] == grid[i] * s;
      QuotientBelow(p[i], s, grid[i]);
    }
  }

  lemma LandsOutside(physical: seq<int>, grid: seq<int>, i: nat)
    requires |physical| == |grid| && Positive(grid) && Positive(physical) && Positive(ShardSizes(physical, grid))
    requires i < |grid| && physical[i] % grid[i] != 0
    ensures var shards := ShardSizes(physical, grid);
      exists p :: InBox(p, physical) && !InBox(ToDevice(shards, p), grid + shards)
  {
    var corner := seq(|physical|, k requires 0 <= k < |physical| => physical[k] - 1);
    assert InBox(corner, physical);
    assert ShardSizes(physical, grid)[i] == physical[i] / grid[i];
    CornerOutside(physical[i], grid[i]);
    var c := ToDevice(ShardSizes(physical, grid), corner);
    assert c[i] == corner[i] / ShardSizes(physical, grid)[i];
    assert (grid + ShardSizes(physical, grid))[i] == grid[i];
  }

  lemma CornerOutside(size: int, parts: int)
    requires 0 < parts && 0 < size && 0 < size / parts && size % parts != 0
    ensures parts <= (size - 1) / (size / parts)
  {
    var s := size / parts;
    assert size - 1 == parts * s + (size % parts - 1);
    AddMultiple(size % parts - 1, parts, s);
    assert 0 <= (size % parts - 1) / s;
  }

  // ----- Reblocking to a new grid -----

  function GridOf(shape: seq<int>): seq<int> requires EvenRank(shape) { shape[..|shape| / 2] }

  function ShardOf(shape: seq<int>): seq<int> requires EvenRank(shape) { shape[|shape| / 2..] }

  /** Grid extent times shard extent, in every dimension. */
  function PhysicalShape(shape: seq<int>): (p: seq<int>)
    requires EvenRank(shape)
    ensures |p| == |shape| / 2
  {
    seq(|shape| / 2, i requires 0 <= i < |shape| / 2 => shape[i] * shape[|shape| / 2 + i])
  }

  predicate NewGridFits(tensorShape: seq<int>, newGridShape: seq<int>) {
    && EvenRank(tensorShape) && |newGridShape| == |tensorShape| / 2 && Positive(newGridShape)
    && GridDivides(PhysicalShape(tensorShape), newGridShape)
  }

  method CalculateReblockShapeForGrid(tensorShape: seq<int>, newGridShape: seq<int>) returns (newTensorShape: seq<int>)
    requires NewGridFits(tensorShape, newGridShape)
    ensures |newTensorShape| == |tensorShape|
    ensures GridOf(newTensorShape) == newGridShape
    ensures ShardOf(newTensorShape) == ShardSizes(PhysicalShape(tensorShape), newGridShape)
    ensures PhysicalShape(newTensorShape) == PhysicalShape(tensorShape)
  {
    newTensorShape := tensorShape;
    var n := |newGridShape|;
    ghost var shards := ShardSizes(PhysicalShape(tensorShape), newGridShape);
    var i := 0;
    while i < n
      invariant 0 <= i <= n && |newTensorShape| == |tensorShape| == 2 * n
      invariant forall k :: 0 <= k < i ==> newTensorShape[k] == newGridShape[k] && newTensorShape[n + k] == shards[k]
    {
      var j := n + i;
      var extent := tensorShape[i] * tensorShape[j];
      assert PhysicalShape(tensorShape)[i] == extent;
      newTensorShape := newTensorShape[j := extent / newGridShape[i]];
      newTensorShape := newTensorShape[i := newGridShape[i]];
      i := i + 1;
    }
    SamePhysical(PhysicalShape(tensorShape), newGridShape, newTensorShape);
  }

  /** Grid times shard is the physical extent. */
  lemma SamePhysical(physical: seq<int>, grid: seq<int>, shape: seq<int>)
    requires |physical| == |grid| && Positive(grid) && GridDivides(physical, grid) && |shape| == 2 * |grid|
    requires forall k :: 0 <= k < |grid| ==> shape[k] == grid[k] && shape[|grid| + k] == ShardSizes(physical, grid)[k]
    ensures PhysicalShape(shape) == physical
  {
    forall k | 0 <= k < |grid| ensures shape[k] * shape[|grid| + k] == physical[k] {
      var extent, g := physical[k], grid[k];
      assert extent % g == 0;
      WholeShards(extent, g);
      var shards := ShardSizes(physical, grid);
      assert shards[k] == extent / g;
      assert shape[k] == g && shape[|grid| + k] == shards[k];
    }
    assert |PhysicalShape(shape)| == |physical|;
  }

  lemma WholeShards(extent: int, grid: int)
    requires grid > 0 && extent % grid == 0
    ensures grid * (extent / grid) == extent
  {
  }

  /** The flat index of a device point is the row-major index of its physical point. */
  lemma {:induction false} PositionIsPhysical(c: seq<int>, shape: seq<int>)
    requires EvenRank(shape) && |c| == |shape|
    ensures Position(c, shape) == Flat(ToPhysical(ShardOf(shape), c), PhysicalShape(shape))
    decreases |c|
  {
    if c == [] {
      assert Interleave(c) == [];
    } else {
      PositionIsPhysical(Outer(c), Outer(shape));
      PositionStep(c, shape);
      PhysicalStep(c, shape);
    }
  }

  lemma FlatSnoc(c: seq<int>, shape: seq<int>, x: int, d: int)
    requires |c| == |shape|
    ensures Flat(c + [x], shape + [d]) == Flat(c, shape) * d + x
  {
    assert (c + [x])[..|c|] == c && (shape + [d])[..|c|] == shape;
  }

  /** A flat index extended by one grid and one shard coordinate. */
  function Extend(f: int, c: seq<int>, shape: seq<int>): int
    requires EvenRank(shape) && |c| == |shape| && c != []
  {
    (f * shape[|c| / 2 - 1] + c[|c| / 2 - 1]) * shape[|c| - 1] + c[|c| - 1]
  }

  lemma PositionStep(c: seq<int>, shape: seq<int>)
    requires EvenRank(shape) && |c| == |shape| && c != []
    ensures Position(c, shape) == Extend(Position(Outer(c), Outer(shape)), c, shape)
  {
    InterleaveStep(c);
    InterleaveStep(shape);
    FlatSnocTwice(Interleave(Outer(c)), Interleave(Outer(shape)),
                  c[|c| / 2 - 1], shape[|c| / 2 - 1], c[|c| - 1], shape[|c| - 1]);
  }

  lemma FlatSnocTwice(c: seq<int>, shape: seq<int>, x: int, d: int, y: int, e: int)
    requires |c| == |shape|
    ensures Flat(c + [x, y], shape + [d, e]) == (Flat(c, shape) * d + x) * e + y
  {
    assert c + [x, y] == (c + [x]) + [y] && shape + [d, e] == (shape + [d]) + [e];
    FlatSnoc(c, shape, x, d);
    FlatSnoc(c + [x], shape + [d], y, e);
  }

  lemma PhysicalSnoc(c: seq<int>, shape: seq<int>)
    requires EvenRank(shape) && |c| == |shape| && c != []
    ensures ToPhysical(ShardOf(shape), c) ==
      ToPhysical(ShardOf(Outer(shape)), Outer(c)) + [c[|c| / 2 - 1] * shape[|c| - 1] + c[|c| - 1]]
  {
    var h := |c| / 2 - 1;
    LastPhysical(c, shape);
    forall i | 0 <= i < h
      ensures ToPhysical(ShardOf(shape), c)[i] == ToPhysical(ShardOf(Outer(shape)), Outer(c))[i]
    {
      OuterAt(c, i);
      OuterAt(shape, i);
      SameCoordinate(ShardOf(shape), c, ShardOf(Outer(shape)), Outer(c), i);
    }
  }

  lemma LastPhysical(c: seq<int>, shape: seq<int>)
    requires EvenRank(shape) && |c| == |shape| && c != []
    ensures ToPhysical(ShardOf(shape), c)[|c| / 2 - 1] == c[|c| / 2 - 1] * shape[|c| - 1] + c[|c| - 1]
  {
  }

  lemma OuterAt(s: seq<int>, i: nat)
    requires EvenRank(s) && s != [] && i < |s| / 2 - 1
    ensures Outer(s)[i] == s[i] && ShardOf(Outer(s))[i] == ShardOf(s)[i] == s[|s| / 2 + i]
    ensures Outer(s)[|s| / 2 - 1 + i] == s[|s| / 2 + i]
  {
  }

  lemma SameCoordinate(shards: seq<int>, c: seq<int>, shards': seq<int>, c': seq<int>, i: nat)
    requires |c| == 2 * |shards| && |c'| == 2 * |shards'| && i < |shards| && i < |shards'|
    requires shards[i] == shards'[i] && c[i] == c'[i] && c[|shards| + i] == c'[|shards'| + i]
    ensures ToPhysical(shards, c)[i] == ToPhysical(shards', c')[i]
  {
  }

  lemma PhysicalShapeSnoc(shape: seq<int>)
    requires EvenRank(shape) && shape != []
    ensures PhysicalShape(shape) == PhysicalShape(Outer(shape)) + [shape[|shape| / 2 - 1] * shape[|shape| - 1]]
  {
    var r, h := |shape| / 2, |shape| / 2 - 1;
    forall i | 0 <= i < h ensures PhysicalShape(shape)[i] == PhysicalShape(Outer(shape))[i] {
      assert Outer(shape)[i] == shape[i] && Outer(shape)[h + i] == shape[r + i];
    }
  }

  lemma PhysicalStep(c: seq<int>, shape: seq<int>)
    requires EvenRank(shape) && |c| == |shape| && c != []
    ensures Flat(ToPhysical(ShardOf(shape), c), PhysicalShape(shape)) ==
      Extend(Flat(ToPhysical(ShardOf(Outer(shape)), Outer(c)), PhysicalShape(Outer(shape))), c, shape)
  {
    var h, l := |c| / 2 - 1, |c| - 1;
    PhysicalSnoc(c, shape);
    PhysicalShapeSnoc(shape);
    FlatOfSnoc(ToPhysical(ShardOf(shape), c), PhysicalShape(shape), ToPhysical(ShardOf(Outer(shape)), Outer(c)),
               PhysicalShape(Outer(shape)), c[h] * shape[l] + c[l], shape[h] * shape[l]);
    ExtendGrouped(Flat(ToPhysical(ShardOf(Outer(shape)), Outer(c)), PhysicalShape(Outer(shape))), c, shape);
  }

  lemma FlatOfSnoc(c: seq<int>, shape: seq<int>, front: seq<int>, outer: seq<int>, x: int, d: int)
    requires |front| == |outer| && c == front + [x] && shape == outer + [d]
    ensures Flat(c, shape) == Flat(front, outer) * d + x
  {
    FlatSnoc(front, outer, x, d);
  }

  lemma ExtendGrouped(f: int, c: seq<int>, shape: seq<int>)
    requires EvenRank(shape) && |c| == |shape| && c != []
    ensures var h, l := |c| / 2 - 1, |c| - 1;
      Extend(f, c, shape) == f * (shape[h] * shape[l]) + (c[h] * shape[l] + c[l])
  {
    Regroup(f, shape[|c| / 2 - 1], c[|c| / 2 - 1], shape[|c| - 1]);
  }

  lemma PhysicalInBox(c: seq<int>, shape: seq<int>)
    requires EvenRank(shape) && Positive(shape) && InBox(c, shape)
    ensures InBox(ToPhysical(ShardOf(shape), c), PhysicalShape(shape)) && Positive(PhysicalShape(shape))
  {
    var n := |shape| / 2;
    forall i | 0 <= i < n
      ensures 0 <= c[i] * shape[n + i] + c[n + i] < shape[i] * shape[n + i]
      ensures 0 < shape[i] * shape[n + i]
    {
      MulPositive(shape[i], shape[n + i]);
      MulMonotone(0, c[i], shape[n + i]);
      MulMonotone(c[i] + 1, shape[i], shape[n + i]);
      assert (c[i] + 1) * shape[n + i] == c[i] * shape[n + i] + shape[n + i];
    }
  }

  /** Reblocking between two shapes of the same physical tensor keeps every physical point. */
  lemma ReblockKeepsPhysical(input: seq<int>, output: seq<int>, c: seq<int>)
    requires Compatible(input, output) && PhysicalShape(input) == PhysicalShape(output) && InBox(c, output)
    ensures ToPhysical(ShardOf(input), Reblocked(input, output, c)) == ToPhysical(ShardOf(output), c)
  {
    var p := Reblocked(input, output, c);
    ReblockKeepsPosition(input, output, c);
    PositionIsPhysical(p, input);
    PositionIsPhysical(c, output);
    PhysicalInBox(p, input);
    PhysicalInBox(c, output);
    FlatInjective(ToPhysical(ShardOf(input), p), ToPhysical(ShardOf(output), c), PhysicalShape(input));
  }

  lemma {:induction false} PhysicalVolume(shape: seq<int>)
    requires EvenRank(shape)
    ensures Volume(PhysicalShape(shape)) == Volume(shape)
    decreases |shape|
  {
    if shape == [] {
      assert PhysicalShape(shape) == [];
    } else {
      PhysicalVolume(Outer(shape));
      var a, b, g, d := SplitHalves(shape);
      VolumeOfHalves(a, b, g, d);
      PhysicalShapeSnoc(shape);
      VolumeSnoc(PhysicalShape(Outer(shape)), g * d);
      Regroup(Volume(Outer(shape)), g, 0, d);
    }
  }

  method CalculateReblockMapForGrid(tensorShape: seq<int>, newGridShape: seq<int>)
    returns (newTensorShape: seq<int>, m: AffineMap)
    requires NewGridFits(tensorShape, newGridShape) && Positive(tensorShape)
    ensures |newTensorShape| == |tensorShape| && GridOf(newTensorShape) == newGridShape
    ensures PhysicalShape(newTensorShape) == PhysicalShape(tensorShape) && Positive(newTensorShape)
    ensures Positive(ShardOf(tensorShape))
    // Device to physical under the new grid, then physical to device under the old one.
    ensures forall c :: InBox(c, newTensorShape) ==>
      EvalMap(m, c) == ToDevice(ShardOf(tensorShape),
        ToPhysical(ShardSizes(PhysicalShape(tensorShape), newGridShape), c))
  {
    newTensorShape := CalculateReblockShapeForGrid(tensorShape, newGridShape);
    SameTensor(tensorShape, newTensorShape);
    m := CalculateReblockMap(tensorShape, newTensorShape);
    forall c | InBox(c, newTensorShape)
      ensures EvalMap(m, c) == ToDevice(ShardOf(tensorShape), ToPhysical(ShardOf(newTensorShape), c))
    {
      ReblockedThroughPhysical(tensorShape, newTensorShape, c);
    }
  }

  /** Reblocking goes to the physical point and back under the other grid. */
  lemma ReblockedThroughPhysical(shape: seq<int>, newShape: seq<int>, c: seq<int>)
    requires Compatible(shape, newShape) && PhysicalShape(shape) == PhysicalShape(newShape) && InBox(c, newShape)
    ensures Positive(ShardOf(shape))
    ensures Reblocked(shape, newShape, c) == ToDevice(ShardOf(shape), ToPhysical(ShardOf(newShape), c))
  {
    ReblockKeepsPosition(shape, newShape, c);
    ReblockKeepsPhysical(shape, newShape, c);
    ThroughPhysical(shape, Reblocked(shape, newShape, c));
  }

  lemma ThroughPhysical(shape: seq<int>, c: seq<int>)
    requires EvenRank(shape) && Positive(shape) && InBox(c, shape)
    ensures Positive(ShardOf(shape)) && ToDevice(ShardOf(shape), ToPhysical(ShardOf(shape), c)) == c
  {
    assert GridOf(shape) + ShardOf(shape) == shape;
    DeviceRoundTrip(GridOf(shape), ShardOf(shape), c);
  }

  lemma SameTensor(shape: seq<int>, newShape: seq<int>)
    requires EvenRank(shape) && Positive(shape) && |newShape| == |shape|
    requires PhysicalShape(newShape) == PhysicalShape(shape) && Positive(GridOf(newShape))
    ensures Compatible(shape, newShape)
  {
    var n := |shape| / 2;
    PhysicalVolume(shape);
    PhysicalVolume(newShape);
    forall k | 0 <= k < |newShape| ensures 0 < newShape[k] {
      if k < n {
        assert GridOf(newShape)[k] == newShape[k];
      } else {
        assert newShape[k - n] == GridOf(newShape)[k - n];
        MulPositive(shape[k - n], shape[k]);
        assert PhysicalShape(newShape)[k - n] == PhysicalShape(shape)[k - n];
        OtherFactorPositive(newShape[k - n], newShape[n + (k - n)]);
      }
    }
  }

  lemma OtherFactorPositive(a: int, b: int)
    requires 0 < a && 0 < a * b
    ensures 0 < b
  {
    if b <= 0 { MulMonotone(0, -b, a); assert false; }
  }

  /** The shard extents of the old grid are those its own tensor gives. */
  lemma OldShards(shape: seq<int>)
    requires EvenRank(shape) && Positive(shape)
    ensures Positive(GridOf(shape)) && ShardSizes(PhysicalShape(shape), GridOf(shape)) == ShardOf(shape)
  {
    var n := |shape| / 2;
    forall i | 0 <= i < n ensures PhysicalShape(shape)[i] / GridOf(shape)[i] == ShardOf(shape)[i] {
      assert PhysicalShape(shape)[i] == shape[n + i] * shape[i];
      DivModUnique(PhysicalShape(shape)[i], shape[i], shape[n + i], 0);
    }
  }
}
