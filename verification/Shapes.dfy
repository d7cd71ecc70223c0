/** Boxes of coordinates and their row-major enumeration
    (calculateStrides, sample, linearIdToCoord, and the in-place odometer). */
module Shapes {
  import opened Arith

  predicate NonNegative(shape: seq<int>) {
    forall i :: 0 <= i < |shape| ==> 0 <= shape[i]
  }

  predicate Positive(shape: seq<int>) {
    forall i :: 0 <= i < |shape| ==> 0 < shape[i]
  }

  /** The product of all extents. */
  function Volume(shape: seq<int>): int {
    if shape == [] then 1 else Volume(shape[..|shape| - 1]) * shape[|shape| - 1]
  }

  predicate InBox(c: seq<int>, shape: seq<int>) {
    |c| == |shape| && forall i :: 0 <= i < |c| ==> 0 <= c[i] < shape[i]
  }

  /** Row-major position of a point: the last coordinate moves fastest. */
  function Flat(c: seq<int>, shape: seq<int>): int
    requires |c| == |shape|
  {
    if c == [] then 0
    else Flat(c[..|c| - 1], shape[..|c| - 1]) * shape[|c| - 1] + c[|c| - 1]
  }

  /** The point at row-major position `i` (positions wrap at the volume). */
  function Coord(i: int, shape: seq<int>): (c: seq<int>)
    requires Positive(shape)
    ensures |c| == |shape|
    decreases |shape|
  {
    if shape == [] then []
    else
      var n := shape[|shape| - 1];
      Coord(i / n, shape[..|shape| - 1]) + [i % n]
  }

  lemma {:induction false} VolumePositive(shape: seq<int>)
    requires Positive(shape)
    ensures 0 < Volume(shape)
  {
    if shape != [] {
      VolumePositive(shape[..|shape| - 1]);
      MulPositive(Volume(shape[..|shape| - 1]), shape[|shape| - 1]);
    }
  }

  lemma {:induction false} VolumeNonNegative(shape: seq<int>)
    requires NonNegative(shape)
    ensures 0 <= Volume(shape)
    ensures 0 < Volume(shape) <==> Positive(shape)
  {
    if shape != [] {
      var init, last := shape[..|shape| - 1], shape[|shape| - 1];
      VolumeNonNegative(init);
      assert shape == init + [last];
      if 0 < Volume(init) && 0 < last { MulPositive(Volume(init), last); }
    }
  }

  lemma {:induction false} VolumeConcat(a: seq<int>, b: seq<int>)
    ensures Volume(a + b) == Volume(a) * Volume(b)
    decreases |b|
  {
    if b == [] {
      assert a + b == a;
    } else {
      var init, last := b[..|b| - 1], b[|b| - 1];
      assert (a + b)[..|a + b| - 1] == a + init;
      VolumeConcat(a, init);
      assert Volume(a) * Volume(init) * last == Volume(a) * (Volume(init) * last);
    }
  }

  lemma {:induction false} FlatInRange(c: seq<int>, shape: seq<int>)
    requires InBox(c, shape)
    ensures 0 <= Flat(c, shape) < Volume(shape)
  {
    if c != [] {
      var n := |c| - 1;
      FlatInRange(c[..n], shape[..n]);
      MulMonotone(0, Flat(c[..n], shape[..n]), shape[n]);
      MulMonotone(Flat(c[..n], shape[..n]) + 1, Volume(shape[..n]), shape[n]);
      assert (Flat(c[..n], shape[..n]) + 1) * shape[n] == Flat(c[..n], shape[..n]) * shape[n] + shape[n];
    }
  }

  /** Reading a point off its own position gives the point back. */
  lemma {:induction false} CoordOfFlat(c: seq<int>, shape: seq<int>)
    requires InBox(c, shape) && Positive(shape)
    ensures Coord(Flat(c, shape), shape) == c
  {
    if c != [] {
      var n := |c| - 1;
      CoordOfFlat(c[..n], shape[..n]);
      DivModUnique(Flat(c, shape), shape[n], Flat(c[..n], shape[..n]), c[n]);
      assert c == c[..n] + [c[n]];
    }
  }

  /** Every position names a point of the box, and the box has `Volume` positions. */
  lemma {:induction false} FlatOfCoord(i: int, shape: seq<int>)
    requires Positive(shape)
    ensures InBox(Coord(i, shape), shape)
    ensures 0 < Volume(shape)
    ensures Flat(Coord(i, shape), shape) == i % Volume(shape)
    decreases |shape|
  {
    VolumePositive(shape);
    if shape == [] {
      assert i % 1 == 0;
    } else {
      var n := |shape| - 1;
      var c := Coord(i, shape);
      FlatOfCoord(i / shape[n], shape[..n]);
      assert c[..n] == Coord(i / shape[n], shape[..n]);
      DivDiv(i, shape[n], Volume(shape[..n]));
      assert shape[n] * Volume(shape[..n]) == Volume(shape);
    }
  }

  lemma Regroup(a: int, v: int, f: int, d: int)
    ensures (a * v + f) * d == a * (v * d) + f * d
  {
  }

  /** The first coordinate weighs the volume of all dimensions after it. */
  lemma {:induction false} FlatSplit(c: seq<int>, shape: seq<int>, j: nat)
    requires |c| == |shape| && j < |c|
    ensures Volume(shape[j..]) == shape[j] * Volume(shape[j + 1..])
    ensures Flat(c[j..], shape[j..]) == c[j] * Volume(shape[j + 1..]) + Flat(c[j + 1..], shape[j + 1..])
    decreases |c|
  {
    var n := |c| - 1;
    if j == n {
      assert shape[j..][..0] == [] && shape[j + 1..] == [];
      assert Volume(shape[j..]) == Volume(shape[j..][..0]) * shape[j] == shape[j];
      assert c[j..][..0] == [];
    } else {
      FlatSplit(c[..n], shape[..n], j);
      assert c[..n][j..] == c[j..][..|c[j..]| - 1] && c[..n][j + 1..] == c[j + 1..][..|c[j + 1..]| - 1];
      assert shape[..n][j..] == shape[j..][..|shape[j..]| - 1];
      assert shape[..n][j + 1..] == shape[j + 1..][..|shape[j + 1..]| - 1];
      var v, f := Volume(shape[..n][j + 1..]), Flat(c[..n][j + 1..], shape[..n][j + 1..]);
      Regroup(shape[j], v, 0, shape[n]);
      Regroup(c[j], v, f, shape[n]);
    }
  }

  lemma InRangeMod(i: int, n: int)
    requires 0 <= i < n
    ensures i % n == i && i / n == 0
  {
    DivModUnique(i, n, 0, i);
  }

  /** Two points of a box at the same position are the same point. */
  lemma FlatInjective(a: seq<int>, b: seq<int>, shape: seq<int>)
    requires InBox(a, shape) && InBox(b, shape) && Positive(shape)
    requires Flat(a, shape) == Flat(b, shape)
    ensures a == b
  {
    CoordOfFlat(a, shape);
    CoordOfFlat(b, shape);
  }

  /** One coordinate of a point by a single stride division: what `sample` computes. */
  lemma {:induction false} CoordByStride(i: int, shape: seq<int>, j: nat)
    requires Positive(shape) && j < |shape|
    ensures 0 < Volume(shape[j + 1..])
    ensures Coord(i, shape)[j] == (i / Volume(shape[j + 1..])) % shape[j]
    decreases |shape|
  {
    var n := |shape| - 1;
    VolumePositive(shape[j + 1..]);
    if j == n {
      assert shape[j + 1..] == [];
      assert i / 1 == i;
    } else {
      CoordByStride(i / shape[n], shape[..n], j);
      assert shape[..n][j + 1..] == shape[j + 1..n];
      VolumePositive(shape[j + 1..n]);
      DivDiv(i, shape[n], Volume(shape[j + 1..n]));
      assert shape[j + 1..][..|shape[j + 1..]| - 1] == shape[j + 1..n];
      assert Volume(shape[j + 1..]) == Volume(shape[j + 1..n]) * shape[n];
    }
  }

  // ----- The three enumerations -----

  method CalculateStrides(shape: seq<int>, elementSize: int) returns (strides: seq<int>)
    requires shape != []
    ensures |strides| == |shape|
    ensures forall j :: 0 <= j < |shape| ==> strides[j] == elementSize * Volume(shape[j + 1..])
  {
    var a := new int[|shape|];
    var stride := elementSize;
    var i := |shape|;
    assert shape[|shape|..] == [];
    while i > 0
      invariant 0 <= i <= |shape|
      invariant stride == elementSize * Volume(shape[i..])
      invariant forall j :: i <= j < |shape| ==> a[j] == elementSize * Volume(shape[j + 1..])
    {
      i := i - 1;
      a[i] := stride;
      VolumeConcat([shape[i]], shape[i + 1..]);
      assert [shape[i]] + shape[i + 1..] == shape[i..];
      assert Volume([shape[i]]) == shape[i] by { assert [shape[i]][..0] == []; }
      assert elementSize * Volume(shape[i + 1..]) * shape[i] == elementSize * (shape[i] * Volume(shape[i + 1..]));
      stride := stride * shape[i];
    }
    strides := a[..];
  }

  /** All points of a box, in the order of their positions. */
  function Points(shape: seq<int>): (ps: seq<seq<int>>)
    requires Positive(shape)
    ensures |ps| == Volume(shape)
  {
    VolumePositive(shape);
    seq(Volume(shape), i => Coord(i, shape))
  }

  /** The points a callback receives. An empty shape yields no call at all. */
  function Visited(shape: seq<int>): seq<seq<int>> {
    if shape == [] || !Positive(shape) then [] else Points(shape)
  }

  method Sample(shape: seq<int>) returns (visited: seq<seq<int>>)
    requires NonNegative(shape)
    ensures visited == Visited(shape)
  {
    visited := [];
    if |shape| == 0 { return; }
    var strides := CalculateStrides(shape, 1);
    var volume := shape[0] * strides[0];
    assert volume == Volume(shape) by {
      VolumeConcat([shape[0]], shape[1..]);
      assert [shape[0]] + shape[1..] == shape;
      assert Volume([shape[0]]) == shape[0] by { assert [shape[0]][..0] == []; }
    }
    VolumeNonNegative(shape);
    var i := 0;
    while i < volume
      invariant 0 <= i <= volume
      invariant |visited| == i
      invariant volume > 0 ==> Positive(shape)
      invariant forall k :: 0 <= k < i ==> visited[k] == Coord(k, shape)
    {
      var index: seq<int> := [];
      var j := 0;
      while j < |shape|
        invariant 0 <= j <= |shape| == |strides|
        invariant index == Coord(i, shape)[..j]
      {
        CoordByStride(i, shape, j);
        index := index + [(i / strides[j]) % shape[j]];
        j := j + 1;
      }
      visited := visited + [index];
      i := i + 1;
    }
  }

  method LinearIdToCoord(id: nat, shape: seq<int>) returns (coord: seq<int>)
    requires Positive(shape)
    ensures coord == Coord(id, shape)
  {
    var c := new int[|shape|](_ => 0);
    var rest := id;
    var i := |shape|;
    assert shape[..|shape|] == shape;
    while i > 0
      invariant 0 <= i <= |shape|
      invariant 0 <= rest
      invariant Coord(id, shape) == Coord(rest, shape[..i]) + c[i..]
    {
      i := i - 1;
      ghost var tail := c[i + 1..];
      c[i] := rest % shape[i];
      assert c[i..] == [rest % shape[i]] + tail;
      assert shape[..i + 1][..i] == shape[..i];
      rest := rest / shape[i];
    }
    coord := c[..];
  }

  /** The successor in row-major order; the last point wraps to the origin. */
  function Successor(c: seq<int>, shape: seq<int>): (r: seq<int>)
    requires |c| == |shape|
    ensures |r| == |c|
  {
    if c == [] then []
    else
      var n := |c| - 1;
      if c[n] + 1 < shape[n] then c[..n] + [c[n] + 1]
      else Successor(c[..n], shape[..n]) + [0]
  }

  lemma CoordSnoc(q: int, r: int, shape: seq<int>)
    requires Positive(shape) && shape != [] && 0 <= r < shape[|shape| - 1]
    ensures Coord(q * shape[|shape| - 1] + r, shape) == Coord(q, shape[..|shape| - 1]) + [r]
  {
    DivModUnique(q * shape[|shape| - 1] + r, shape[|shape| - 1], q, r);
  }

  lemma {:induction false} SuccessorIsNextCoord(c: seq<int>, shape: seq<int>)
    requires InBox(c, shape) && Positive(shape)
    ensures Successor(c, shape) == Coord(Flat(c, shape) + 1, shape)
  {
    if c != [] {
      var n := |c| - 1;
      var f := Flat(c[..n], shape[..n]);
      NextFlat(c, shape);
      if c[n] + 1 < shape[n] {
        CoordSnoc(f, c[n] + 1, shape);
        CoordOfFlat(c[..n], shape[..n]);
      } else {
        CoordSnoc(f + 1, 0, shape);
        SuccessorIsNextCoord(c[..n], shape[..n]);
      }
    }
  }

  /** The next flat index, within a row or at the start of the next one. */
  lemma NextFlat(c: seq<int>, shape: seq<int>)
    requires InBox(c, shape) && c != []
    ensures var n := |c| - 1;
      var f := Flat(c[..n], shape[..n]);
      Flat(c, shape) + 1 == if c[n] + 1 < shape[n] then f * shape[n] + (c[n] + 1) else (f + 1) * shape[n] + 0
  {
  }

  /** Exhausted trailing coordinates carry into their predecessor. */
  lemma {:induction false} SuccessorCarries(c: seq<int>, shape: seq<int>, i: nat)
    requires |c| == |shape| && i <= |c|
    requires forall k :: i <= k < |c| ==> c[k] + 1 >= shape[k]
    ensures Successor(c, shape) == Successor(c[..i], shape[..i]) + Zeros(|c| - i)
    decreases |c| - i
  {
    if i == |c| {
      assert c[..i] == c && shape[..i] == shape;
    } else {
      SuccessorCarries(c, shape, i + 1);
      assert c[..i + 1][..i] == c[..i] && shape[..i + 1][..i] == shape[..i];
      assert Zeros(|c| - i) == [0] + Zeros(|c| - (i + 1));
    }
  }

  /** `w` is `c` with the coordinates from `i` on reset and, unless all were exhausted, the
      one before them increased. */
  lemma SuccessorIs(c: seq<int>, shape: seq<int>, i: nat, w: seq<int>)
    requires |c| == |shape| == |w| && i <= |c|
    requires forall k :: i <= k < |c| ==> c[k] + 1 >= shape[k] && w[k] == 0
    requires forall k :: 0 <= k < i - 1 ==> w[k] == c[k]
    requires 0 < i ==> c[i - 1] + 1 < shape[i - 1] && w[i - 1] == c[i - 1] + 1
    ensures w == Successor(c, shape)
  {
    SuccessorCarries(c, shape, i);
    assert w[i..] == Zeros(|c| - i);
    assert w == w[..i] + w[i..];
    if 0 < i { SuccessorStops(c[..i], shape[..i], w[..i]); }
  }

  /** Without a carry, only the last coordinate changes. */
  lemma SuccessorStops(c: seq<int>, shape: seq<int>, w: seq<int>)
    requires |c| == |shape| == |w| > 0
    requires forall k :: 0 <= k < |c| - 1 ==> w[k] == c[k]
    requires c[|c| - 1] + 1 < shape[|c| - 1] && w[|c| - 1] == c[|c| - 1] + 1
    ensures w == Successor(c, shape)
  {
    var n := |c| - 1;
    assert w[..n] == c[..n];
    assert w == w[..n] + [w[n]];
  }

  /** Advance the window idx[lo..lo + |shape|] by one point, in place. */
  method Advance(idx: array<int>, lo: nat, shape: seq<int>)
    requires lo + |shape| <= idx.Length
    requires Positive(shape) && InBox(idx[lo..lo + |shape|], shape)
    modifies idx
    ensures forall k :: 0 <= k < lo || lo + |shape| <= k < idx.Length ==> idx[k] == old(idx[k])
    ensures idx[lo..lo + |shape|] == Coord(Flat(old(idx[lo..lo + |shape|]), shape) + 1, shape)
  {
    ghost var c := idx[lo..lo + |shape|];
    ghost var stop := 0;
    var i := |shape|;
    while i > 0
      invariant 0 <= i <= |shape| && stop == 0
      invariant forall k :: 0 <= k < lo + i || lo + |shape| <= k < idx.Length ==> idx[k] == old(idx[k])
      invariant forall k :: i <= k < |shape| ==> idx[lo + k] == 0 && c[k] + 1 >= shape[k]
    {
      i := i - 1;
      idx[lo + i] := idx[lo + i] + 1;
      if idx[lo + i] < shape[i] {
        stop := i + 1;
        break;
      }
      idx[lo + i] := 0;
    }
    SuccessorIs(c, shape, stop, idx[lo..lo + |shape|]);
    SuccessorIsNextCoord(c, shape);
  }

  // ----- What the enumerations have in common -----

  ghost predicate LexLess(a: seq<int>, b: seq<int>)
    requires |a| == |b|
  {
    exists k :: 0 <= k < |a| && a[..k] == b[..k] && a[k] < b[k]
  }

  /** Positions and points are in order-preserving correspondence. */
  lemma {:induction false} CoordsAscend(i: int, k: int, shape: seq<int>)
    requires Positive(shape) && 0 <= i < k < Volume(shape)
    ensures LexLess(Coord(i, shape), Coord(k, shape))
    decreases |shape|
  {
    if shape != [] {
      var n := |shape| - 1;
      var d := shape[n];
      if i / d < k / d {
        QuotientBelow(i, d, Volume(shape[..n]));
        QuotientBelow(k, d, Volume(shape[..n]));
        CoordsAscend(i / d, k / d, shape[..n]);
        LexExtend(Coord(i / d, shape[..n]), Coord(k / d, shape[..n]), i % d, k % d);
      } else {
        SameQuotient(i, k, d);
        LexLast(Coord(i / d, shape[..n]), i % d, k % d);
      }
    }
  }

  lemma LexExtend(a: seq<int>, b: seq<int>, x: int, y: int)
    requires |a| == |b| && LexLess(a, b)
    ensures LexLess(a + [x], b + [y])
  {
    var j :| 0 <= j < |a| && a[..j] == b[..j] && a[j] < b[j];
    assert (a + [x])[..j] == a[..j] && (b + [y])[..j] == b[..j];
  }

  lemma LexLast(a: seq<int>, x: int, y: int)
    requires x < y
    ensures LexLess(a + [x], a + [y])
  {
    assert (a + [x])[..|a|] == (a + [y])[..|a|];
  }

  lemma SameQuotient(i: int, k: int, d: int)
    requires 0 < d && i < k && i / d >= k / d
    ensures i / d == k / d && i % d < k % d
  {
    if i / d > k / d {
      MulMonotone(k / d + 1, i / d, d);
      assert false;
    }
  }

  lemma QuotientBelow(k: int, d: int, v: int)
    requires 0 < d && 0 <= k < v * d
    ensures 0 <= k / d < v
  {
    if k / d >= v { MulMonotone(v, k / d, d); }
  }

  /** The i-th visited point, the coordinates of linear id i, and the odometer after i
      steps from the origin coincide; every point of the box is met at one position only. */
  lemma EnumerationsAgree(shape: seq<int>, i: nat)
    requires Positive(shape) && shape != [] && i < Volume(shape)
    ensures Visited(shape)[i] == Coord(i, shape) == Odometer(i, shape)
    ensures InBox(Visited(shape)[i], shape)
    ensures forall c :: InBox(c, shape) ==>
      (c == Visited(shape)[i] <==> Flat(c, shape) == i)
  {
    OdometerIsCoord(i, shape);
    FlatOfCoord(i, shape);
    InRangeMod(i, Volume(shape));
    forall c | InBox(c, shape) ensures c == Coord(i, shape) <==> Flat(c, shape) == i {
      CoordOfFlat(c, shape);
    }
  }

  /** Every point of the box is visited. */
  lemma EveryPointVisited(shape: seq<int>, c: seq<int>)
    requires Positive(shape) && shape != [] && InBox(c, shape)
    ensures 0 <= Flat(c, shape) < |Visited(shape)| && Visited(shape)[Flat(c, shape)] == c
  {
    FlatInRange(c, shape);
    CoordOfFlat(c, shape);
  }

  function Zeros(n: nat): (z: seq<int>)
    ensures |z| == n && forall i :: 0 <= i < n ==> z[i] == 0
  {
    seq(n, _ => 0)
  }

  /** The odometer after `i` steps from the origin. */
  function Odometer(i: nat, shape: seq<int>): (c: seq<int>)
    ensures |c| == |shape|
  {
    if i == 0 then Zeros(|shape|) else Successor(Odometer(i - 1, shape), shape)
  }

  lemma {:induction false} CoordZero(shape: seq<int>)
    requires Positive(shape)
    ensures Coord(0, shape) == Zeros(|shape|)
  {
    if shape != [] {
      var n := |shape| - 1;
      InRangeMod(0, shape[n]);
      CoordZero(shape[..n]);
    }
  }

  lemma CoordInBox(i: nat, shape: seq<int>)
    requires Positive(shape) && i < Volume(shape)
    ensures InBox(Coord(i, shape), shape) && Flat(Coord(i, shape), shape) == i
  {
    FlatOfCoord(i, shape);
    InRangeMod(i, Volume(shape));
  }

  lemma {:induction false} OdometerIsCoord(i: nat, shape: seq<int>)
    requires Positive(shape) && i < Volume(shape)
    ensures Odometer(i, shape) == Coord(i, shape)
    decreases i
  {
    if i == 0 {
      CoordZero(shape);
    } else {
      OdometerIsCoord(i - 1, shape);
      CoordInBox(i - 1, shape);
      SuccessorIsNextCoord(Coord(i - 1, shape), shape);
    }
  }
}
