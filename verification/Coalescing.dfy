/** How many consecutive elements of a shard always lie side by side in memory
    (calculateCoalescingFactor). */
module Coalescing {
  import opened Arith
  import opened Shapes
  import opened Affine
  import CompiledAffineMap

  const MAX_RESULTS := 16
  const MAX_DIMS := 16

  // ----- Addresses and runs -----

  /** The memory address of every element of one shard, in row-major order. */
  function Addresses(m: AffineMap, grid: seq<int>, shard: seq<int>): (a: seq<seq<int>>)
    ensures Positive(shard) ==> |a| == Volume(shard)
  {
    if !Positive(shard) then [] else
      VolumePositive(shard);
      seq(Volume(shard), k => EvalMap(m, grid + Coord(k, shard)))
  }

  /** The address a transfer expects next: the last result moves by the stride. */
  function Following(address: seq<int>, stride: int): (next: seq<int>) {
    if address == [] then [] else address[..|address| - 1] + [address[|address| - 1] + stride]
  }

  predicate Continues(a: seq<seq<int>>, stride: int, k: int)
    requires 0 < k < |a|
  {
    a[k] == Following(a[k - 1], stride)
  }

  /** Lengths of the maximal contiguous runs. */
  function RunLengths(a: seq<seq<int>>, stride: int): (runs: seq<nat>)
    ensures a != [] ==> runs != [] && runs[|runs| - 1] <= |a|
  {
    if a == [] then []
    else
      var n := |a| - 1;
      var runs := RunLengths(a[..n], stride);
      if n > 0 && Continues(a, stride, n) then runs[..|runs| - 1] + [runs[|runs| - 1] + 1]
      else runs + [1]
  }

  /** The runs of all shards, one grid point after another. */
  function AllRuns(m: AffineMap, points: seq<seq<int>>, shard: seq<int>, stride: int): seq<nat> {
    if points == [] then []
    else
      AllRuns(m, points[..|points| - 1], shard, stride) +
      RunLengths(Addresses(m, points[|points| - 1], shard), stride)
  }

  function GcdOf(start: nat, xs: seq<nat>): nat {
    if xs == [] then start else Gcd(GcdOf(start, xs[..|xs| - 1]), xs[|xs| - 1])
  }

  function ShardVolume(shape: seq<int>, numGridDims: nat): nat
    requires numGridDims <= |shape| && NonNegative(shape)
  {
    VolumeNonNegative(shape[numGridDims..]);
    Volume(shape[numGridDims..])
  }

  /** The factor over the given grid points. */
  function FactorOver(m: AffineMap, points: seq<seq<int>>, shape: seq<int>, stride: int, numGridDims: nat): nat
    requires numGridDims <= |shape| && NonNegative(shape)
  {
    GcdOf(ShardVolume(shape, numGridDims), AllRuns(m, points, shape[numGridDims..], stride))
  }

  /** The grid points the documentation ranges over; a rank-0 grid has one. */
  function GridPoints(gridShape: seq<int>): seq<seq<int>> {
    if Positive(gridShape) then Points(gridShape) else []
  }

  /** The documented value: the GCD of all run lengths over all grid points. */
  function Documented(m: AffineMap, shape: seq<int>, stride: int, numGridDims: nat): nat
    requires numGridDims <= |shape| && NonNegative(shape)
  {
    FactorOver(m, GridPoints(shape[..numGridDims]), shape, stride, numGridDims)
  }

  // ----- Exactness -----

  /** Cutting the sequence into aligned chunks of `d` leaves every chunk contiguous. */
  ghost predicate ChunksContiguous(a: seq<seq<int>>, stride: int, d: int)
    requires 0 < d
  {
    forall k :: 0 < k < |a| && !Divides(d, k) ==> Continues(a, stride, k)
  }

  ghost predicate DividesAll(d: int, xs: seq<nat>)
    requires 0 < d
  {
    forall i :: 0 <= i < |xs| ==> Divides(d, xs[i])
  }

  lemma DividesAllConcat(d: int, a: seq<nat>, b: seq<nat>)
    requires 0 < d
    ensures DividesAll(d, a + b) <==> DividesAll(d, a) && DividesAll(d, b)
  {
    assert forall i :: 0 <= i < |a| ==> (a + b)[i] == a[i];
    assert forall i :: 0 <= i < |b| ==> (a + b)[|a| + i] == b[i];
  }

  lemma DividesAllSplit(d: int, xs: seq<nat>)
    requires 0 < d && xs != []
    ensures DividesAll(d, xs) <==> DividesAll(d, xs[..|xs| - 1]) && Divides(d, xs[|xs| - 1])
  {
    assert xs == xs[..|xs| - 1] + [xs[|xs| - 1]];
    DividesAllConcat(d, xs[..|xs| - 1], [xs[|xs| - 1]]);
    assert DividesAll(d, [xs[|xs| - 1]]) <==> Divides(d, [xs[|xs| - 1]][0]);
  }

  lemma {:induction false} GcdOfDivisors(start: nat, xs: seq<nat>, d: int)
    requires 0 < d
    ensures Divides(d, GcdOf(start, xs)) <==> Divides(d, start) && DividesAll(d, xs)
  {
    if xs != [] {
      var n := |xs| - 1;
      GcdOfDivisors(start, xs[..n], d);
      GcdDivisors(GcdOf(start, xs[..n]), xs[n], d);
      DividesAllSplit(d, xs);
    }
  }

  /** The step into element `n` decides whether chunks stay contiguous. */
  lemma ChunksStep(a: seq<seq<int>>, stride: int, d: int)
    requires 0 < d && 1 < |a|
    ensures ChunksContiguous(a, stride, d) <==>
      ChunksContiguous(a[..|a| - 1], stride, d) && (Continues(a, stride, |a| - 1) || Divides(d, |a| - 1))
  {
    var n := |a| - 1;
    assert forall k :: 0 < k < n ==> (Continues(a, stride, k) <==> Continues(a[..n], stride, k));
  }

  /** All complete runs are multiples of `d` exactly when every run starts at one; then so
      does the last run. */
  ghost predicate Aligned(a: seq<seq<int>>, stride: int, d: int)
    requires 0 < d && a != []
  {
    var runs := RunLengths(a, stride);
    && (DividesAll(d, runs[..|runs| - 1]) <==> ChunksContiguous(a, stride, d))
    && (DividesAll(d, runs[..|runs| - 1]) ==> Divides(d, |a| - runs[|runs| - 1]))
  }

  lemma AlignedJoin(a: seq<seq<int>>, stride: int, d: int)
    requires 0 < d && 1 < |a| && Continues(a, stride, |a| - 1) && Aligned(a[..|a| - 1], stride, d)
    ensures Aligned(a, stride, d)
  {
    var runs, before := RunLengths(a, stride), RunLengths(a[..|a| - 1], stride);
    assert runs[..|runs| - 1] == before[..|before| - 1];
    ChunksStep(a, stride, d);
  }

  lemma AlignedBreak(a: seq<seq<int>>, stride: int, d: int)
    requires 0 < d && 1 < |a| && !Continues(a, stride, |a| - 1) && Aligned(a[..|a| - 1], stride, d)
    ensures Aligned(a, stride, d)
  {
    var n := |a| - 1;
    var runs, before := RunLengths(a, stride), RunLengths(a[..n], stride);
    assert runs == before + [1] && runs[..|runs| - 1] == before;
    FinishedRunDivides(a[..n], stride, d);
    ChunksStep(a, stride, d);
  }

  /** All runs divide exactly when the chunks so far are contiguous and end with the last run. */
  lemma FinishedRunDivides(a: seq<seq<int>>, stride: int, d: int)
    requires 0 < d && a != [] && Aligned(a, stride, d)
    ensures DividesAll(d, RunLengths(a, stride)) <==> ChunksContiguous(a, stride, d) && Divides(d, |a|)
  {
    var runs := RunLengths(a, stride);
    var last := runs[|runs| - 1];
    DividesAllSplit(d, runs);
    if DividesAll(d, runs[..|runs| - 1]) { RestOrAll(d, |a|, last); }
  }

  lemma {:induction false} RunsAlign(a: seq<seq<int>>, stride: int, d: int)
    requires 0 < d && a != []
    ensures Aligned(a, stride, d)
    decreases |a|
  {
    var n := |a| - 1;
    if n == 0 {
      assert a[..n] == [];
      DivModUnique(0, d, 0, 0);
    } else {
      RunsAlign(a[..n], stride, d);
      if Continues(a, stride, n) {
        AlignedJoin(a, stride, d);
      } else {
        AlignedBreak(a, stride, d);
      }
    }
  }

  lemma RunsExact(a: seq<seq<int>>, stride: int, d: int)
    requires 0 < d && Divides(d, |a|)
    ensures DividesAll(d, RunLengths(a, stride)) <==> ChunksContiguous(a, stride, d)
  {
    if a != [] {
      var runs := RunLengths(a, stride);
      RunsAlign(a, stride, d);
      DividesAllSplit(d, runs);
      RestDivides(d, |a|, runs[|runs| - 1]);
    }
  }

  lemma RestOrAll(d: int, n: int, last: int)
    requires 0 < d && Divides(d, n - last)
    ensures Divides(d, last) <==> Divides(d, n)
  {
    DividesSum(d, n - last, last);
  }

  lemma RestDivides(d: int, n: int, last: int)
    requires 0 < d && Divides(d, n)
    ensures Divides(d, n - last) ==> Divides(d, last)
  {
    if Divides(d, n - last) { DividesSum(d, n - last, last); }
  }

  lemma {:induction false} AllRunsExact(m: AffineMap, points: seq<seq<int>>, shard: seq<int>, stride: int, d: int)
    requires 0 < d && Positive(shard) && Divides(d, Volume(shard))
    ensures DividesAll(d, AllRuns(m, points, shard, stride)) <==>
      forall p :: p in points ==> ChunksContiguous(Addresses(m, p, shard), stride, d)
  {
    if points != [] {
      var n := |points| - 1;
      assert points == points[..n] + [points[n]];
      AllRunsExact(m, points[..n], shard, stride, d);
      RunsExact(Addresses(m, points[n], shard), stride, d);
      DividesAllConcat(d, AllRuns(m, points[..n], shard, stride), RunLengths(Addresses(m, points[n], shard), stride));
    }
  }

  lemma PointsAreTheBox(shape: seq<int>)
    requires Positive(shape)
    ensures forall g :: g in Points(shape) <==> InBox(g, shape)
  {
    forall g | InBox(g, shape) ensures g in Points(shape) {
      FlatInRange(g, shape);
      CoordOfFlat(g, shape);
      assert Points(shape)[Flat(g, shape)] == g;
    }
    forall i | 0 <= i < Volume(shape) ensures InBox(Coord(i, shape), shape) {
      FlatOfCoord(i, shape);
    }
  }

  /** A divisor `d` of the shard volume divides the documented factor if and only if every
      aligned d-element chunk of every shard is contiguous. */
  lemma DocumentedIsExact(m: AffineMap, shape: seq<int>, stride: int, numGridDims: nat, d: int)
    requires numGridDims <= |shape| && Positive(shape)
    requires 0 < d && Divides(d, Volume(shape[numGridDims..]))
    ensures Divides(d, Documented(m, shape, stride, numGridDims)) <==>
      forall g :: InBox(g, shape[..numGridDims]) ==>
        ChunksContiguous(Addresses(m, g, shape[numGridDims..]), stride, d)
  {
    var grid, shard := shape[..numGridDims], shape[numGridDims..];
    VolumePositive(shard);
    AllRunsExact(m, Points(grid), shard, stride, d);
    GcdOfDivisors(Volume(shard), AllRuns(m, Points(grid), shard, stride), d);
    PointsAreTheBox(grid);
  }

  /** The factor is itself one of those divisors, so it is the largest safe chunk size. */
  lemma DocumentedIsLargest(m: AffineMap, shape: seq<int>, stride: int, numGridDims: nat)
    requires numGridDims <= |shape| && Positive(shape)
    ensures var f := Documented(m, shape, stride, numGridDims);
      && 0 < f && Divides(f, Volume(shape[numGridDims..]))
      && (forall g :: InBox(g, shape[..numGridDims]) ==>
            ChunksContiguous(Addresses(m, g, shape[numGridDims..]), stride, f))
  {
    var f := Documented(m, shape, stride, numGridDims);
    var shard := shape[numGridDims..];
    VolumePositive(shard);
    var runs := AllRuns(m, Points(shape[..numGridDims]), shard, stride);
    if f == 0 {
      GcdOfDivisors(Volume(shard), runs, Volume(shard) + 1);
      assert 0 % (Volume(shard) + 1) == 0;
      InRangeMod(Volume(shard), Volume(shard) + 1);
      assert false;
    }
    GcdOfDivisors(Volume(shard), runs, f);
    DivModUnique(f, f, 1, 0);
    DocumentedIsExact(m, shape, stride, numGridDims, f);
  }

  // ----- The computation -----

  lemma {:induction false} OneAbsorbs(xs: seq<nat>)
    ensures GcdOf(1, xs) == 1
  {
    if xs != [] {
      OneAbsorbs(xs[..|xs| - 1]);
      GcdDivisors(1, xs[|xs| - 1], Gcd(1, xs[|xs| - 1]));
      var g := Gcd(1, xs[|xs| - 1]);
      DivModUnique(g, g, 1, 0);
      if g > 1 { InRangeMod(1, g); assert false; }
    }
  }

  lemma {:induction false} GcdOfConcat(start: nat, a: seq<nat>, b: seq<nat>)
    ensures GcdOf(start, a + b) == GcdOf(GcdOf(start, a), b)
    decreases |b|
  {
    if b == [] {
      assert a + b == a;
    } else {
      assert (a + b)[..|a + b| - 1] == a + b[..|b| - 1];
      GcdOfConcat(start, a, b[..|b| - 1]);
    }
  }

  lemma {:induction false} EvalIgnoresTail(e: Expr, xs: seq<int>, ys: seq<int>)
    requires xs <= ys && CompiledAffineMap.Defined(e, xs)
    ensures CompiledAffineMap.Defined(e, ys) && Eval(e, ys) == Eval(e, xs)
  {
    match e
    case Dim(_) =>
    case Const(_) =>
    case Binary(_, l, r) =>
      EvalIgnoresTail(l, xs, ys);
      EvalIgnoresTail(r, xs, ys);
  }

  /** The map can be evaluated on every point of the shape without machine overflow. */
  ghost predicate Evaluable(m: AffineMap, shape: seq<int>) {
    forall c :: InBox(c, shape) ==> EvaluableAt(m, c)
  }

  ghost predicate EvaluableAt(m: AffineMap, c: seq<int>) {
    forall i :: 0 <= i < |m| ==> CompiledAffineMap.Defined(m[i], c)
  }

  /** What the scan knows after `iter` elements: the last run, and the GCD of those before it. */
  ghost predicate Scanned(a: seq<seq<int>>, stride: int, iter: nat, start: nat, factor: nat, current: nat)
    requires iter <= |a|
  {
    if iter == 0 then factor == start && current == 0
    else
      var runs := RunLengths(a[..iter], stride);
      current == runs[|runs| - 1] && factor == GcdOf(start, runs[..|runs| - 1])
  }

  lemma ScanStep(a: seq<seq<int>>, stride: int, iter: nat, start: nat, factor: nat, current: nat)
    requires iter < |a| && Scanned(a, stride, iter, start, factor, current)
    ensures iter == 0 || Continues(a, stride, iter) ==> Scanned(a, stride, iter + 1, start, factor, current + 1)
    ensures 0 < iter && !Continues(a, stride, iter) ==>
      Scanned(a, stride, iter + 1, start, Gcd(factor, current), 1)
  {
    var longer := a[..iter + 1];
    assert longer[..iter] == a[..iter];
    var runs, before := RunLengths(longer, stride), RunLengths(a[..iter], stride);
    if 0 < iter {
      assert Continues(longer, stride, iter) <==> Continues(a, stride, iter);
      if Continues(a, stride, iter) {
        assert runs[..|runs| - 1] == before[..|before| - 1];
      } else {
        assert runs[..|runs| - 1] == before;
      }
    }
  }

  /** Completed runs stay as they are when the sequence goes on. */
  ghost predicate Keeps(early: seq<nat>, late: seq<nat>) {
    early != [] && |early| <= |late| && early[..|early| - 1] <= late
  }

  lemma KeepsOneMore(early: seq<nat>, a: seq<seq<int>>, stride: int)
    requires 1 < |a| && Keeps(early, RunLengths(a[..|a| - 1], stride))
    ensures Keeps(early, RunLengths(a, stride))
  {
    var middle := RunLengths(a[..|a| - 1], stride);
    assert middle[..|middle| - 1] <= RunLengths(a, stride);
    assert early[..|early| - 1] <= middle[..|middle| - 1];
  }

  lemma {:induction false} CompletedRunsStay(a: seq<seq<int>>, stride: int, iter: nat)
    requires 0 < iter <= |a|
    ensures Keeps(RunLengths(a[..iter], stride), RunLengths(a, stride))
    decreases |a|
  {
    if iter == |a| {
      assert a[..iter] == a;
    } else {
      assert a[..|a| - 1][..iter] == a[..iter];
      CompletedRunsStay(a[..|a| - 1], stride, iter);
      KeepsOneMore(RunLengths(a[..iter], stride), a, stride);
    }
  }

  /** Once the factor is 1 the remaining runs cannot change it. */
  lemma OneIsFinal(a: seq<seq<int>>, stride: int, iter: nat, start: nat, current: nat)
    requires 0 < iter <= |a| && Scanned(a, stride, iter, start, 1, current)
    ensures GcdOf(start, RunLengths(a, stride)) == 1
  {
    var early := RunLengths(a[..iter], stride);
    CompletedRunsStay(a, stride, iter);
    OneStays(start, early[..|early| - 1], RunLengths(a, stride));
  }

  lemma OneStays(start: nat, done: seq<nat>, runs: seq<nat>)
    requires done <= runs && GcdOf(start, done) == 1
    ensures GcdOf(start, runs) == 1
  {
    var rest := runs[|done|..];
    assert runs == done + rest;
    GcdOfConcat(start, done, rest);
    OneAbsorbs(rest);
  }

  lemma ScanEnd(a: seq<seq<int>>, stride: int, start: nat, factor: nat, current: nat)
    requires Scanned(a, stride, |a|, start, factor, current)
    ensures Gcd(factor, current) == GcdOf(start, RunLengths(a, stride))
  {
    assert a[..|a|] == a;
  }

  /** The factor and the length of the current run after `iter` elements. */
  ghost function ScanState(a: seq<seq<int>>, stride: int, iter: nat, start: nat): (nat, nat)
    requires iter <= |a|
  {
    if iter == 0 then (start, 0)
    else
      var runs := RunLengths(a[..iter], stride);
      (GcdOf(start, runs[..|runs| - 1]), runs[|runs| - 1])
  }

  /** The i-th entry is the state after i elements, and `total` the result of the whole shard. */
  ghost predicate TalliedAt(a: seq<seq<int>>, stride: int, start: nat, states: seq<(nat, nat)>, total: nat, i: nat)
    requires i < |states| && |states| == |a| + 1
  {
    states[i] == ScanState(a, stride, i, start) && total == GcdOf(start, RunLengths(a, stride))
  }

  ghost predicate Tallied(a: seq<seq<int>>, stride: int, start: nat, states: seq<(nat, nat)>, total: nat) {
    && |states| == |a| + 1
    && forall i {:trigger TalliedAt(a, stride, start, states, total, i)} ::
         0 <= i <= |a| ==> TalliedAt(a, stride, start, states, total, i)
  }

  lemma Tally(a: seq<seq<int>>, stride: int, start: nat) returns (states: seq<(nat, nat)>)
    ensures Tallied(a, stride, start, states, GcdOf(start, RunLengths(a, stride))) && states[0] == (start, 0)
  {
    states := seq(|a| + 1, i requires 0 <= i <= |a| => ScanState(a, stride, i, start));
    assert states[0] == ScanState(a, stride, 0, start);
  }

  lemma TallyEnds(a: seq<seq<int>>, stride: int, start: nat, states: seq<(nat, nat)>, total: nat)
    requires Tallied(a, stride, start, states, total)
    ensures Gcd(states[|a|].0, states[|a|].1) == total
  {
    assert TalliedAt(a, stride, start, states, total, |a|);
    ScanEnd(a, stride, start, states[|a|].0, states[|a|].1);
  }

  /** Whether `address` is the awaited one. */
  method Matches(address: array<int>, nextAddress: array<int>, numResults: nat) returns (contiguous: bool)
    requires numResults <= address.Length && numResults <= nextAddress.Length
    ensures contiguous <==> address[..numResults] == nextAddress[..numResults]
  {
    contiguous := true;
    var i := 0;
    while i < numResults
      invariant 0 <= i <= numResults
      invariant forall k :: 0 <= k < i ==> address[k] == nextAddress[k]
    {
      if address[i] != nextAddress[i] {
        assert address[..numResults][i] != nextAddress[..numResults][i];
        return false;
      }
      i := i + 1;
    }
  }

  method AwaitNext(address: array<int>, nextAddress: array<int>, numResults: nat, stride: int)
    requires 0 < numResults <= address.Length && numResults <= nextAddress.Length && address != nextAddress
    modifies nextAddress
    ensures nextAddress[..numResults] == Following(address[..numResults], stride)
  {
    var i := 0;
    while i < numResults
      invariant 0 <= i <= numResults
      invariant forall k :: 0 <= k < i ==> nextAddress[k] == address[k]
    {
      nextAddress[i] := address[i];
      i := i + 1;
    }
    nextAddress[numResults - 1] := nextAddress[numResults - 1] + stride;
  }

  /** Evaluate the map at a point held in the front of `memoryIndex`. */
  method EvaluateAt(compiled: CompiledAffineMap.Compiler, memoryIndex: array<int>, address: array<int>,
                    ghost point: seq<int>)
    requires compiled.Valid() && |compiled.compiledResults| <= address.Length && memoryIndex != address
    requires point <= memoryIndex[..]
    requires EvaluableAt(compiled.compiledResults, point)
    modifies address
    ensures address[..|compiled.compiledResults|] == EvalMap(compiled.compiledResults, point)
  {
    forall i | 0 <= i < |compiled.compiledResults|
      ensures CompiledAffineMap.Defined(compiled.compiledResults[i], memoryIndex[..])
      ensures Eval(compiled.compiledResults[i], memoryIndex[..]) == Eval(compiled.compiledResults[i], point)
    {
      EvalIgnoresTail(compiled.compiledResults[i], point, memoryIndex[..]);
    }
    compiled.Evaluate(memoryIndex, address);
  }

  /** Fold the runs of one shard into the factor so far. */
  method ScanShard(compiled: CompiledAffineMap.Compiler, shape: seq<int>, stride: int, numGridDims: nat,
                   gridIndex: seq<int>, memoryIndex: array<int>, start: nat) returns (coalescingFactor: nat)
    requires compiled.Valid() && 1 <= |compiled.compiledResults| <= MAX_RESULTS
    requires numGridDims < |shape| <= MAX_DIMS == memoryIndex.Length
    requires NonNegative(shape) && Evaluable(compiled.compiledResults, shape)
    requires InBox(gridIndex, shape[..numGridDims])
    modifies memoryIndex
    ensures coalescingFactor ==
      GcdOf(start, RunLengths(Addresses(compiled.compiledResults, gridIndex, shape[numGridDims..]), stride))
  {
    var shardShape := shape[numGridDims..];
    SetIndex(memoryIndex, gridIndex, |shardShape|);
    VolumeNonNegative(shardShape);
    if Volume(shardShape) == 0 {
      ScanEnd([], stride, start, start, 0);
      return Gcd(start, 0);
    }
    ghost var all, points, states, total := ShardTally(compiled.compiledResults, gridIndex, shape, numGridDims, stride,
                                                       start);
    coalescingFactor := ScanElements(compiled, stride, gridIndex, shardShape, memoryIndex, start, Volume(shardShape),
                                     all, points, states, total);
  }

  /** What the element loop goes through, and what it must arrive at. */
  lemma ShardTally(m: AffineMap, gridIndex: seq<int>, shape: seq<int>, numGridDims: nat, stride: int, start: nat)
    returns (all: seq<seq<int>>, points: seq<seq<int>>, states: seq<(nat, nat)>, total: nat)
    requires numGridDims <= |shape| && Positive(shape[numGridDims..]) && Evaluable(m, shape)
    requires InBox(gridIndex, shape[..numGridDims])
    ensures Elements(m, gridIndex, shape[numGridDims..], all, points) && |all| == Volume(shape[numGridDims..])
    ensures points[0] == gridIndex + Zeros(|shape| - numGridDims)
    ensures Tallied(all, stride, start, states, total) && states[0] == (start, 0)
    ensures total == GcdOf(start, RunLengths(Addresses(m, gridIndex, shape[numGridDims..]), stride))
  {
    var shard := shape[numGridDims..];
    CoordZero(shard);
    ShardElements(m, gridIndex, shape, numGridDims);
    all, points := Addresses(m, gridIndex, shard), ShardPoints(gridIndex, shard);
    states := Tally(all, stride, start);
    total := GcdOf(start, RunLengths(all, stride));
  }

  /** The element loop of one non-empty shard, the index standing at its origin. */
  method ScanElements(compiled: CompiledAffineMap.Compiler, stride: int, gridIndex: seq<int>, shardShape: seq<int>,
                      memoryIndex: array<int>, start: nat, shardVolume: nat, ghost all: seq<seq<int>>,
                      ghost points: seq<seq<int>>, ghost states: seq<(nat, nat)>, ghost total: nat)
    returns (coalescingFactor: nat)
    requires compiled.Valid() && 1 <= |compiled.compiledResults| <= MAX_RESULTS
    requires Elements(compiled.compiledResults, gridIndex, shardShape, all, points) && |all| == shardVolume
    requires |points[0]| <= memoryIndex.Length && memoryIndex[..|points[0]|] == points[0]
    requires Tallied(all, stride, start, states, total) && states[0] == (start, 0)
    modifies memoryIndex
    ensures coalescingFactor == total
  {
    coalescingFactor := start;
    var current: nat := 0;
    var address, nextAddress := new int[MAX_RESULTS], new int[MAX_RESULTS];
    var iter, done := 0, false;
    while iter < shardVolume
      invariant 0 <= iter <= shardVolume && !done
      invariant Expecting(all, points, stride, iter, |compiled.compiledResults|, memoryIndex, nextAddress)
      invariant (coalescingFactor, current) == states[iter]
    {
      var contiguous := VisitElement(compiled, stride, gridIndex, shardShape, memoryIndex, iter, address, nextAddress,
                                     all, points);
      coalescingFactor, current, done := CountElement(iter, contiguous, coalescingFactor, current, all, stride, start,
                                                      states, total);
      if done { break; }
      iter := iter + 1;
    }
    if !done { TallyEnds(all, stride, start, states, total); }
    coalescingFactor := Gcd(coalescingFactor, current);
  }

  /** One more element in the current run, or a new run; done once the factor is 1. */
  method CountElement(iter: nat, contiguous: bool, factor: nat, run: nat, ghost all: seq<seq<int>>, ghost stride: int,
                      ghost start: nat, ghost states: seq<(nat, nat)>, ghost total: nat)
    returns (coalescingFactor: nat, current: nat, done: bool)
    requires iter < |all| && Tallied(all, stride, start, states, total) && (factor, run) == states[iter]
    requires contiguous <==> 0 < iter && Continues(all, stride, iter)
    ensures done ==> Gcd(coalescingFactor, current) == total
    ensures !done ==> (coalescingFactor, current) == states[iter + 1]
  {
    coalescingFactor, current, done := factor, run, false;
    assert TalliedAt(all, stride, start, states, total, iter);
    assert TalliedAt(all, stride, start, states, total, iter + 1);
    ScanStep(all, stride, iter, start, factor, run);
    if iter == 0 || contiguous {
      current := current + 1;
    } else {
      coalescingFactor := Gcd(coalescingFactor, current);
      if coalescingFactor == 1 {
        OneIsFinal(all, stride, iter + 1, start, 1);
        OneAbsorbs([current]);
        done := true;
        return;
      }
      current := 1;
    }
  }

  /** The points of a shard in row-major order, and the origin again behind the last one. */
  ghost function ShardPoints(gridIndex: seq<int>, shardShape: seq<int>): (points: seq<seq<int>>)
    requires Positive(shardShape)
  {
    VolumePositive(shardShape);
    seq(Volume(shardShape) + 1, k => gridIndex + Coord(k, shardShape))
  }

  /** Element `iter` can be evaluated, and the odometer leads from it to the next point. */
  ghost predicate IsElement(m: AffineMap, gridIndex: seq<int>, shardShape: seq<int>, all: seq<seq<int>>,
                            points: seq<seq<int>>, iter: nat)
    requires |points| == |all| + 1
  {
    && iter < |all| && Positive(shardShape) && iter < Volume(shardShape)
    && points[iter] == gridIndex + Coord(iter, shardShape)
    && points[iter + 1] == gridIndex + Coord(iter + 1, shardShape)
    && EvaluableAt(m, points[iter]) && all[iter] == EvalMap(m, points[iter])
    && |points[iter + 1]| == |points[iter]| == |gridIndex| + |shardShape|
  }

  /** The points and addresses of a non-empty shard whose map can be evaluated everywhere. */
  ghost predicate Elements(m: AffineMap, gridIndex: seq<int>, shardShape: seq<int>, all: seq<seq<int>>,
                           points: seq<seq<int>>) {
    && |points| == |all| + 1
    && forall iter {:trigger IsElement(m, gridIndex, shardShape, all, points, iter)} ::
         0 <= iter < |all| ==> IsElement(m, gridIndex, shardShape, all, points, iter)
  }

  lemma ShardElements(m: AffineMap, gridIndex: seq<int>, shape: seq<int>, numGridDims: nat)
    requires numGridDims <= |shape| && Positive(shape[numGridDims..]) && Evaluable(m, shape)
    requires InBox(gridIndex, shape[..numGridDims])
    ensures var shard := shape[numGridDims..];
      Elements(m, gridIndex, shard, Addresses(m, gridIndex, shard), ShardPoints(gridIndex, shard))
  {
    var shard := shape[numGridDims..];
    var all, points := Addresses(m, gridIndex, shard), ShardPoints(gridIndex, shard);
    forall iter | 0 <= iter < |all| ensures IsElement(m, gridIndex, shard, all, points, iter) {
      PointInBox(gridIndex, iter, shape, numGridDims);
    }
  }

  lemma ContinuesElement(m: AffineMap, gridIndex: seq<int>, shardShape: seq<int>, all: seq<seq<int>>,
                         points: seq<seq<int>>, stride: int, iter: nat)
    requires Elements(m, gridIndex, shardShape, all, points) && iter < |all|
    ensures 0 < iter ==> (Continues(all, stride, iter) <==> LiesBehind(all[iter - 1], all[iter], stride))
  {
    assert IsElement(m, gridIndex, shardShape, all, points, iter);
    if 0 < iter {
      assert IsElement(m, gridIndex, shardShape, all, points, iter - 1);
      BehindIsFollowing(all[iter - 1], all[iter], stride);
    }
  }

  /** The index stands at point `iter`, and `nextAddress` holds what should follow element
      `iter - 1`. */
  ghost predicate Expecting(all: seq<seq<int>>, points: seq<seq<int>>, stride: int, iter: nat, numResults: nat,
                            memoryIndex: array<int>, nextAddress: array<int>)
    reads memoryIndex, nextAddress
  {
    && numResults <= nextAddress.Length
    && iter < |points| && |points[iter]| <= memoryIndex.Length && memoryIndex[..|points[iter]|] == points[iter]
    && (0 < iter <= |all| ==> nextAddress[..numResults] == Following(all[iter - 1], stride))
  }

  /** Evaluate the element the index points at, compare it with the awaited address, and move on. */
  method VisitElement(compiled: CompiledAffineMap.Compiler, stride: int, gridIndex: seq<int>, shardShape: seq<int>,
                      memoryIndex: array<int>, iter: nat, address: array<int>, nextAddress: array<int>,
                      ghost all: seq<seq<int>>, ghost points: seq<seq<int>>) returns (contiguous: bool)
    requires compiled.Valid() && 1 <= |compiled.compiledResults| <= address.Length
    requires address != nextAddress && address != memoryIndex && nextAddress != memoryIndex
    requires Elements(compiled.compiledResults, gridIndex, shardShape, all, points) && iter < |all|
    requires Expecting(all, points, stride, iter, |compiled.compiledResults|, memoryIndex, nextAddress)
    modifies address, nextAddress, memoryIndex
    ensures contiguous <==> 0 < iter && Continues(all, stride, iter)
    ensures contiguous <==> 0 < iter && LiesBehind(all[iter - 1], all[iter], stride)
    ensures Expecting(all, points, stride, iter + 1, |compiled.compiledResults|, memoryIndex, nextAddress)
  {
    ContinuesElement(compiled.compiledResults, gridIndex, shardShape, all, points, stride, iter);
    assert IsElement(compiled.compiledResults, gridIndex, shardShape, all, points, iter);
    EvaluateAt(compiled, memoryIndex, address, points[iter]);
    contiguous := CompareAndAwait(address, nextAddress, |compiled.resultRegs|, stride, iter > 0);
    AdvancePoint(memoryIndex, gridIndex, iter, shardShape);
  }

  /** Whether the address is the awaited one, if any is; the next one is awaited afterwards. */
  method CompareAndAwait(address: array<int>, nextAddress: array<int>, numResults: nat, stride: int, awaited: bool)
    returns (contiguous: bool)
    requires 0 < numResults <= address.Length && numResults <= nextAddress.Length && address != nextAddress
    modifies nextAddress
    ensures contiguous <==> awaited && address[..numResults] == old(nextAddress[..numResults])
    ensures nextAddress[..numResults] == Following(address[..numResults], stride)
  {
    contiguous := false;
    if awaited {
      contiguous := Matches(address, nextAddress, numResults);
    }
    AwaitNext(address, nextAddress, numResults, stride);
  }

  lemma PointInBox(gridIndex: seq<int>, iter: nat, shape: seq<int>, numGridDims: nat)
    requires numGridDims <= |shape| && InBox(gridIndex, shape[..numGridDims]) && Positive(shape[numGridDims..])
    ensures InBox(gridIndex + Coord(iter, shape[numGridDims..]), shape)
  {
    FlatOfCoord(iter, shape[numGridDims..]);
    assert shape == shape[..numGridDims] + shape[numGridDims..];
  }

  method AdvancePoint(memoryIndex: array<int>, gridIndex: seq<int>, ghost iter: nat, shardShape: seq<int>)
    requires Positive(shardShape) && |gridIndex| + |shardShape| <= memoryIndex.Length
    requires memoryIndex[..|gridIndex| + |shardShape|] == gridIndex + Coord(iter, shardShape)
    requires iter < Volume(shardShape)
    modifies memoryIndex
    ensures memoryIndex[..|gridIndex| + |shardShape|] == gridIndex + Coord(iter + 1, shardShape)
  {
    var n := |gridIndex|;
    FlatOfCoord(iter, shardShape);
    InRangeMod(iter, Volume(shardShape));
    ghost var before := memoryIndex[..];
    assert before[..n + |shardShape|][n..] == memoryIndex[n..n + |shardShape|] == Coord(iter, shardShape);
    assert before[..n + |shardShape|][..n] == gridIndex;
    Advance(memoryIndex, n, shardShape);
    assert memoryIndex[..n] == before[..n];
    assert memoryIndex[..n + |shardShape|] == memoryIndex[..n] + memoryIndex[n..n + |shardShape|];
  }

  method SetIndex(memoryIndex: array<int>, gridIndex: seq<int>, shardRank: nat)
    requires |gridIndex| + shardRank <= memoryIndex.Length
    modifies memoryIndex
    ensures memoryIndex[..|gridIndex| + shardRank] == gridIndex + Zeros(shardRank)
  {
    var i := 0;
    while i < |gridIndex|
      invariant 0 <= i <= |gridIndex|
      invariant forall k :: 0 <= k < i ==> memoryIndex[k] == gridIndex[k]
    {
      memoryIndex[i] := gridIndex[i];
      i := i + 1;
    }
    i := 0;
    while i < shardRank
      invariant 0 <= i <= shardRank
      invariant forall k :: 0 <= k < |gridIndex| ==> memoryIndex[k] == gridIndex[k]
      invariant forall k :: |gridIndex| <= k < |gridIndex| + i ==> memoryIndex[k] == 0
    {
      memoryIndex[|gridIndex| + i] := 0;
      i := i + 1;
    }
  }

  /** What the program computes: as documented, but over the points `sample` visits. */
  function Computed(m: AffineMap, shape: seq<int>, stride: int, numGridDims: nat): nat
    requires numGridDims <= |shape| && NonNegative(shape)
  {
    if numGridDims == |shape| then 1
    else FactorOver(m, Visited(shape[..numGridDims]), shape, stride, numGridDims)
  }

  // ----- Exactness, on the map alone -----

  /** `b` lies behind `a`: its last coordinate is the stride further, the others are the same. */
  ghost predicate LiesBehind(a: seq<int>, b: seq<int>, stride: int) {
    && |a| == |b| && (forall i :: 0 <= i < |a| - 1 ==> b[i] == a[i])
    && (a != [] ==> b[|b| - 1] == a[|a| - 1] + stride)
  }

  /** Element k of the shard at grid point `g` lies behind element k - 1. */
  ghost predicate StepsAt(m: AffineMap, shard: seq<int>, stride: int, g: seq<int>, k: int)
    requires Positive(shard)
  {
    LiesBehind(EvalMap(m, g + Coord(k - 1, shard)), EvalMap(m, g + Coord(k, shard)), stride)
  }

  /** At every grid point, every two consecutive elements of one aligned chunk of `d` elements lie
      one behind the other. */
  ghost predicate ChunksLieTogether(m: AffineMap, shape: seq<int>, stride: int, numGridDims: nat, d: int)
    requires numGridDims <= |shape| && Positive(shape[numGridDims..]) && 0 < d
  {
    forall g, k :: InBox(g, shape[..numGridDims]) && 0 < k < Volume(shape[numGridDims..]) && k % d != 0 ==>
      StepsAt(m, shape[numGridDims..], stride, g, k)
  }

  lemma ContinuesIsBehind(m: AffineMap, g: seq<int>, shard: seq<int>, stride: int, k: int)
    requires Positive(shard) && 0 < k < Volume(shard)
    ensures Continues(Addresses(m, g, shard), stride, k) <==> StepsAt(m, shard, stride, g, k)
  {
    var all := Addresses(m, g, shard);
    var a, b := EvalMap(m, g + Coord(k - 1, shard)), EvalMap(m, g + Coord(k, shard));
    assert all[k - 1] == a && all[k] == b;
    BehindIsFollowing(a, b, stride);
  }

  lemma BehindIsFollowing(a: seq<int>, b: seq<int>, stride: int)
    requires |a| == |b|
    ensures LiesBehind(a, b, stride) <==> b == Following(a, stride)
  {
  }

  lemma ChunksByAddresses(m: AffineMap, shape: seq<int>, stride: int, numGridDims: nat, d: int)
    requires numGridDims <= |shape| && Positive(shape[numGridDims..]) && 0 < d
    ensures ChunksLieTogether(m, shape, stride, numGridDims, d) <==>
      forall g :: InBox(g, shape[..numGridDims]) ==>
        ChunksContiguous(Addresses(m, g, shape[numGridDims..]), stride, d)
  {
    var shard := shape[numGridDims..];
    forall g, k | InBox(g, shape[..numGridDims]) && 0 < k < Volume(shard) && k % d != 0
      ensures Continues(Addresses(m, g, shard), stride, k) <==> StepsAt(m, shard, stride, g, k)
    {
      ContinuesIsBehind(m, g, shard, stride, k);
    }
  }

  /** With a grid dimension, a divisor of the shard volume divides the result exactly when chunks of
      that size lie together. */
  lemma ComputedByAddresses(m: AffineMap, shape: seq<int>, stride: int, numGridDims: nat, d: int)
    requires 1 <= numGridDims <= |shape| && Positive(shape) && Positive(shape[numGridDims..])
    requires 0 < d && Volume(shape[numGridDims..]) % d == 0
    ensures Computed(m, shape, stride, numGridDims) % d == 0 <==> ChunksLieTogether(m, shape, stride, numGridDims, d)
  {
    ComputedAsDocumented(m, shape, stride, numGridDims);
    DocumentedIsExact(m, shape, stride, numGridDims, d);
    ChunksByAddresses(m, shape, stride, numGridDims, d);
  }

  /** The result is a divisor of the shard volume for which, and only for whose divisors, this
      holds. */
  ghost predicate LargestTogether(m: AffineMap, shape: seq<int>, stride: int, numGridDims: nat, result: int)
    requires numGridDims <= |shape| && Positive(shape[numGridDims..])
  {
    && 0 < result && Volume(shape[numGridDims..]) % result == 0
    && forall d :: 0 < d && Volume(shape[numGridDims..]) % d == 0 ==>
         (result % d == 0 <==> ChunksLieTogether(m, shape, stride, numGridDims, d))
  }

  lemma ComputedIsLargest(m: AffineMap, shape: seq<int>, stride: int, numGridDims: nat)
    requires 1 <= numGridDims <= |shape| && Positive(shape) && Positive(shape[numGridDims..])
    ensures LargestTogether(m, shape, stride, numGridDims, Computed(m, shape, stride, numGridDims))
  {
    ComputedAsDocumented(m, shape, stride, numGridDims);
    DocumentedIsLargest(m, shape, stride, numGridDims);
    forall d | 0 < d && Volume(shape[numGridDims..]) % d == 0
      ensures Computed(m, shape, stride, numGridDims) % d == 0 <==> ChunksLieTogether(m, shape, stride, numGridDims, d)
    {
      ComputedByAddresses(m, shape, stride, numGridDims, d);
    }
  }

  method CalculateCoalescingFactor(m: AffineMap, shape: seq<int>, stride: int, numGridDims: nat)
    returns (result: nat)
    requires numGridDims <= |shape| <= MAX_DIMS && NonNegative(shape)
    requires 1 <= |m| <= MAX_RESULTS && Evaluable(m, shape)
    requires |CompiledAffineMap.CompiledAll(m)| <= CompiledAffineMap.MAX_REGS
    ensures result == Computed(m, shape, stride, numGridDims)
    ensures 1 <= numGridDims && Positive(shape) && Positive(shape[numGridDims..]) ==>
      LargestTogether(m, shape, stride, numGridDims, result)
  {
    if 1 <= numGridDims && Positive(shape) && Positive(shape[numGridDims..]) {
      ComputedIsLargest(m, shape, stride, numGridDims);
    }
    var gridShape, shardShape := shape[..numGridDims], shape[numGridDims..];
    if shardShape == [] { return 1; }
    var compiled := new CompiledAffineMap.Compiler(m);
    VolumeNonNegative(shardShape);
    var points := Sample(gridShape);
    forall p | 0 <= p < |points| ensures InBox(points[p], gridShape) { VisitedInBox(gridShape, p); }
    result := ScanGrid(compiled, shape, stride, numGridDims, points, Volume(shardShape));
  }

  /** The callback of `sample`, applied to every visited grid point in turn. */
  method ScanGrid(compiled: CompiledAffineMap.Compiler, shape: seq<int>, stride: int, numGridDims: nat,
                  points: seq<seq<int>>, shardVolume: nat) returns (coalescingFactor: nat)
    requires compiled.Valid() && 1 <= |compiled.compiledResults| <= MAX_RESULTS
    requires numGridDims < |shape| <= MAX_DIMS
    requires NonNegative(shape) && Evaluable(compiled.compiledResults, shape)
    requires forall p :: 0 <= p < |points| ==> InBox(points[p], shape[..numGridDims])
    ensures coalescingFactor ==
      GcdOf(shardVolume, AllRuns(compiled.compiledResults, points, shape[numGridDims..], stride))
  {
    ghost var m, shard := compiled.compiledResults, shape[numGridDims..];
    coalescingFactor := shardVolume;
    var memoryIndex := new int[MAX_DIMS];
    var p := 0;
    while p < |points|
      invariant 0 <= p <= |points|
      invariant coalescingFactor == GcdOf(shardVolume, AllRuns(m, points[..p], shard, stride))
    {
      ExtendPoints(m, points, p, shard, stride, shardVolume);
      coalescingFactor := ScanPoint(compiled, shape, stride, numGridDims, points[p], memoryIndex, coalescingFactor);
      p := p + 1;
    }
    assert points[..|points|] == points;
  }

  /** One grid point: nothing to scan once the factor is 1. */
  method ScanPoint(compiled: CompiledAffineMap.Compiler, shape: seq<int>, stride: int, numGridDims: nat,
                   gridIndex: seq<int>, memoryIndex: array<int>, start: nat) returns (coalescingFactor: nat)
    requires compiled.Valid() && 1 <= |compiled.compiledResults| <= MAX_RESULTS
    requires numGridDims < |shape| <= MAX_DIMS == memoryIndex.Length
    requires NonNegative(shape) && Evaluable(compiled.compiledResults, shape)
    requires InBox(gridIndex, shape[..numGridDims])
    modifies memoryIndex
    ensures coalescingFactor ==
      GcdOf(start, RunLengths(Addresses(compiled.compiledResults, gridIndex, shape[numGridDims..]), stride))
  {
    if start == 1 {
      OneAbsorbs(RunLengths(Addresses(compiled.compiledResults, gridIndex, shape[numGridDims..]), stride));
      return 1;
    }
    coalescingFactor := ScanShard(compiled, shape, stride, numGridDims, gridIndex, memoryIndex, start);
  }

  lemma VisitedInBox(shape: seq<int>, p: nat)
    requires p < |Visited(shape)|
    ensures InBox(Visited(shape)[p], shape)
  {
    FlatOfCoord(p, shape);
  }

  lemma ExtendPoints(m: AffineMap, points: seq<seq<int>>, p: nat, shard: seq<int>, stride: int, start: nat)
    requires p < |points|
    ensures GcdOf(start, AllRuns(m, points[..p + 1], shard, stride)) ==
      GcdOf(GcdOf(start, AllRuns(m, points[..p], shard, stride)), RunLengths(Addresses(m, points[p], shard), stride))
  {
    assert points[..p + 1][..p] == points[..p];
    GcdOfConcat(start, AllRuns(m, points[..p], shard, stride), RunLengths(Addresses(m, points[p], shard), stride));
  }

  // ----- When the computed value is the documented one -----

  /** With at least one grid dimension the program computes the documented GCD. */
  lemma ComputedAsDocumented(m: AffineMap, shape: seq<int>, stride: int, numGridDims: nat)
    requires 1 <= numGridDims <= |shape| && NonNegative(shape)
    ensures Computed(m, shape, stride, numGridDims) == Documented(m, shape, stride, numGridDims)
  {
    if numGridDims == |shape| {
      NoShardDims(m, shape, stride, numGridDims);
    }
  }

  /** Without shard dimensions every shard is one element. */
  lemma NoShardDims(m: AffineMap, shape: seq<int>, stride: int, numGridDims: nat)
    requires numGridDims == |shape| && NonNegative(shape)
    ensures Documented(m, shape, stride, numGridDims) == 1
  {
    assert shape[numGridDims..] == [];
    OneAbsorbs(AllRuns(m, GridPoints(shape[..numGridDims]), [], stride));
  }

  /** With no grid dimension the callback never runs, so any map gets the whole shard volume. */
  lemma NoGridDims(m: AffineMap, shape: seq<int>, stride: int)
    requires NonNegative(shape)
    ensures Computed(m, shape, stride, 0) == ShardVolume(shape, 0)
  {
    assert shape[..0] == [] && shape[0..] == shape;
  }

  /** The documented column-major example: 1 is promised for it, 8 is computed. */
  lemma ColumnMajorCounterexample()
    ensures var m := [Binary(Add, Binary(Mul, Dim(1), Const(2)), Dim(0))];
      Documented(m, [2, 4], 1, 0) == 1 && Computed(m, [2, 4], 1, 0) == 8
  {
    var m := [Binary(Add, Binary(Mul, Dim(1), Const(2)), Dim(0))];
    var shape := [2, 4];
    NoGridDims(m, shape, 1);
    assert shape[..1] == [2] && [2][..0] == [] && shape[0..] == shape && shape[..0] == [];
    assert Volume(shape) == 8;
    var a := Addresses(m, [], shape);
    assert [] + Coord(0, shape) == [0, 0] && [] + Coord(1, shape) == [0, 1];
    assert Eval(m[0], [0, 0]) == 0 && Eval(m[0], [0, 1]) == 2;
    assert a[0] == [0] && a[1] == [2];
    BrokenFirstStep(m, shape, 1);
  }

  /** A shard whose second element does not follow its first has factor 1. */
  lemma BrokenFirstStep(m: AffineMap, shape: seq<int>, stride: int)
    requires Positive(shape) && 1 < Volume(shape)
    requires !Continues(Addresses(m, [], shape), stride, 1)
    ensures Documented(m, shape, stride, 0) == 1
  {
    assert shape[..0] == [] && shape[0..] == shape;
    DocumentedIsLargest(m, shape, stride, 0);
    var f := Documented(m, shape, stride, 0);
    assert InBox([], shape[..0]);
    if 1 < f { InRangeMod(1, f); assert false; }
  }

  ghost predicate DocumentationMet(m: AffineMap, shape: seq<int>, stride: int, numGridDims: nat)
    requires numGridDims <= |shape| && NonNegative(shape)
  {
    Computed(m, shape, stride, numGridDims) == Documented(m, shape, stride, numGridDims)
  }

  /** The whole box, if it has a point, lies in one piece. */
  ghost predicate WholeShardContiguous(m: AffineMap, shape: seq<int>, stride: int) {
    0 < Volume(shape) ==> ChunksContiguous(Addresses(m, [], shape), stride, Volume(shape))
  }

  /** The program meets the documentation exactly when there is a grid dimension or the whole box
      is contiguous anyway. */
  lemma DocumentationMetExactlyWhen(m: AffineMap, shape: seq<int>, stride: int, numGridDims: nat)
    requires numGridDims <= |shape| && NonNegative(shape)
    ensures DocumentationMet(m, shape, stride, numGridDims) <==>
      1 <= numGridDims || WholeShardContiguous(m, shape, stride)
  {
    if 1 <= numGridDims {
      ComputedAsDocumented(m, shape, stride, numGridDims);
    } else if Positive(shape) {
      WholeShard(m, shape, stride);
    } else {
      VolumeNonNegative(shape);
      TinyShard(m, shape, stride);
    }
  }

  lemma DivisorAtMost(d: int, a: int)
    requires 0 < d && 0 < a && Divides(d, a)
    ensures d <= a
  {
    if a < d { InRangeMod(a, d); assert false; }
  }

  lemma WholeShard(m: AffineMap, shape: seq<int>, stride: int)
    requires Positive(shape)
    ensures Computed(m, shape, stride, 0) == Documented(m, shape, stride, 0)
        <==> WholeShardContiguous(m, shape, stride)
  {
    var v, f := Volume(shape), Documented(m, shape, stride, 0);
    assert shape[..0] == [] && shape[0..] == shape;
    VolumePositive(shape);
    NoGridDims(m, shape, stride);
    DocumentedIsLargest(m, shape, stride, 0);
    DocumentedIsExact(m, shape, stride, 0, v);
    assert forall g :: InBox(g, shape[..0]) <==> g == [];
    assert Divides(v, f) ==> v <= f by { if Divides(v, f) { DivisorAtMost(v, f); } }
    DivisorAtMost(f, v);
  }

  /** For a given shape the program meets the documentation on every map and stride exactly
      when there is a grid dimension or the shard has at most one element. */
  lemma EveryMapMetExactlyWhen(shape: seq<int>, numGridDims: nat)
    requires numGridDims <= |shape| && NonNegative(shape)
    ensures (forall m: AffineMap, stride: int :: m != [] ==> DocumentationMet(m, shape, stride, numGridDims))
        <==> 1 <= numGridDims || Volume(shape) <= 1
  {
    if 1 <= numGridDims || Volume(shape) <= 1 {
      forall m: AffineMap, stride: int { MetByAny(m, shape, stride, numGridDims); }
    } else {
      ConstantMapDiffers(shape);
      assert !DocumentationMet([Const(0)], shape, 1, numGridDims);
    }
  }

  lemma MetByAny(m: AffineMap, shape: seq<int>, stride: int, numGridDims: nat)
    requires numGridDims <= |shape| && NonNegative(shape) && (1 <= numGridDims || Volume(shape) <= 1)
    ensures DocumentationMet(m, shape, stride, numGridDims)
  {
    if 1 <= numGridDims {
      ComputedAsDocumented(m, shape, stride, numGridDims);
    } else {
      TinyShard(m, shape, stride);
    }
  }

  /** A constant map is never contiguous at stride 1, whatever the program says. */
  lemma ConstantMapDiffers(shape: seq<int>)
    requires NonNegative(shape) && Volume(shape) > 1
    ensures Computed([Const(0)], shape, 1, 0) != Documented([Const(0)], shape, 1, 0)
  {
    var m := [Const(0)];
    VolumeNonNegative(shape);
    assert shape[..0] == [] && shape[0..] == shape;
    NoGridDims(m, shape, 1);
    var a := Addresses(m, [], shape);
    assert a[0] == EvalMap(m, [] + Coord(0, shape)) == [0] && a[1] == EvalMap(m, [] + Coord(1, shape)) == [0];
    BrokenFirstStep(m, shape, 1);
  }

  lemma TinyShard(m: AffineMap, shape: seq<int>, stride: int)
    requires NonNegative(shape) && Volume(shape) <= 1
    ensures Computed(m, shape, stride, 0) == Documented(m, shape, stride, 0)
  {
    VolumeNonNegative(shape);
    NoGridDims(m, shape, stride);
    assert shape[..0] == [] && shape[0..] == shape;
    if Volume(shape) == 1 {
      OneAbsorbs(AllRuns(m, GridPoints([]), shape, stride));
      if shape == [] { NoShardDims(m, shape, stride, 0); }
    } else {
      var points := GridPoints([]);
      assert points == [Coord(0, [])];
      assert points[..0] == [];
      assert AllRuns(m, points, shape, stride) == [] + RunLengths([], stride) == [];
    }
  }
}
