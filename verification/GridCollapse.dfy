/** Collapsing an N-dimensional grid onto a two-dimensional one (createNDGridCollapseMap). */
module GridCollapse {
  import opened Arith
  import opened Shapes
  import opened Affine

  /** The physical grid point of a grid point: the same row-major index, wrapped. */
  function Collapsed(grid: seq<int>, phys: seq<int>, g: seq<int>): (p: seq<int>)
    requires |g| == |grid| && Positive(phys)
    ensures |p| == |phys|
  {
    Coord(Flat(g, grid), phys)
  }

  // ----- When the collapse loses nothing -----

  ghost predicate InjectiveOnGrid(grid: seq<int>, phys: seq<int>)
    requires Positive(phys)
  {
    forall a, b :: InBox(a, grid) && InBox(b, grid) && Collapsed(grid, phys, a) == Collapsed(grid, phys, b) ==> a == b
  }

  ghost predicate OntoPhysical(grid: seq<int>, phys: seq<int>)
    requires Positive(phys)
  {
    forall p :: InBox(p, phys) ==> exists g :: InBox(g, grid) && Collapsed(grid, phys, g) == p
  }

  /** No two grid points meet exactly when the grid is no larger than the physical grid. */
  lemma GridInjectiveExactlyWhen(grid: seq<int>, phys: seq<int>)
    requires Positive(grid) && Positive(phys)
    ensures InjectiveOnGrid(grid, phys) <==> Volume(grid) <= Volume(phys)
  {
    VolumePositive(phys);
    if Volume(grid) <= Volume(phys) {
      forall a, b | InBox(a, grid) && InBox(b, grid) && Collapsed(grid, phys, a) == Collapsed(grid, phys, b)
        ensures a == b
      {
        SameIndex(grid, phys, a);
        SameIndex(grid, phys, b);
        FlatInjective(a, b, grid);
      }
    } else {
      var a, b := Coord(0, grid), Coord(Volume(phys), grid);
      IndexedPoint(grid, phys, 0);
      IndexedPoint(grid, phys, Volume(phys));
      DivModUnique(Volume(phys), Volume(phys), 1, 0);
      InRangeMod(0, Volume(phys));
      FlatOfCoord(0, phys);
      FlatOfCoord(Volume(phys), phys);
      FlatInjective(Coord(0, phys), Coord(Volume(phys), phys), phys);
      assert Flat(a, grid) != Flat(b, grid);
    }
  }

  /** Every physical point is used exactly when the grid is no smaller. */
  lemma GridOntoExactlyWhen(grid: seq<int>, phys: seq<int>)
    requires Positive(grid) && Positive(phys)
    ensures OntoPhysical(grid, phys) <==> Volume(phys) <= Volume(grid)
  {
    VolumePositive(phys);
    if Volume(phys) <= Volume(grid) {
      forall p | InBox(p, phys) ensures exists g :: InBox(g, grid) && Collapsed(grid, phys, g) == p {
        FlatInRange(p, phys);
        CoordOfFlat(p, phys);
        IndexedPoint(grid, phys, Flat(p, phys));
      }
    } else {
      var last := Volume(phys) - 1;
      FlatOfCoord(last, phys);
      InRangeMod(last, Volume(phys));
      forall g | InBox(g, grid) ensures Collapsed(grid, phys, g) != Coord(last, phys) {
        SameIndex(grid, phys, g);
        FlatInRange(g, grid);
      }
    }
  }

  lemma SameIndex(grid: seq<int>, phys: seq<int>, g: seq<int>)
    requires Positive(grid) && Positive(phys) && Volume(grid) <= Volume(phys) && InBox(g, grid)
    ensures Flat(Collapsed(grid, phys, g), phys) == Flat(g, grid)
  {
    FlatInRange(g, grid);
    FlatOfCoord(Flat(g, grid), phys);
    InRangeMod(Flat(g, grid), Volume(phys));
  }

  lemma IndexedPoint(grid: seq<int>, phys: seq<int>, i: int)
    requires Positive(grid) && Positive(phys) && 0 <= i < Volume(grid)
    ensures InBox(Coord(i, grid), grid) && Flat(Coord(i, grid), grid) == i
    ensures Collapsed(grid, phys, Coord(i, grid)) == Coord(i, phys)
  {
    FlatOfCoord(i, grid);
    InRangeMod(i, Volume(grid));
  }

  // ----- The map the program builds -----

  ghost predicate LinearFrom(e: Expr, grid: seq<int>, j: nat, n: nat)
    requires j <= |grid| <= n
  {
    && UsesDims(e, n)
    && forall c: seq<int> :: |c| == n ==> Eval(e, c) == Flat(c[j..|grid|], grid[j..])
  }

  lemma LinearStep(e: Expr, grid: seq<int>, j: nat, n: nat, stride: int)
    requires j < |grid| <= n && LinearFrom(e, grid, j + 1, n) && stride == Volume(grid[j + 1..])
    ensures LinearFrom(Binary(Add, e, Binary(Mul, Dim(j), Const(stride))), grid, j, n)
    ensures stride * grid[j] == Volume(grid[j..])
  {
    var e' := Binary(Add, e, Binary(Mul, Dim(j), Const(stride)));
    FlatSplit(grid, grid, j);
    assert UsesDims(Dim(j), n) && UsesDims(Const(stride), n);
    assert UsesDims(Binary(Mul, Dim(j), Const(stride)), n);
    forall c: seq<int> | |c| == n ensures Eval(e', c) == Flat(c[j..|grid|], grid[j..]) {
      FlatSplit(c[..|grid|], grid, j);
      assert c[..|grid|][j..] == c[j..|grid|] && c[..|grid|][j + 1..] == c[j + 1..|grid|];
      assert Eval(Binary(Mul, Dim(j), Const(stride)), c) == c[j] * stride;
    }
  }

  /** The map collapses the grid coordinates and passes the shard coordinates through. */
  ghost predicate IsCollapseMap(m: AffineMap, grid: seq<int>, phys: seq<int>, shardRank: nat)
    requires Positive(phys)
  {
    && |m| == |phys| + shardRank && (forall k :: 0 <= k < |m| ==> UsesDims(m[k], |grid| + shardRank))
    && forall c: seq<int> :: |c| == |grid| + shardRank ==>
         EvalMap(m, c) == Collapsed(grid, phys, c[..|grid|]) + c[|grid|..]
  }

  /** The physical point met by a grid point has its row-major index, wrapped at the volume of the
      physical grid. */
  lemma CollapseKeepsIndex(m: AffineMap, grid: seq<int>, phys: seq<int>, shardRank: nat, c: seq<int>)
    requires |phys| == 2 && Positive(phys) && IsCollapseMap(m, grid, phys, shardRank)
    requires |c| == |grid| + shardRank
    ensures var p := EvalMap(m, c);
      && |p| == 2 + shardRank && 0 <= p[0] < phys[0] && 0 <= p[1] < phys[1] && p[2..] == c[|grid|..]
      && p[0] * phys[1] + p[1] == Flat(c[..|grid|], grid) % (phys[0] * phys[1])
  {
    var p := EvalMap(m, c);
    var g := p[..2];
    FlatOfCoord(Flat(c[..|grid|], grid), phys);
    FlatOfPair(g, phys);
  }

  lemma FlatOfPair(p: seq<int>, phys: seq<int>)
    requires |p| == |phys| == 2
    ensures Flat(p, phys) == p[0] * phys[1] + p[1] && Volume(phys) == phys[0] * phys[1]
  {
    FlatOfOne(p[..1], phys[..1]);
  }

  lemma FlatOfOne(c: seq<int>, shape: seq<int>)
    requires |c| == |shape| == 1
    ensures Flat(c, shape) == c[0] && Volume(shape) == shape[0]
  {
    assert c[..0] == [] && shape[..0] == [];
  }

  /** Every point of the physical grid with its shards is hit. */
  ghost predicate MapsOnto(m: AffineMap, from: seq<int>, to: seq<int>) {
    forall p :: InBox(p, to) ==> exists c :: InBox(c, from) && EvalMap(m, c) == p
  }

  ghost predicate MapsApart(m: AffineMap, from: seq<int>) {
    forall a, b :: InBox(a, from) && InBox(b, from) && EvalMap(m, a) == EvalMap(m, b) ==> a == b
  }

  lemma BoxSplit(c: seq<int>, grid: seq<int>, shard: seq<int>)
    requires |c| == |grid| + |shard|
    ensures InBox(c, grid + shard) <==> InBox(c[..|grid|], grid) && InBox(c[|grid|..], shard)
  {
    var g, s := c[..|grid|], c[|grid|..];
    assert c == g + s;
    if InBox(g, grid) && InBox(s, shard) {
      forall i | 0 <= i < |c| ensures 0 <= c[i] < (grid + shard)[i] {
        if i >= |grid| { assert s[i - |grid|] == c[i]; }
      }
    }
    if InBox(c, grid + shard) {
      forall i | 0 <= i < |grid| ensures 0 <= g[i] < grid[i] { assert c[i] == g[i] && (grid + shard)[i] == grid[i]; }
      forall i | 0 <= i < |shard| ensures 0 <= s[i] < shard[i] {
        assert c[|grid| + i] == s[i] && (grid + shard)[|grid| + i] == shard[i];
      }
    }
  }

  /** No two device points meet, shards included, exactly when the grid is no larger than the
      physical grid. */
  lemma InjectiveExactlyWhen(m: AffineMap, grid: seq<int>, phys: seq<int>, shard: seq<int>)
    requires Positive(grid) && Positive(phys) && Positive(shard) && IsCollapseMap(m, grid, phys, |shard|)
    ensures MapsApart(m, grid + shard) <==> Volume(grid) <= Volume(phys)
  {
    GridInjectiveExactlyWhen(grid, phys);
    if InjectiveOnGrid(grid, phys) {
      forall a, b | InBox(a, grid + shard) && InBox(b, grid + shard) && EvalMap(m, a) == EvalMap(m, b) ensures a == b {
        BoxSplit(a, grid, shard);
        BoxSplit(b, grid, shard);
        SameParts(a, b, grid, phys);
      }
    }
    if MapsApart(m, grid + shard) { ApartOnGrid(m, grid, phys, shard); }
  }

  lemma SameParts(a: seq<int>, b: seq<int>, grid: seq<int>, phys: seq<int>)
    requires Positive(phys) && |a| == |b| >= |grid| && InjectiveOnGrid(grid, phys)
    requires InBox(a[..|grid|], grid) && InBox(b[..|grid|], grid)
    requires Collapsed(grid, phys, a[..|grid|]) + a[|grid|..] == Collapsed(grid, phys, b[..|grid|]) + b[|grid|..]
    ensures a == b
  {
    var p, q := Collapsed(grid, phys, a[..|grid|]), Collapsed(grid, phys, b[..|grid|]);
    assert (p + a[|grid|..])[..|phys|] == p && (q + b[|grid|..])[..|phys|] == q;
    assert (p + a[|grid|..])[|phys|..] == a[|grid|..] && (q + b[|grid|..])[|phys|..] == b[|grid|..];
    assert a == a[..|grid|] + a[|grid|..] && b == b[..|grid|] + b[|grid|..];
  }

  /** Grid points that meet would meet with any shard coordinates. */
  lemma ApartOnGrid(m: AffineMap, grid: seq<int>, phys: seq<int>, shard: seq<int>)
    requires Positive(grid) && Positive(phys) && Positive(shard) && IsCollapseMap(m, grid, phys, |shard|)
    requires MapsApart(m, grid + shard)
    ensures InjectiveOnGrid(grid, phys)
  {
    var zeros := Zeros(|shard|);
    forall a, b | InBox(a, grid) && InBox(b, grid) && Collapsed(grid, phys, a) == Collapsed(grid, phys, b)
      ensures a == b
    {
      var x, y := a + zeros, b + zeros;
      assert x[..|grid|] == a && x[|grid|..] == zeros && y[..|grid|] == b && y[|grid|..] == zeros;
      BoxSplit(x, grid, shard);
      BoxSplit(y, grid, shard);
      assert EvalMap(m, x) == EvalMap(m, y);
    }
  }

  /** Every physical point and shard coordinate is hit exactly when the grid is no smaller. */
  lemma OntoExactlyWhen(m: AffineMap, grid: seq<int>, phys: seq<int>, shard: seq<int>)
    requires Positive(grid) && Positive(phys) && Positive(shard) && IsCollapseMap(m, grid, phys, |shard|)
    ensures MapsOnto(m, grid + shard, phys + shard) <==> Volume(phys) <= Volume(grid)
  {
    GridOntoExactlyWhen(grid, phys);
    if OntoPhysical(grid, phys) {
      forall p | InBox(p, phys + shard) ensures exists c :: InBox(c, grid + shard) && EvalMap(m, c) == p {
        var c := Preimage(m, grid, phys, shard, p);
      }
    }
    if MapsOnto(m, grid + shard, phys + shard) {
      forall p | InBox(p, phys) ensures exists g :: InBox(g, grid) && Collapsed(grid, phys, g) == p {
        var c := HitWithShard(m, grid, phys, shard, p);
      }
    }
  }

  lemma Preimage(m: AffineMap, grid: seq<int>, phys: seq<int>, shard: seq<int>, p: seq<int>) returns (c: seq<int>)
    requires Positive(phys) && IsCollapseMap(m, grid, phys, |shard|) && OntoPhysical(grid, phys)
    requires InBox(p, phys + shard)
    ensures InBox(c, grid + shard) && EvalMap(m, c) == p
  {
    BoxSplit(p, phys, shard);
    var g :| InBox(g, grid) && Collapsed(grid, phys, g) == p[..|phys|];
    c := g + p[|phys|..];
    assert c[..|grid|] == g && c[|grid|..] == p[|phys|..] && p == p[..|phys|] + p[|phys|..];
    BoxSplit(c, grid, shard);
  }

  lemma HitWithShard(m: AffineMap, grid: seq<int>, phys: seq<int>, shard: seq<int>, p: seq<int>) returns (c: seq<int>)
    requires Positive(phys) && Positive(shard) && IsCollapseMap(m, grid, phys, |shard|)
    requires MapsOnto(m, grid + shard, phys + shard) && InBox(p, phys)
    ensures |c| >= |grid| && InBox(c[..|grid|], grid) && Collapsed(grid, phys, c[..|grid|]) == p
  {
    var zeros := Zeros(|shard|);
    var x := p + zeros;
    assert x[..|phys|] == p && x[|phys|..] == zeros;
    BoxSplit(x, phys, shard);
    c :| InBox(c, grid + shard) && EvalMap(m, c) == x;
    BoxSplit(c, grid, shard);
    assert (Collapsed(grid, phys, c[..|grid|]) + c[|grid|..])[..|phys|] == Collapsed(grid, phys, c[..|grid|]);
  }

  method LinearizeGrid(gridShape: seq<int>, ghost n: nat) returns (linearExpr: Expr)
    requires |gridShape| <= n
    ensures LinearFrom(linearExpr, gridShape, 0, n)
  {
    linearExpr := Const(0);
    var stride := 1;
    var i := |gridShape|;
    assert gridShape[i..] == [];
    while i > 0
      invariant 0 <= i <= |gridShape|
      invariant stride == Volume(gridShape[i..])
      invariant LinearFrom(linearExpr, gridShape, i, n)
    {
      i := i - 1;
      LinearStep(linearExpr, gridShape, i, n, stride);
      linearExpr := Binary(Add, linearExpr, Binary(Mul, Dim(i), Const(stride)));
      stride := stride * gridShape[i];
    }
  }

  method CreateNDGridCollapseMap(gridShape: seq<int>, physGrid: seq<int>, shardRank: nat) returns (m: AffineMap)
    requires |physGrid| == 2 && Positive(physGrid)
    ensures IsCollapseMap(m, gridShape, physGrid, shardRank)
  {
    var gridRank := |gridShape|;
    var linearExpr := LinearizeGrid(gridShape, gridRank + shardRank);
    m := ExpandLinear(linearExpr, physGrid);
    var i := 0;
    while i < shardRank
      invariant 0 <= i <= shardRank
      invariant |m| == 2 + i
      invariant m[0] == ExpandTerm(linearExpr, physGrid[1], physGrid[0])
      invariant m[1] == ExpandTerm(linearExpr, 1, physGrid[1])
      invariant forall k :: 2 <= k < |m| ==> m[k] == Dim(gridRank + k - 2)
    {
      m := m + [Dim(gridRank + i)];
      i := i + 1;
    }
    ResultsCollapse(m, linearExpr, gridShape, physGrid, shardRank);
  }

  lemma ResultsCollapse(m: AffineMap, linear: Expr, grid: seq<int>, phys: seq<int>, shardRank: nat)
    requires |phys| == 2 && Positive(phys) && |m| == 2 + shardRank && LinearFrom(linear, grid, 0, |grid| + shardRank)
    requires m[0] == ExpandTerm(linear, phys[1], phys[0]) && m[1] == ExpandTerm(linear, 1, phys[1])
    requires forall k :: 2 <= k < |m| ==> m[k] == Dim(|grid| + k - 2)
    ensures IsCollapseMap(m, grid, phys, shardRank)
  {
    var n := |grid| + shardRank;
    ExpandUsesDims(linear, phys[1], phys[0], n);
    ExpandUsesDims(linear, 1, phys[1], n);
    forall c: seq<int> | |c| == n
      ensures EvalMap(m, c) == Collapsed(grid, phys, c[..|grid|]) + c[|grid|..]
    {
      assert c[0..|grid|] == c[..|grid|] && grid[0..] == grid;
      ExpandTerms(linear, phys, c);
    }
  }

  /** Row, then column, of a linear index. */
  method ExpandLinear(linearExpr: Expr, physGrid: seq<int>) returns (results: seq<Expr>)
    requires |physGrid| == 2
    ensures results == [ExpandTerm(linearExpr, physGrid[1], physGrid[0]), ExpandTerm(linearExpr, 1, physGrid[1])]
  {
    results := [];
    var divisor := 1;
    var dim := 1;
    while dim >= 0
      invariant -1 <= dim <= 1
      invariant dim == 1 ==> results == [] && divisor == 1
      invariant dim == 0 ==> results == [ExpandTerm(linearExpr, 1, physGrid[1])] && divisor == physGrid[1]
      invariant dim == -1 ==>
        results == [ExpandTerm(linearExpr, physGrid[1], physGrid[0]), ExpandTerm(linearExpr, 1, physGrid[1])]
    {
      results := [ExpandTerm(linearExpr, divisor, physGrid[dim])] + results;
      divisor := divisor * physGrid[dim];
      dim := dim - 1;
    }
  }

  function ExpandTerm(linear: Expr, divisor: int, size: int): Expr {
    Binary(Mod, Binary(FloorDiv, linear, Const(divisor)), Const(size))
  }

  lemma ExpandUsesDims(linear: Expr, divisor: int, size: int, n: nat)
    requires UsesDims(linear, n)
    ensures UsesDims(ExpandTerm(linear, divisor, size), n)
  {
    var quotient := Binary(FloorDiv, linear, Const(divisor));
    assert UsesDims(Const(divisor), n) && UsesDims(Const(size), n);
    assert UsesDims(quotient, n);
  }

  lemma ExpandTerms(linear: Expr, phys: seq<int>, c: seq<int>)
    requires |phys| == 2 && Positive(phys)
    ensures Coord(Eval(linear, c), phys) ==
      [Eval(ExpandTerm(linear, phys[1], phys[0]), c), Eval(ExpandTerm(linear, 1, phys[1]), c)]
  {
    var f := Eval(linear, c);
    ExpandTermValue(linear, phys[1], phys[0], c);
    ExpandTermValue(linear, 1, phys[1], c);
    assert f / 1 == f;
    assert phys[..1] == [phys[0]] && [phys[0]][..0] == [];
    assert Coord(f / phys[1], [phys[0]]) == [] + [(f / phys[1]) % phys[0]];
  }

  lemma ExpandTermValue(linear: Expr, divisor: int, size: int, c: seq<int>)
    requires 0 < divisor && 0 < size
    ensures Eval(ExpandTerm(linear, divisor, size), c) == (Eval(linear, c) / divisor) % size
  {
    PositiveDivisor(Eval(linear, c), divisor);
    PositiveDivisor(Eval(linear, c) / divisor, size);
    assert Eval(Binary(FloorDiv, linear, Const(divisor)), c) == Eval(linear, c) / divisor;
  }
}
