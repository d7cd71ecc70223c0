/** When two values of the const-eval forest share a root: when a chain of joined ops links
    them. */
module ConstEvalLinks {
  import opened Common
  import opened Ir
  import opened Rewrite
  import opened ConstEvalSubgraphs
  import opened DisjointSets
  import opened ConstEvalAnalysis

  /** What joining an op puts together: its results, and its operands but for block arguments
      and shared ops. */
  function GraphsToJoin(f: Func, op: Op): set<Value> {
    Results(op) + set v | v in op.operands && v.Res? && !SharedValue(f, v)
  }

  /** The groups put together by the first k ops. */
  function Groups(f: Func, k: nat): seq<set<Value>>
    requires k <= |f.body|
  {
    if k == 0 then []
    else if Joins(f, Found(f, k - 1), f.body[k - 1]) then Groups(f, k - 1) + [GraphsToJoin(f, f.body[k - 1])]
    else Groups(f, k - 1)
  }

  // ----- Chains -----

  ghost predicate Together(groups: seq<set<Value>>, u: Value, v: Value) {
    exists g :: g in groups && u in g && v in g
  }

  ghost predicate Chain(groups: seq<set<Value>>, path: seq<Value>) {
    path != [] && forall i :: 0 <= i < |path| - 1 ==> Together(groups, path[i], path[i + 1])
  }

  ghost predicate Joined(groups: seq<set<Value>>, path: seq<Value>, u: Value, v: Value) {
    Chain(groups, path) && path[0] == u && path[|path| - 1] == v
  }

  ghost predicate Linked(groups: seq<set<Value>>, u: Value, v: Value) {
    exists path :: Joined(groups, path, u, v)
  }

  lemma LinkedSelf(groups: seq<set<Value>>, u: Value)
    ensures Linked(groups, u, u)
  {
    assert Joined(groups, [u], u, u);
  }

  lemma LinkedStep(groups: seq<set<Value>>, u: Value, v: Value)
    requires Together(groups, u, v)
    ensures Linked(groups, u, v)
  {
    assert Joined(groups, [u, v], u, v);
  }

  lemma LinkedTwice(groups: seq<set<Value>>, u: Value, v: Value, w: Value)
    requires Linked(groups, u, v) && Linked(groups, v, w)
    ensures Linked(groups, u, w)
  {
    var a :| Joined(groups, a, u, v);
    var b :| Joined(groups, b, v, w);
    var path := a + b[1..];
    forall i | 0 <= i < |path| - 1 ensures Together(groups, path[i], path[i + 1]) {
      if i < |a| - 1 {
        assert Together(groups, a[i], a[i + 1]);
      } else {
        assert Together(groups, b[i - |a| + 1], b[i - |a| + 2]);
      }
    }
    assert Joined(groups, path, u, w);
  }

  lemma LinkedBack(groups: seq<set<Value>>, u: Value, v: Value)
    requires Linked(groups, u, v)
    ensures Linked(groups, v, u)
  {
    var a :| Joined(groups, a, u, v);
    ChainBack(groups, a);
  }

  lemma {:induction false} ChainBack(groups: seq<set<Value>>, path: seq<Value>)
    requires Chain(groups, path)
    ensures Linked(groups, path[|path| - 1], path[0])
    decreases |path|
  {
    if |path| == 1 {
      LinkedSelf(groups, path[0]);
    } else {
      var n := |path| - 1;
      ChainBack(groups, path[..n]);
      assert Together(groups, path[n - 1], path[n]);
      assert Together(groups, path[n], path[n - 1]);
      LinkedStep(groups, path[n], path[n - 1]);
      LinkedTwice(groups, path[n], path[n - 1], path[0]);
    }
  }

  lemma LinkedMore(groups: seq<set<Value>>, g: set<Value>, u: Value, v: Value)
    requires Linked(groups, u, v)
    ensures Linked(groups + [g], u, v)
  {
    var path :| Joined(groups, path, u, v);
    forall i | 0 <= i < |path| - 1 ensures Together(groups + [g], path[i], path[i + 1]) {
      assert Together(groups, path[i], path[i + 1]);
      var h :| h in groups && path[i] in h && path[i + 1] in h;
      assert h in groups + [g];
    }
    assert Joined(groups + [g], path, u, v);
  }

  // ----- Roots and chains -----

  ghost predicate OneRoot(root: map<Value, Value>, g: set<Value>) {
    g <= root.Keys && forall u, v :: u in g && v in g ==> root[u] == root[v]
  }

  /** Members of a group share their root. */
  ghost predicate Respects(groups: seq<set<Value>>, root: map<Value, Value>) {
    forall g :: g in groups ==> OneRoot(root, g)
  }

  /** Only linked values share a root. */
  ghost predicate Tight(groups: seq<set<Value>>, root: map<Value, Value>) {
    forall u, v :: u in root && v in root && root[u] == root[v] ==> Linked(groups, u, v)
  }

  lemma {:induction false} ChainOneRoot(groups: seq<set<Value>>, root: map<Value, Value>, path: seq<Value>)
    requires Respects(groups, root) && Chain(groups, path) && path[0] in root
    ensures path[|path| - 1] in root && root[path[|path| - 1]] == root[path[0]]
    decreases |path|
  {
    if |path| > 1 {
      var n := |path| - 1;
      ChainOneRoot(groups, root, path[..n]);
      assert Together(groups, path[n - 1], path[n]);
      var g :| g in groups && path[n - 1] in g && path[n] in g;
      assert OneRoot(root, g);
    }
  }

  /** Two values share a root exactly when a chain links them. */
  lemma SameRootExactlyWhenLinked(groups: seq<set<Value>>, root: map<Value, Value>, u: Value, v: Value)
    requires Respects(groups, root) && Tight(groups, root) && u in root && v in root
    ensures root[u] == root[v] <==> Linked(groups, u, v)
  {
    if path :| Joined(groups, path, u, v) { ChainOneRoot(groups, root, path); }
  }

  lemma MergeRespects(groups: seq<set<Value>>, root: map<Value, Value>, x: Value, y: Value)
    requires Respects(groups, root) && x in root && y in root
    ensures Respects(groups, Merged(root, x, y))
  {
    forall g | g in groups ensures OneRoot(Merged(root, x, y), g) { assert OneRoot(root, g); }
  }

  lemma MergeTight(groups: seq<set<Value>>, root: map<Value, Value>, x: Value, y: Value)
    requires Tight(groups, root) && x in root && y in root && Together(groups, x, y)
    ensures Tight(groups, Merged(root, x, y))
  {
    var merged := Merged(root, x, y);
    LinkedStep(groups, x, y);
    LinkedBack(groups, x, y);
    forall u, v | u in merged && v in merged && merged[u] == merged[v] ensures Linked(groups, u, v) {
      MergeLinks(groups, root, x, y, u, v);
    }
  }

  lemma MergeLinks(groups: seq<set<Value>>, root: map<Value, Value>, x: Value, y: Value, u: Value, v: Value)
    requires Tight(groups, root) && x in root && y in root && Linked(groups, x, y) && Linked(groups, y, x)
    requires u in root && v in root && Merged(root, x, y)[u] == Merged(root, x, y)[v]
    ensures Linked(groups, u, v)
  {
    MergedClasses(root, x, y, u, v);
    if root[u] == root[v] {
    } else if root[u] == root[x] {
      LinkedTwice(groups, u, x, y);
      LinkedTwice(groups, u, y, v);
    } else {
      LinkedTwice(groups, u, y, x);
      LinkedTwice(groups, u, x, v);
    }
  }

  lemma InitRespects(groups: seq<set<Value>>, root: map<Value, Value>, v: Value)
    requires Respects(groups, root) && v !in root
    ensures Respects(groups, root[v := v])
  {
    forall g | g in groups ensures OneRoot(root[v := v], g) { assert OneRoot(root, g); }
  }

  lemma InitTight(groups: seq<set<Value>>, root: map<Value, Value>, v: Value)
    requires Tight(groups, root) && v !in root && forall u :: u in root ==> root[u] in root
    ensures Tight(groups, root[v := v])
  {
    LinkedSelf(groups, v);
    var root' := root[v := v];
    forall a, b | a in root' && b in root' && root'[a] == root'[b] ensures Linked(groups, a, b) {
      if a != v && b != v { assert root[a] == root[b]; }
    }
  }

  lemma TightMore(groups: seq<set<Value>>, root: map<Value, Value>, g: set<Value>)
    requires Tight(groups, root)
    ensures Tight(groups + [g], root)
  {
    forall u, v | u in root && v in root && root[u] == root[v] ensures Linked(groups + [g], u, v) {
      LinkedMore(groups, g, u, v);
    }
  }

  // ----- Joining one op -----

  ghost predicate Partition(groups: seq<set<Value>>, root: map<Value, Value>) {
    Respects(groups, root) && Tight(groups, root)
  }

  /** Every result of an op starts a class of its own. */
  method InitResults(dsu: DisjointSetUnion<Value>, op: Op, ghost groups: seq<set<Value>>)
    requires dsu.Valid() && Partition(groups, dsu.root) && Results(op) !! dsu.root.Keys
    modifies dsu
    ensures dsu.Valid() && Partition(groups, dsu.root) && dsu.root.Keys == old(dsu.root.Keys) + Results(op)
  {
    for i := 0 to op.numResults
      invariant dsu.Valid() && Partition(groups, dsu.root)
      invariant dsu.root.Keys == old(dsu.root.Keys) + set v | v in Results(op) && v.index < i
    {
      ghost var root := dsu.root;
      var result := Res(op.id, i);
      RootsInForest(dsu.parent, dsu.root, dsu.height);
      InitRespects(groups, root, result);
      InitTight(groups, root, result);
      dsu.Init(result);
    }
    assert Results(op) == set v | v in Results(op) && v.index < op.numResults;
  }

  lemma RootsInForest(parent: map<Value, Value>, root: map<Value, Value>, height: map<Value, nat>)
    requires Forest(parent, root, height)
    ensures forall u :: u in root ==> root[u] in root
  {
    forall u | u in root ensures root[u] in root { assert DisjointSets.LeadsToRoot(parent, root, height, u); }
  }

  /** All the given values end up in one class, linked by their group. */
  method UnionAll(dsu: DisjointSetUnion<Value>, graphsToJoin: seq<Value>, ghost groups: seq<set<Value>>)
    requires dsu.Valid() && Partition(groups, dsu.root) && ToSet(graphsToJoin) <= dsu.root.Keys
    modifies dsu
    ensures dsu.Valid() && Partition(groups + [ToSet(graphsToJoin)], dsu.root) && dsu.root.Keys == old(dsu.root.Keys)
  {
    ghost var g := ToSet(graphsToJoin);
    TightMore(groups, dsu.root, g);
    if graphsToJoin != [] {
      var first := graphsToJoin[0];
      for i := 1 to |graphsToJoin|
        invariant dsu.Valid() && dsu.root.Keys == old(dsu.root.Keys)
        invariant Respects(groups, dsu.root) && Tight(groups + [g], dsu.root)
        invariant SameRoots(dsu.root, graphsToJoin, i)
      {
        ghost var root := dsu.root;
        assert first in g && graphsToJoin[i] in g && g in groups + [g];
        assert Together(groups + [g], first, graphsToJoin[i]);
        MergeRespects(groups, root, first, graphsToJoin[i]);
        MergeTight(groups + [g], root, first, graphsToJoin[i]);
        MergeSameRoots(root, graphsToJoin, i);
        var _ := dsu.UnionSets(first, graphsToJoin[i]);
      }
      AllOneRoot(dsu.root, graphsToJoin);
    }
    RespectsMore(groups, dsu.root, g);
  }

  ghost predicate SameRoots(root: map<Value, Value>, vs: seq<Value>, n: nat)
    requires n <= |vs| && ToSet(vs) <= root.Keys
  {
    forall j :: 0 <= j < n ==> root[vs[j]] == root[vs[0]]
  }

  lemma MergeSameRoots(root: map<Value, Value>, vs: seq<Value>, n: nat)
    requires 0 < n < |vs| && ToSet(vs) <= root.Keys && SameRoots(root, vs, n)
    ensures SameRoots(Merged(root, vs[0], vs[n]), vs, n + 1)
  {
  }

  lemma AllOneRoot(root: map<Value, Value>, vs: seq<Value>)
    requires vs != [] && ToSet(vs) <= root.Keys && SameRoots(root, vs, |vs|)
    ensures OneRoot(root, ToSet(vs))
  {
    forall v | v in ToSet(vs) ensures root[v] == root[vs[0]] {
      var j :| 0 <= j < |vs| && vs[j] == v;
    }
  }

  lemma RespectsMore(groups: seq<set<Value>>, root: map<Value, Value>, g: set<Value>)
    requires Respects(groups, root) && OneRoot(root, g)
    ensures Respects(groups + [g], root)
  {
  }
}
