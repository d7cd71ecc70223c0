/** The analyzer: one forward pass fills the forest, a second one collects the subgraphs
    (ConstEvalAnalyze). */
module ConstEvalAnalyzer {
  import opened Common
  import opened Ir
  import opened Rewrite
  import opened ConstEvalSubgraphs
  import opened DisjointSets
  import opened ConstEvalAnalysis
  import opened ConstEvalLinks

  /** What the forest knows after the first k ops: exactly the values found, in one class
      exactly when linked. */
  ghost predicate Analyzed(f: Func, k: nat, root: map<Value, Value>)
    requires k <= |f.body|
  {
    root.Keys == Found(f, k) && Partition(Groups(f, k), root)
  }

  ghost predicate Failed(f: Func, k: nat)
    requires k <= |f.body|
  {
    exists j :: 0 <= j < k && FailsAt(f, j)
  }

  lemma FailedStep(f: Func, k: nat)
    requires k < |f.body|
    ensures Failed(f, k + 1) <==> Failed(f, k) || FailsAt(f, k)
  {
    if Failed(f, k) {
      var j :| 0 <= j < k && FailsAt(f, j);
    }
  }

  method IsResultWrittenInPlace(f: Func, op: Op) returns (written: bool)
    ensures written <==> WrittenInPlace(f, op)
  {
    for i := 0 to op.numResults
      invariant forall r, user :: 0 <= r < i && user in f.body ==> !WritesTo(user, Res(op.id, r))
    {
      for k := 0 to |f.body|
        invariant forall user :: user in f.body[..k] ==> !WritesTo(user, Res(op.id, i))
      {
        var user := f.body[k];
        if WritesTo(user, Res(op.id, i)) {
          assert user in f.body;
          return true;
        }
      }
      assert f.body[..|f.body|] == f.body;
    }
    return false;
  }

  method ResidesInL1(op: Op) returns (anyResultInL1: bool)
    ensures anyResultInL1 <==> AnyResultInL1(op)
  {
    anyResultInL1 := false;
    for i := 0 to op.numResults
      invariant !anyResultInL1 && forall j :: 0 <= j < i ==> j !in op.resident
    {
      if i in op.resident {
        anyResultInL1 := true;
        break;
      }
    }
  }

  lemma ResultsAreNew(f: Func, k: nat)
    requires WellFormed(f) && k < |f.body|
    ensures Results(f.body[k]) !! Found(f, k)
  {
    FoundDefined(f, k);
    PrefixUnique(f.body, k);
  }

  /** The operands to join are values found before. */
  lemma OperandsFound(f: Func, k: nat, v: Value)
    requires k < |f.body| && CallsTakeArgs(f.body) && Candidate(f, Found(f, k), f.body[k])
    requires v in f.body[k].operands && v.Res? && !SharedValue(f, v)
    ensures v in Found(f, k)
  {
    assert f.body[k] in f.body;
    assert OperandConstEval(f, Found(f, k), v);
  }

  method CollectGraphsToJoin(f: Func, k: nat) returns (graphsToJoin: seq<Value>)
    requires k < |f.body|
    ensures ToSet(graphsToJoin) == GraphsToJoin(f, f.body[k])
  {
    var op := f.body[k];
    graphsToJoin := [];
    for i := 0 to |op.operands|
      invariant forall v :: v in graphsToJoin <==> v in op.operands[..i] && v.Res? && !SharedValue(f, v)
    {
      var operand := op.operands[i];
      if operand.Arg? { continue; }
      if SharedValue(f, operand) { continue; }
      graphsToJoin := graphsToJoin + [operand];
    }
    assert op.operands[..|op.operands|] == op.operands;
    graphsToJoin := PushResults(op, graphsToJoin);
  }

  method PushResults(op: Op, some: seq<Value>) returns (all: seq<Value>)
    ensures ToSet(all) == ToSet(some) + Results(op)
  {
    all := some;
    for i := 0 to op.numResults
      invariant forall v :: v in all <==> v in some || (v in Results(op) && v.index < i)
    {
      all := all + [Res(op.id, i)];
    }
  }

  method JoinOp(dsu: DisjointSetUnion<Value>, f: Func, k: nat)
    requires WellFormed(f) && CallsTakeArgs(f.body) && k < |f.body| && Joins(f, Found(f, k), f.body[k])
    requires dsu.Valid() && Analyzed(f, k, dsu.root)
    modifies dsu
    ensures dsu.Valid() && Analyzed(f, k + 1, dsu.root)
  {
    var op := f.body[k];
    ResultsAreNew(f, k);
    InitResults(dsu, op, Groups(f, k));
    var graphsToJoin := CollectGraphsToJoin(f, k);
    forall v | v in ToSet(graphsToJoin) ensures v in dsu.root {
      if v !in Results(op) { OperandsFound(f, k, v); }
    }
    UnionAll(dsu, graphsToJoin, Groups(f, k));
  }

  method AllOperandsConstEval(dsu: DisjointSetUnion<Value>, f: Func, op: Op) returns (all: bool)
    requires dsu.Valid()
    ensures all <==> forall v :: v in op.operands ==> OperandConstEval(f, dsu.root.Keys, v)
  {
    for i := 0 to |op.operands|
      invariant forall v :: v in op.operands[..i] ==> OperandConstEval(f, dsu.root.Keys, v)
    {
      var operand := op.operands[i];
      var ok :=
        if operand.Arg? then operand.id in f.constParams
        else SharedValue(f, operand) || dsu.ValueExists(operand);
      if !ok {
        assert operand in op.operands;
        return false;
      }
    }
    assert op.operands[..|op.operands|] == op.operands;
    return true;
  }

  /** Calls may use what they like, other ops only what is const. */
  ghost predicate UsesConsts(f: Func, found: set<Value>, op: Op) {
    op.kind.LoadCached? || forall v :: v in op.operands ==> OperandConstEval(f, found, v)
  }

  class ConstEvalAnalyze {
    const f: Func
    const dsu: DisjointSetUnion<Value>
    var sharedOps: seq<Op>
    var analysisFailed: bool

    ghost predicate After(k: nat)
      reads this, dsu
      requires k <= |f.body|
    {
      && dsu.Valid() && Analyzed(f, k, dsu.root)
      && sharedOps == Only(f.body[..k], SharedIds(f.body))
      && (analysisFailed <==> Failed(f, k))
    }

    ghost predicate Done()
      reads this, dsu
    {
      After(|f.body|)
    }

    constructor (f: Func)
      requires WellFormed(f) && CallsTakeArgs(f.body)
      ensures Done() && this.f == f && fresh(dsu)
    {
      this.f := f;
      var forest := new DisjointSetUnion<Value>();
      dsu, sharedOps, analysisFailed := forest, [], false;
      new;
      BuildConstEvalSubgraphs();
    }

    method BuildConstEvalSubgraphs()
      requires WellFormed(f) && CallsTakeArgs(f.body) && After(0)
      modifies this, dsu
      ensures Done()
    {
      for k := 0 to |f.body|
        invariant After(k)
      {
        ProcessOp(k);
      }
    }

    method ProcessOp(k: nat)
      requires WellFormed(f) && CallsTakeArgs(f.body) && k < |f.body| && After(k)
      modifies this, dsu
      ensures After(k + 1)
    {
      var op := f.body[k];
      FailedStep(f, k);
      SharedSoFar(f.body, k);
      if op.shared {
        sharedOps := sharedOps + [op];
        return;
      }
      var joins := IsCandidate(k);
      if !joins { return; }
      var anyResultInL1 := ResidesInL1(op);
      if anyResultInL1 && !op.tagged {
        analysisFailed := true;
        return;
      }
      JoinOp(dsu, f, k);
    }

    method IsCandidate(k: nat) returns (candidate: bool)
      requires k < |f.body| && After(k) && !f.body[k].shared
      ensures candidate <==> Candidate(f, Found(f, k), f.body[k])
      ensures candidate <==>
        !f.body[k].nonCacheable && !WrittenInPlace(f, f.body[k]) && UsesConsts(f, dsu.root.Keys, f.body[k])
    {
      var op := f.body[k];
      if op.nonCacheable { return false; }
      var written := IsResultWrittenInPlace(f, op);
      if written { return false; }
      if op.kind.LoadCached? { return true; }
      candidate := AllOperandsConstEval(dsu, f, op);
    }

    /** The subgraphs found, in any order, and the shared ops. */
    method GetAnalysisResults() returns (subgraphs: seq<Subgraph>, shared: seq<Op>, ghost roots: seq<Value>)
      requires Done() && WellFormed(f) && CallsTakeConsts(f)
      modifies dsu
      ensures Done() && dsu.root == old(dsu.root)
      ensures Listed(f, dsu.root, roots, subgraphs) && |subgraphs| <= |f.body|
      ensures shared == SharedOps(f.body)
    {
      ghost var numbered, rootToId;
      var idToSubgraph;
      ArgumentsAreConst(f, dsu.root);
      numbered, rootToId, idToSubgraph := CollectSubgraphs(dsu, f);
      ghost var order: seq<nat>;
      subgraphs, order := InAnyOrder(idToSubgraph);
      TableSize(|numbered|, idToSubgraph);
      assert f.body[..|f.body|] == f.body;
      shared := sharedOps;
      roots := Reordered(f, dsu.root, numbered, rootToId, idToSubgraph, order, subgraphs);
    }
  }

  method CollectSubgraphs(dsu: DisjointSetUnion<Value>, f: Func)
    returns (ghost roots: seq<Value>, ghost rootToId: map<Value, nat>, idToSubgraph: map<nat, Subgraph>)
    requires dsu.Valid() && MembersTakeConsts(f, dsu.root)
    modifies dsu
    ensures dsu.Valid() && dsu.root == old(dsu.root)
    ensures Collected(f, |f.body|, dsu.root, roots, rootToId, idToSubgraph) && |roots| <= |f.body|
    ensures AllInhabited(f, dsu.root, roots)
  {
    ghost var forest := dsu.root;
    var ids: map<Value, nat> := map[];
    roots, idToSubgraph := [], map[];
    NothingYet(f, forest);
    for k := 0 to |f.body|
      invariant dsu.Valid() && dsu.root == forest
      invariant Collected(f, k, forest, roots, ids, idToSubgraph) && |roots| <= k && AllInhabited(f, forest, roots)
    {
      roots, ids, idToSubgraph := CollectOp(dsu, f, k, forest, roots, ids, idToSubgraph);
    }
    rootToId := ids;
  }

  method CollectOp(dsu: DisjointSetUnion<Value>, f: Func, k: nat, ghost forest: map<Value, Value>,
                   ghost roots: seq<Value>,
                   rootToId: map<Value, nat>, idToSubgraph: map<nat, Subgraph>)
    returns (ghost roots': seq<Value>, rootToId': map<Value, nat>, idToSubgraph': map<nat, Subgraph>)
    requires MembersTakeConsts(f, forest) && dsu.Valid() && dsu.root == forest
    requires k < |f.body| && Collected(f, k, forest, roots, rootToId, idToSubgraph) && AllInhabited(f, forest, roots)
    modifies dsu
    ensures dsu.Valid() && dsu.root == forest
    ensures Collected(f, k + 1, forest, roots', rootToId', idToSubgraph') && |roots'| <= |roots| + 1
    ensures AllInhabited(f, forest, roots')
  {
    var op := f.body[k];
    if op.numResults == 0 || !dsu.ValueExists(Res(op.id, 0)) {
      OutsideStep(f, k, forest, roots, rootToId, idToSubgraph);
      roots', rootToId', idToSubgraph' := roots, rootToId, idToSubgraph;
    } else {
      var root := dsu.FindRoot(Res(op.id, 0));
      roots', rootToId', idToSubgraph' := RecordMember(f, k, forest, root, roots, rootToId, idToSubgraph);
    }
  }

  method RecordMember(f: Func, k: nat, ghost forest: map<Value, Value>, root: Value, ghost roots: seq<Value>,
                      rootToId: map<Value, nat>, idToSubgraph: map<nat, Subgraph>)
    returns (ghost roots': seq<Value>, rootToId': map<Value, nat>, idToSubgraph': map<nat, Subgraph>)
    requires MembersTakeConsts(f, forest) && AllInhabited(f, forest, roots)
    requires k < |f.body| && Collected(f, k, forest, roots, rootToId, idToSubgraph) && HasRoot(forest, f.body[k], root)
    ensures Collected(f, k + 1, forest, roots', rootToId', idToSubgraph') && |roots'| <= |roots| + 1
    ensures AllInhabited(f, forest, roots')
  {
    roots', rootToId', idToSubgraph' := roots, rootToId, idToSubgraph;
    if root !in rootToId {
      NewRootStep(f, k, forest, roots, rootToId, idToSubgraph, root);
      var currentId := |idToSubgraph|;
      TableSize(|roots|, idToSubgraph);
      rootToId' := rootToId[root := currentId];
      idToSubgraph' := idToSubgraph[currentId := NoSubgraph()];
      roots' := roots + [root];
    }
    MemberStep(f, k, forest, roots', rootToId', idToSubgraph', root);
    assert f.body[k] in f.body && TakesConsts(f, f.body[k]);
    var grown := AddMember(idToSubgraph'[rootToId'[root]], f.body[k], f.constParams);
    idToSubgraph' := idToSubgraph'[rootToId'[root] := grown];
  }

  /** The next free id is the number of ids given so far. */
  lemma {:induction false} TableSize<T>(n: nat, table: map<nat, T>)
    requires forall i :: i in table <==> 0 <= i < n
    ensures |table| == n
  {
    if n == 0 {
      assert table == map[];
    } else {
      TableSize(n - 1, table - {n - 1});
      assert table == (table - {n - 1})[n - 1 := table[n - 1]];
    }
  }

  predicate TakesConsts(f: Func, op: Op) {
    forall v :: v in op.operands && v.Arg? ==> v.id in f.constParams
  }

  ghost predicate MembersTakeConsts(f: Func, root: map<Value, Value>) {
    forall op, r :: op in f.body && HasRoot(root, op, r) ==> TakesConsts(f, op)
  }

  /** The block arguments of every member are const, as the analysis asserts. */
  lemma ArgumentsAreConst(f: Func, root: map<Value, Value>)
    requires WellFormed(f) && CallsTakeConsts(f) && Analyzed(f, |f.body|, root)
    ensures MembersTakeConsts(f, root)
  {
    forall op, r | op in f.body && HasRoot(root, op, r) ensures TakesConsts(f, op) {
      forall v | v in op.operands && v.Arg? ensures v.id in f.constParams { MemberClosed(f, root, r, op, v); }
    }
  }

  /** The subgraphs of a table, in whatever order its ids come. */
  ghost predicate Ordering(idToSubgraph: map<nat, Subgraph>, order: seq<nat>, subgraphs: seq<Subgraph>) {
    && NoDuplicates(order) && |order| == |subgraphs|
    && (forall i :: 0 <= i < |order| ==> order[i] in idToSubgraph && idToSubgraph[order[i]] == subgraphs[i])
  }

  method InAnyOrder(idToSubgraph: map<nat, Subgraph>) returns (subgraphs: seq<Subgraph>, ghost order: seq<nat>)
    ensures Ordering(idToSubgraph, order, subgraphs)
    ensures (forall id :: id in idToSubgraph ==> id in order) && |subgraphs| == |idToSubgraph|
  {
    subgraphs, order := [], [];
    var ids := idToSubgraph.Keys;
    while ids != {}
      invariant Ordering(idToSubgraph, order, subgraphs)
      invariant forall id :: id in idToSubgraph <==> id in ids || id in order
      invariant (forall id :: id in order ==> id !in ids) && |subgraphs| + |ids| == |idToSubgraph|
      decreases |ids|
    {
      var id :| id in ids;
      subgraphs := subgraphs + [idToSubgraph[id]];
      order := order + [id];
      ids := ids - {id};
    }
  }

  /** The roots in the order in which their subgraphs come. */
  ghost function Reordered(f: Func, root: map<Value, Value>, roots: seq<Value>, rootToId: map<Value, nat>,
                           idToSubgraph: map<nat, Subgraph>,
                           order: seq<nat>, subgraphs: seq<Subgraph>): (reordered: seq<Value>)
    requires Collected(f, |f.body|, root, roots, rootToId, idToSubgraph) && f.body[..|f.body|] == f.body
    requires Ordering(idToSubgraph, order, subgraphs) && AllInhabited(f, root, roots)
    requires forall id :: id in idToSubgraph ==> id in order
    ensures Listed(f, root, reordered, subgraphs)
  {
    var reordered := seq(|order|, i requires 0 <= i < |order| => roots[order[i]]);
    ReorderedListed(f, root, roots, rootToId, idToSubgraph, order, subgraphs, reordered);
    reordered
  }

  lemma ReorderedListed(f: Func, root: map<Value, Value>, roots: seq<Value>, rootToId: map<Value, nat>,
                        idToSubgraph: map<nat, Subgraph>,
                        order: seq<nat>, subgraphs: seq<Subgraph>, reordered: seq<Value>)
    requires Collected(f, |f.body|, root, roots, rootToId, idToSubgraph) && f.body[..|f.body|] == f.body
    requires Ordering(idToSubgraph, order, subgraphs) && AllInhabited(f, root, roots)
    requires forall id :: id in idToSubgraph ==> id in order
    requires |reordered| == |order|
    requires forall i :: 0 <= i < |order| ==> order[i] < |roots| && reordered[i] == roots[order[i]]
    ensures Listed(f, root, reordered, subgraphs)
  {
    forall i | 0 <= i < |order| ensures subgraphs[i] == ClassSubgraph(f.body, root, reordered[i]) {
      assert IsClass(f, |f.body|, root, roots[order[i]], idToSubgraph[order[i]]);
    }
    forall op, r | op in f.body && HasRoot(root, op, r) ensures r in reordered {
      SeenRoot(f, root, roots, rootToId, idToSubgraph, op, r);
      var i :| 0 <= i < |order| && order[i] == rootToId[r];
      assert reordered[i] == r;
    }
  }

  lemma SeenRoot(f: Func, root: map<Value, Value>, roots: seq<Value>, rootToId: map<Value, nat>,
                 idToSubgraph: map<nat, Subgraph>, op: Op, r: Value)
    requires Collected(f, |f.body|, root, roots, rootToId, idToSubgraph) && f.body[..|f.body|] == f.body
    requires op in f.body && HasRoot(root, op, r)
    ensures r in rootToId && rootToId[r] in idToSubgraph
  {
    var sg := ClassSubgraph(f.body, root, r);
    assert op in sg.loadCachedOps || op in sg.ops;
    assert !IsClass(f, |f.body|, root, r, NoSubgraph());
  }

  lemma SharedSoFar(ops: seq<Op>, k: nat)
    requires UniqueIds(ops) && k < |ops|
    ensures Only(ops[..k + 1], SharedIds(ops))
      == Only(ops[..k], SharedIds(ops)) + if ops[k].shared then [ops[k]] else []
  {
    assert ops[..k + 1][..k] == ops[..k];
    if ops[k].id in SharedIds(ops) {
      var op :| op in ops && op.shared && op.id == ops[k].id;
      SameId(ops, op, ops[k]);
    }
  }

  // ----- What the analysis says -----

  /** When the analysis does not fail, a value is in the forest exactly when its op is eligible
      and either calls an existing const-eval function or uses only const-eval operands. */
  lemma ExactFixpoint(f: Func, root: map<Value, Value>, op: Op, v: Value)
    requires WellFormed(f) && Analyzed(f, |f.body|, root) && !Failed(f, |f.body|)
    requires op in f.body && v in Results(op)
    ensures v in root <==> Candidate(f, root.Keys, op)
  {
    FoundIsFixpoint(f);
    FailsExactlyWhen(f);
    var j :| 0 <= j < |f.body| && f.body[j] == op;
    ExplainedOnce(f, root.Keys, j, v);
  }

  /** Two values of the forest share a root exactly when a chain of joined ops links them. */
  lemma RootsTellLinks(f: Func, root: map<Value, Value>, u: Value, v: Value)
    requires WellFormed(f) && Analyzed(f, |f.body|, root) && u in root && v in root
    ensures root[u] == root[v] <==> Linked(Groups(f, |f.body|), u, v)
  {
    SameRootExactlyWhenLinked(Groups(f, |f.body|), root, u, v);
  }

  /** Groups come from joined ops only. */
  lemma {:induction false} GroupOf(f: Func, k: nat, g: set<Value>) returns (j: nat)
    requires k <= |f.body| && g in Groups(f, k)
    ensures j < k && g == GraphsToJoin(f, f.body[j]) && Joins(f, Found(f, j), f.body[j])
  {
    if Joins(f, Found(f, k - 1), f.body[k - 1]) && g == GraphsToJoin(f, f.body[k - 1]) {
      j := k - 1;
    } else {
      j := GroupOf(f, k - 1, g);
    }
  }

  lemma {:induction false} GroupIn(f: Func, k: nat, j: nat)
    requires j < k <= |f.body| && Joins(f, Found(f, j), f.body[j])
    ensures GraphsToJoin(f, f.body[j]) in Groups(f, k)
  {
    if j < k - 1 { GroupIn(f, k - 1, j); }
  }

  // ----- The subgraphs -----

  predicate HasRoot(root: map<Value, Value>, op: Op, r: Value) {
    op.numResults > 0 && Res(op.id, 0) in root && root[Res(op.id, 0)] == r
  }

  /** The ids of the block arguments the class takes. */
  function ClassInputs(ops: seq<Op>, root: map<Value, Value>, r: Value): (ids: set<nat>)
    ensures forall op, v :: op in ops && HasRoot(root, op, r) && v in op.operands && v.Arg? ==> v.id in ids
    ensures forall i :: i in ids ==> exists op :: op in ops && HasRoot(root, op, r) && Arg(i) in op.operands
  {
    set op, v | op in ops && HasRoot(root, op, r) && v in op.operands && v.Arg? :: v.id
  }

  function ClassMembers(ops: seq<Op>, root: map<Value, Value>, r: Value, calls: bool): (r': seq<Op>)
    ensures forall op :: op in r' ==> op in ops && HasRoot(root, op, r) && op.kind.LoadCached? == calls
    ensures forall op :: op in ops && HasRoot(root, op, r) && op.kind.LoadCached? == calls ==> op in r'
  {
    if ops == [] then []
    else
      var n := |ops| - 1;
      assert ops == ops[..n] + [ops[n]];
      ClassMembers(ops[..n], root, r, calls)
      + if HasRoot(root, ops[n], r) && ops[n].kind.LoadCached? == calls then [ops[n]] else []
  }

  /** The subgraph of the class of `r` among the given ops. */
  function ClassSubgraph(ops: seq<Op>, root: map<Value, Value>, r: Value): Subgraph {
    Subgraph(ClassInputs(ops, root, r), ClassMembers(ops, root, r, true), ClassMembers(ops, root, r, false))
  }

  /** Filtering by class and filtering by the ids of that class are the same. */
  lemma {:induction false} MembersById(ops: seq<Op>, all: seq<Op>, root: map<Value, Value>, r: Value, calls: bool)
    requires UniqueIds(all) && forall op :: op in ops ==> op in all
    ensures Only(ops, Ids(ClassMembers(all, root, r, calls))) == ClassMembers(ops, root, r, calls)
  {
    if ops != [] {
      var n := |ops| - 1;
      assert ops == ops[..n] + [ops[n]];
      MembersById(ops[..n], all, root, r, calls);
      MemberById(all, ops[n], root, r, calls);
    }
  }

  lemma MemberById(all: seq<Op>, op: Op, root: map<Value, Value>, r: Value, calls: bool)
    requires UniqueIds(all) && op in all
    ensures op.id in Ids(ClassMembers(all, root, r, calls)) <==> HasRoot(root, op, r) && op.kind.LoadCached? == calls
  {
    if op.id in Ids(ClassMembers(all, root, r, calls)) {
      var e :| e in ClassMembers(all, root, r, calls) && e.id == op.id;
      SameId(all, e, op);
    }
  }

  ghost predicate TakesConstArgs(f: Func, op: Op) {
    forall v :: v in op.operands ==> v.Arg? && v.id in f.constParams
  }

  /** A `load_cached` in the forest takes constants and parameters, as the analysis asserts. */
  ghost predicate CallsTakeConsts(f: Func) {
    forall op :: op in f.body && op.kind.LoadCached? && ToHoist(f, op) ==> TakesConstArgs(f, op)
  }

  /** A member joined: what it uses is const, shared, or of the same class. */
  lemma MemberJoined(f: Func, root: map<Value, Value>, r: Value, op: Op) returns (j: nat)
    requires WellFormed(f) && Analyzed(f, |f.body|, root) && op in f.body && HasRoot(root, op, r)
    ensures j < |f.body| && f.body[j] == op && Joins(f, Found(f, j), op)
    ensures OneRoot(root, GraphsToJoin(f, op))
  {
    var v := Res(op.id, 0);
    j := FoundBy(f, |f.body|, v);
    assert f.body[j] in f.body;
    SameId(f.body, f.body[j], op);
    GroupIn(f, |f.body|, j);
  }

  lemma MemberClosed(f: Func, root: map<Value, Value>, r: Value, op: Op, v: Value)
    requires WellFormed(f) && CallsTakeConsts(f) && Analyzed(f, |f.body|, root)
    requires op in f.body && HasRoot(root, op, r) && v in op.operands
    ensures v.Arg? ==> v.id in f.constParams
    ensures v.Res? && !SharedValue(f, v) ==> exists e :: e in f.body && v in Results(e) && HasRoot(root, e, r)
  {
    var j := MemberJoined(f, root, r, op);
    if op.kind.LoadCached? {
      ToHoistHasRoot(f, root, op);
      assert TakesConstArgs(f, op) && v.Arg?;
    } else {
      assert OperandConstEval(f, Found(f, j), v);
      if v.Res? && !SharedValue(f, v) {
        FoundGrows(f, j, |f.body|);
        var i := FoundBy(f, j, v);
        ClassOf(f, root, i, v);
        assert v in GraphsToJoin(f, op) && Res(op.id, 0) in GraphsToJoin(f, op);
        assert f.body[i] in f.body;
      }
    }
  }

  /** All results of a joined op share a root. */
  lemma ClassOf(f: Func, root: map<Value, Value>, i: nat, v: Value)
    requires Analyzed(f, |f.body|, root) && i < |f.body| && Joins(f, Found(f, i), f.body[i]) && v in Results(f.body[i])
    ensures v in root && HasRoot(root, f.body[i], root[v])
  {
    GroupIn(f, |f.body|, i);
    assert OneRoot(root, GraphsToJoin(f, f.body[i]));
    assert Res(f.body[i].id, 0) in Results(f.body[i]);
  }

  /** The members of a class form a closed subgraph in block order. */
  lemma ClassIsSubgraph(f: Func, root: map<Value, Value>, r: Value)
    requires WellFormed(f) && CallsTakeConsts(f) && Analyzed(f, |f.body|, root)
    ensures IsSubgraph(f, ClassSubgraph(f.body, root, r))
  {
    var sg := ClassSubgraph(f.body, root, r);
    MembersById(f.body, f.body, root, r, false);
    MembersById(f.body, f.body, root, r, true);
    forall op | op in Members(sg) ensures !op.shared && OperandsInside(f, sg, op) {
      MemberInside(f, root, r, op);
    }
    forall i | i in sg.inputParameters ensures i in f.args {
      var op :| op in f.body && HasRoot(root, op, r) && Arg(i) in op.operands;
      OperandsInScope(f, op);
    }
  }

  lemma MemberInside(f: Func, root: map<Value, Value>, r: Value, op: Op)
    requires WellFormed(f) && CallsTakeConsts(f) && Analyzed(f, |f.body|, root) && op in f.body && HasRoot(root, op, r)
    ensures !op.shared && OperandsInside(f, ClassSubgraph(f.body, root, r), op)
  {
    var sg := ClassSubgraph(f.body, root, r);
    var j := MemberJoined(f, root, r, op);
    forall v | v in op.operands ensures Inside(f, sg, v) {
      MemberClosed(f, root, r, op, v);
      if v.Res? && !SharedValue(f, v) {
        var e :| e in f.body && v in Results(e) && HasRoot(root, e, r);
        assert e in sg.loadCachedOps || e in sg.ops;
      }
    }
  }

  /** Classes with different roots share no op. */
  lemma ClassesApart(f: Func, root: map<Value, Value>, r: Value, r': Value)
    requires UniqueIds(f.body) && r != r'
    ensures Apart(ClassSubgraph(f.body, root, r), ClassSubgraph(f.body, root, r'))
  {
    forall a, b | a in Members(ClassSubgraph(f.body, root, r)) && b in Members(ClassSubgraph(f.body, root, r'))
      ensures a.id != b.id
    {
      if a.id == b.id { SameId(f.body, a, b); }
    }
  }

  // ----- Collecting them -----

  function NoSubgraph(): Subgraph {
    Subgraph({}, [], [])
  }

  function ArgIds(vs: seq<Value>): (r: set<nat>)
    ensures forall i :: i in r <==> Arg(i) in vs
  {
    set v | v in vs && v.Arg? :: v.id
  }

  function WithMember(sg: Subgraph, op: Op): Subgraph {
    var inputParameters := sg.inputParameters + ArgIds(op.operands);
    if op.kind.LoadCached? then sg.(loadCachedOps := sg.loadCachedOps + [op], inputParameters := inputParameters)
    else sg.(ops := sg.ops + [op], inputParameters := inputParameters)
  }

  lemma ClassInputsStep(front: seq<Op>, op: Op, root: map<Value, Value>, r: Value)
    ensures ClassInputs(front + [op], root, r)
      == ClassInputs(front, root, r) + if HasRoot(root, op, r) then ArgIds(op.operands) else {}
  {
    var next := front + [op];
    forall i | i in ClassInputs(next, root, r)
      ensures i in ClassInputs(front, root, r) || (HasRoot(root, op, r) && Arg(i) in op.operands)
    {
      var e :| e in next && HasRoot(root, e, r) && Arg(i) in e.operands;
      assert e in front || e == op;
    }
    forall i | i in ClassInputs(front, root, r) ensures i in ClassInputs(next, root, r) {
      var e :| e in front && HasRoot(root, e, r) && Arg(i) in e.operands;
      assert e in next;
    }
    forall i | HasRoot(root, op, r) && Arg(i) in op.operands ensures i in ClassInputs(next, root, r) {
      assert op in next;
    }
  }

  lemma ClassStep(ops: seq<Op>, k: nat, root: map<Value, Value>, r: Value)
    requires k < |ops|
    ensures var before := ClassSubgraph(ops[..k], root, r);
      ClassSubgraph(ops[..k + 1], root, r) == if HasRoot(root, ops[k], r) then WithMember(before, ops[k]) else before
  {
    assert ops[..k + 1] == ops[..k] + [ops[k]];
    assert ops[..k + 1][..k] == ops[..k];
    ClassInputsStep(ops[..k], ops[k], root, r);
  }

  method InsertArguments(operands: seq<Value>, constParams: set<nat>, before: set<nat>)
    returns (inputParameters: set<nat>)
    requires forall v :: v in operands && v.Arg? ==> v.id in constParams
    ensures inputParameters == before + ArgIds(operands)
  {
    inputParameters := before;
    for i := 0 to |operands|
      invariant inputParameters == before + ArgIds(operands[..i])
    {
      assert operands[i] in operands;
      assert forall j :: Arg(j) in operands[..i + 1] <==> Arg(j) in operands[..i] || Arg(j) == operands[i];
      if operands[i].Arg? {
        assert operands[i].id in constParams;
        inputParameters := inputParameters + {operands[i].id};
      }
    }
    assert operands[..|operands|] == operands;
  }

  method AddMember(sg: Subgraph, op: Op, constParams: set<nat>) returns (r: Subgraph)
    requires forall v :: v in op.operands && v.Arg? ==> v.id in constParams
    ensures r == WithMember(sg, op)
  {
    var inputParameters := InsertArguments(op.operands, constParams, sg.inputParameters);
    if op.kind.LoadCached? {
      r := sg.(loadCachedOps := sg.loadCachedOps + [op]);
    } else {
      r := sg.(ops := sg.ops + [op]);
    }
    r := r.(inputParameters := inputParameters);
  }

  ghost predicate NumberOf(roots: seq<Value>, rootToId: map<Value, nat>, r: Value)
    requires r in rootToId
  {
    rootToId[r] < |roots| && roots[rootToId[r]] == r
  }

  /** Roots and ids name each other. */
  ghost predicate Numbered(roots: seq<Value>, rootToId: map<Value, nat>) {
    && (forall r :: r in rootToId ==> NumberOf(roots, rootToId, r))
    && (forall i {:trigger roots[i]} :: 0 <= i < |roots| ==> roots[i] in rootToId && rootToId[roots[i]] == i)
  }

  ghost predicate Tabled(f: Func, k: nat, root: map<Value, Value>, roots: seq<Value>, idToSubgraph: map<nat, Subgraph>)
    requires k <= |f.body|
  {
    && (forall i :: i in idToSubgraph <==> 0 <= i < |roots|)
    && (forall i {:trigger IsClass(f, k, root, roots[i], idToSubgraph[i])} :: 0 <= i < |roots| ==>
      IsClass(f, k, root, roots[i], idToSubgraph[i]))
  }

  ghost predicate IsClass(f: Func, k: nat, root: map<Value, Value>, r: Value, sg: Subgraph)
    requires k <= |f.body|
  {
    sg == ClassSubgraph(f.body[..k], root, r)
  }

  ghost predicate OthersEmpty(f: Func, k: nat, root: map<Value, Value>, rootToId: map<Value, nat>)
    requires k <= |f.body|
  {
    forall r {:trigger IsClass(f, k, root, r, NoSubgraph())} :: r !in rootToId ==> IsClass(f, k, root, r, NoSubgraph())
  }

  /** The table after the first k ops: one numbered subgraph for each root seen. */
  ghost predicate Collected(f: Func, k: nat, root: map<Value, Value>, roots: seq<Value>, rootToId: map<Value, nat>,
                            idToSubgraph: map<nat, Subgraph>)
    requires k <= |f.body|
  {
    Numbered(roots, rootToId) && Tabled(f, k, root, roots, idToSubgraph) && OthersEmpty(f, k, root, rootToId)
  }

  lemma NothingYet(f: Func, root: map<Value, Value>)
    ensures Collected(f, 0, root, [], map[], map[])
  {
    assert f.body[..0] == [];
  }

  lemma OutsideStep(f: Func, k: nat, root: map<Value, Value>, roots: seq<Value>, rootToId: map<Value, nat>,
                    idToSubgraph: map<nat, Subgraph>)
    requires k < |f.body| && Collected(f, k, root, roots, rootToId, idToSubgraph)
    requires f.body[k].numResults == 0 || Res(f.body[k].id, 0) !in root
    ensures Collected(f, k + 1, root, roots, rootToId, idToSubgraph)
  {
    forall i | 0 <= i < |roots| ensures IsClass(f, k + 1, root, roots[i], idToSubgraph[i]) {
      assert IsClass(f, k, root, roots[i], idToSubgraph[i]);
      ClassStep(f.body, k, root, roots[i]);
    }
    forall r | r !in rootToId ensures IsClass(f, k + 1, root, r, NoSubgraph()) {
      assert IsClass(f, k, root, r, NoSubgraph());
      ClassStep(f.body, k, root, r);
    }
  }

  lemma NewRootStep(f: Func, k: nat, root: map<Value, Value>, roots: seq<Value>, rootToId: map<Value, nat>,
                    idToSubgraph: map<nat, Subgraph>, r: Value)
    requires k <= |f.body| && Collected(f, k, root, roots, rootToId, idToSubgraph) && r !in rootToId
    ensures Collected(f, k, root, roots + [r], rootToId[r := |roots|], idToSubgraph[|roots| := NoSubgraph()])
  {
  }

  lemma EntryStep(f: Func, k: nat, root: map<Value, Value>, r: Value, member: Value, sg: Subgraph)
    requires k < |f.body| && IsClass(f, k, root, r, sg) && HasRoot(root, f.body[k], member)
    ensures IsClass(f, k + 1, root, r, if r == member then WithMember(sg, f.body[k]) else sg)
  {
    ClassStep(f.body, k, root, r);
  }

  ghost predicate OnlyOnce(roots: seq<Value>, id: nat)
    requires id < |roots|
  {
    forall i :: 0 <= i < |roots| && i != id ==> roots[i] != roots[id]
  }

  lemma TableStep(f: Func, k: nat, root: map<Value, Value>, roots: seq<Value>, idToSubgraph: map<nat, Subgraph>,
                  id: nat, grown: Subgraph)
    requires k < |f.body| && Tabled(f, k, root, roots, idToSubgraph)
    requires id < |roots| && OnlyOnce(roots, id) && HasRoot(root, f.body[k], roots[id])
    requires grown == WithMember(idToSubgraph[id], f.body[k])
    ensures Tabled(f, k + 1, root, roots, idToSubgraph[id := grown])
  {
    var table := idToSubgraph[id := grown];
    forall i | 0 <= i < |roots| ensures IsClass(f, k + 1, root, roots[i], table[i]) {
      EntryStep(f, k, root, roots[i], roots[id], idToSubgraph[i]);
    }
  }

  lemma OthersStep(f: Func, k: nat, root: map<Value, Value>, rootToId: map<Value, nat>, r: Value)
    requires k < |f.body| && OthersEmpty(f, k, root, rootToId) && r in rootToId && HasRoot(root, f.body[k], r)
    ensures OthersEmpty(f, k + 1, root, rootToId)
  {
    forall q | q !in rootToId ensures IsClass(f, k + 1, root, q, NoSubgraph()) {
      assert IsClass(f, k, root, q, NoSubgraph());
      ClassStep(f.body, k, root, q);
    }
  }

  lemma MemberStep(f: Func, k: nat, root: map<Value, Value>, roots: seq<Value>, rootToId: map<Value, nat>,
                   idToSubgraph: map<nat, Subgraph>, r: Value)
    requires k < |f.body| && Collected(f, k, root, roots, rootToId, idToSubgraph) && r in rootToId
    requires HasRoot(root, f.body[k], r)
    ensures var grown := WithMember(idToSubgraph[rootToId[r]], f.body[k]);
      Collected(f, k + 1, root, roots, rootToId, idToSubgraph[rootToId[r] := grown])
  {
    TableStep(f, k, root, roots, idToSubgraph, rootToId[r], WithMember(idToSubgraph[rootToId[r]], f.body[k]));
    OthersStep(f, k, root, rootToId, r);
  }

  /** The subgraphs listed are those of the given roots, and every class with a member is
      listed. */
  ghost predicate Listed(f: Func, root: map<Value, Value>, roots: seq<Value>, subgraphs: seq<Subgraph>) {
    && NoDuplicates(roots) && |subgraphs| == |roots|
    && (forall i :: 0 <= i < |roots| ==> subgraphs[i] == ClassSubgraph(f.body, root, roots[i]))
    && (forall op, r :: op in f.body && HasRoot(root, op, r) ==> r in roots)
    && AllInhabited(f, root, roots)
  }

  /** Some op belongs to the class of `r`. */
  ghost predicate Inhabited(f: Func, root: map<Value, Value>, r: Value) {
    exists op :: op in f.body && HasRoot(root, op, r)
  }

  ghost predicate AllInhabited(f: Func, root: map<Value, Value>, roots: seq<Value>) {
    forall r :: r in roots ==> Inhabited(f, root, r)
  }

  /** The subgraphs are closed, in block order and mutually disjoint. */
  ghost predicate Separate(f: Func, subgraphs: seq<Subgraph>) {
    && (forall sg :: sg in subgraphs ==> IsSubgraph(f, sg))
    && (forall i, j :: 0 <= i < j < |subgraphs| ==> Apart(subgraphs[i], subgraphs[j]))
  }

  lemma ListedAreSeparate(f: Func, root: map<Value, Value>, roots: seq<Value>, subgraphs: seq<Subgraph>)
    requires WellFormed(f) && CallsTakeConsts(f) && Analyzed(f, |f.body|, root) && Listed(f, root, roots, subgraphs)
    ensures Separate(f, subgraphs)
  {
    forall sg | sg in subgraphs ensures IsSubgraph(f, sg) {
      var i :| 0 <= i < |subgraphs| && subgraphs[i] == sg;
      ClassIsSubgraph(f, root, roots[i]);
    }
    forall i, j | 0 <= i < j < |subgraphs| ensures Apart(subgraphs[i], subgraphs[j]) {
      ClassesApart(f, root, roots[i], roots[j]);
    }
  }

  /** The op is to be hoisted: it has results, and they are in the forest. */
  ghost predicate ToHoist(f: Func, op: Op) {
    op.numResults > 0 && Joins(f, Found(f, |f.body|), op)
  }

  lemma ToHoistHasRoot(f: Func, root: map<Value, Value>, op: Op)
    requires WellFormed(f) && Analyzed(f, |f.body|, root) && op in f.body
    ensures ToHoist(f, op) <==> op.numResults > 0 && Res(op.id, 0) in root
  {
    if op.numResults > 0 {
      FoundIsFixpoint(f);
      var j :| 0 <= j < |f.body| && f.body[j] == op;
      ExplainedOnce(f, root.Keys, j, Res(op.id, 0));
    }
  }

  /** The subgraphs hold exactly the ops to be hoisted. */
  lemma ListedHold(f: Func, root: map<Value, Value>, roots: seq<Value>, subgraphs: seq<Subgraph>, op: Op)
    requires WellFormed(f) && Analyzed(f, |f.body|, root) && Listed(f, root, roots, subgraphs) && op in f.body
    ensures ToHoist(f, op) <==> exists sg :: sg in subgraphs && op in Members(sg)
  {
    ToHoistHasRoot(f, root, op);
    if ToHoist(f, op) {
      var r := root[Res(op.id, 0)];
      assert HasRoot(root, op, r);
      var i :| 0 <= i < |roots| && roots[i] == r;
      assert subgraphs[i] in subgraphs && op in Members(subgraphs[i]);
    }
    if sg :| sg in subgraphs && op in Members(sg) {
      var i :| 0 <= i < |subgraphs| && subgraphs[i] == sg;
      assert HasRoot(root, op, roots[i]);
    }
  }
}
