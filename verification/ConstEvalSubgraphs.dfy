/** The subgraphs carved out of a function, and their boundary: which block arguments a
    subgraph takes and which of its values are used outside. */
module ConstEvalSubgraphs {
  import opened Common
  import opened Ir
  import opened Rewrite

  /** `inputParameters` holds ids of block arguments; `loadCachedOps` and `ops` are in block
      order. */
  datatype Subgraph = Subgraph(inputParameters: set<nat>, loadCachedOps: seq<Op>, ops: seq<Op>)

  function Ids(ops: seq<Op>): (r: set<nat>)
    ensures forall op :: op in ops ==> op.id in r
    ensures forall i :: i in r ==> exists op :: op in ops && op.id == i
  {
    set op | op in ops :: op.id
  }

  /** The ops with the given ids, in block order. */
  function Only(ops: seq<Op>, ids: set<nat>): (r: seq<Op>)
    ensures forall op :: op in r <==> op in ops && op.id in ids
  {
    if ops == [] then []
    else
      var n := |ops| - 1;
      var front := Only(ops[..n], ids);
      assert ops == ops[..n] + [ops[n]];
      if ops[n].id in ids then front + [ops[n]] else front
  }

  function SharedIds(ops: seq<Op>): (r: set<nat>)
    ensures forall op :: op in ops && op.shared ==> op.id in r
    ensures forall i :: i in r ==> exists op :: op in ops && op.shared && op.id == i
  {
    set op | op in ops && op.shared :: op.id
  }

  function SharedOps(ops: seq<Op>): seq<Op> {
    Only(ops, SharedIds(ops))
  }

  /** The only shared op, `ttnn.get_device`, takes nothing and yields one value; `load_cached`
      ops take block arguments. */
  predicate Legal(op: Op) {
    && (op.shared ==> op.kind.Plain? && op.operands == [] && op.numResults == 1)
    && (op.kind.LoadCached? ==> forall v :: v in op.operands ==> v.Arg?)
  }

  ghost predicate AllLegal(ops: seq<Op>) {
    forall op :: op in ops ==> Legal(op)
  }

  function Members(sg: Subgraph): seq<Op> {
    sg.loadCachedOps + sg.ops
  }

  /** What an op of the subgraph may use. */
  ghost predicate Inside(f: Func, sg: Subgraph, v: Value) {
    if v.Arg? then v.id in sg.inputParameters
    else DefinedBy(v, SharedIds(f.body)) || DefinedBy(v, Ids(sg.loadCachedOps)) || DefinedBy(v, Ids(sg.ops))
  }

  ghost predicate OperandsInside(f: Func, sg: Subgraph, op: Op) {
    forall v :: v in op.operands ==> Inside(f, sg, v)
  }

  ghost predicate ClosedSubgraph(f: Func, sg: Subgraph) {
    && (forall op :: op in Members(sg) ==> OperandsInside(f, sg, op))
    && (forall i :: i in sg.inputParameters ==> i in f.args)
  }

  ghost predicate IsSubgraph(f: Func, sg: Subgraph) {
    && Only(f.body, Ids(sg.ops)) == sg.ops && Only(f.body, Ids(sg.loadCachedOps)) == sg.loadCachedOps
    && (forall op :: op in sg.ops ==> op.kind.Plain? && !op.shared)
    && (forall op :: op in sg.loadCachedOps ==> op.kind.LoadCached? && !op.shared)
    && ClosedSubgraph(f, sg)
  }

  /** Distinct subgraphs share no op. */
  ghost predicate Apart(a: Subgraph, b: Subgraph) {
    Ids(Members(a)) !! Ids(Members(b))
  }

  // ----- The boundary -----

  /** The block arguments a subgraph takes, by argument number. */
  function Inputs(args: seq<nat>, parameters: set<nat>): (r: seq<Value>)
    ensures forall v :: v in r <==> v.Arg? && v.id in args && v.id in parameters
  {
    if args == [] then []
    else
      var n := |args| - 1;
      assert args == args[..n] + [args[n]];
      Inputs(args[..n], parameters) + if args[n] in parameters then [Arg(args[n])] else []
  }

  predicate UsedOutside(f: Func, ids: set<nat>, v: Value) {
    (exists op :: op in f.body && op.id !in ids && v in op.operands) || v in f.outs
  }

  /** The results of one op, below the n-th, that are used outside. */
  function UsedResults(f: Func, ids: set<nat>, op: Op, n: nat): (r: seq<Value>)
    ensures forall v :: v in r <==> v.Res? && v.op == op.id && v.index < n && UsedOutside(f, ids, v)
    ensures NoDuplicates(r)
  {
    if n == 0 then []
    else
      var v := Res(op.id, n - 1);
      UsedResults(f, ids, op, n - 1) + if UsedOutside(f, ids, v) then [v] else []
  }

  function Outputs(f: Func, ids: set<nat>, ops: seq<Op>): (r: seq<Value>)
    ensures forall v :: v in r <==> v in Defs(ops) && UsedOutside(f, ids, v)
  {
    if ops == [] then []
    else
      var n := |ops| - 1;
      Outputs(f, ids, ops[..n]) + UsedResults(f, ids, ops[n], ops[n].numResults)
  }

  function BoundaryInputs(f: Func, sg: Subgraph): seq<Value> {
    Inputs(f.args, sg.inputParameters)
  }

  function BoundaryOutputs(f: Func, sg: Subgraph): seq<Value> {
    Outputs(f, Ids(sg.ops), sg.ops) + Outputs(f, Ids(sg.ops), sg.loadCachedOps)
  }

  lemma {:induction false} InputsDistinct(args: seq<nat>, parameters: set<nat>)
    requires NoDuplicates(args)
    ensures NoDuplicates(Inputs(args, parameters))
  {
    if args != [] {
      var n := |args| - 1;
      InputsDistinct(args[..n], parameters);
      var front := Inputs(args[..n], parameters);
      forall k | 0 <= k < |front| ensures front[k] != Arg(args[n]) {
        assert front[k] in front;
      }
    }
  }

  lemma {:induction false} OutputsDistinct(f: Func, ids: set<nat>, ops: seq<Op>)
    requires UniqueIds(ops)
    ensures NoDuplicates(Outputs(f, ids, ops))
  {
    if ops != [] {
      var n := |ops| - 1;
      OutputsDistinct(f, ids, ops[..n]);
      LastIsNew(ops);
      var front, last := Outputs(f, ids, ops[..n]), UsedResults(f, ids, ops[n], ops[n].numResults);
      forall i, j | 0 <= i < |front| && 0 <= j < |last| ensures front[i] != last[j] {
        assert front[i] in front && last[j] in last;
        assert last[j] in Results(ops[n]);
      }
    }
  }

  /** `u` is a result of an earlier op than `v`, or an earlier result of the same op. */
  ghost predicate ListedBefore(ops: seq<Op>, u: Value, v: Value) {
    exists a, b :: 0 <= a <= b < |ops| && u in Results(ops[a]) && v in Results(ops[b]) && (a == b ==> u.index < v.index)
  }

  ghost predicate InListOrder(ops: seq<Op>, vs: seq<Value>) {
    forall i, j :: 0 <= i < j < |vs| ==> ListedBefore(ops, vs[i], vs[j])
  }

  lemma {:induction false} UsedResultsAscend(f: Func, ids: set<nat>, op: Op, n: nat)
    requires n <= op.numResults
    ensures forall i, j :: 0 <= i < j < |UsedResults(f, ids, op, n)| ==>
      UsedResults(f, ids, op, n)[i].index < UsedResults(f, ids, op, n)[j].index
  {
    if n > 0 {
      UsedResultsAscend(f, ids, op, n - 1);
      var front := UsedResults(f, ids, op, n - 1);
      assert forall i :: 0 <= i < |front| ==> front[i] in front;
    }
  }

  lemma StillBefore(ops: seq<Op>, more: seq<Op>, u: Value, v: Value)
    requires ListedBefore(ops, u, v) && ops <= more
    ensures ListedBefore(more, u, v)
  {
    var a, b :| 0 <= a <= b < |ops| && u in Results(ops[a]) && v in Results(ops[b]) && (a == b ==> u.index < v.index);
    assert more[a] == ops[a] && more[b] == ops[b];
  }

  /** Outputs come op by op in block order, the results of each op from the first to the last. */
  lemma {:induction false} OutputsInOrder(f: Func, ids: set<nat>, ops: seq<Op>)
    ensures InListOrder(ops, Outputs(f, ids, ops))
  {
    if ops != [] {
      var n := |ops| - 1;
      OutputsInOrder(f, ids, ops[..n]);
      UsedResultsAscend(f, ids, ops[n], ops[n].numResults);
      var front, last := Outputs(f, ids, ops[..n]), UsedResults(f, ids, ops[n], ops[n].numResults);
      forall i, j | 0 <= i < j < |front + last| ensures ListedBefore(ops, (front + last)[i], (front + last)[j]) {
        if j < |front| {
          StillBefore(ops[..n], ops, front[i], front[j]);
        } else {
          var v := last[j - |front|];
          assert v in last && v in Results(ops[n]);
          if i < |front| {
            assert front[i] in front;
            LastAfterFront(ops, front[i], v);
          } else {
            assert last[i - |front|] in last && last[i - |front|] in Results(ops[n]);
          }
        }
      }
    }
  }

  lemma LastAfterFront(ops: seq<Op>, u: Value, v: Value)
    requires ops != [] && u in Defs(ops[..|ops| - 1]) && v in Results(ops[|ops| - 1])
    ensures ListedBefore(ops, u, v)
  {
    var e := DefiningOp(ops[..|ops| - 1], u);
    var a :| 0 <= a < |ops| - 1 && ops[a] == e;
  }

  lemma BeforeBehind(front: seq<Op>, ops: seq<Op>, u: Value, v: Value)
    requires ListedBefore(ops, u, v)
    ensures ListedBefore(front + ops, u, v)
  {
    var a, b :| 0 <= a <= b < |ops| && u in Results(ops[a]) && v in Results(ops[b]) && (a == b ==> u.index < v.index);
    assert (front + ops)[|front| + a] == ops[a] && (front + ops)[|front| + b] == ops[b];
  }

  lemma BeforeAcross(front: seq<Op>, ops: seq<Op>, u: Value, v: Value)
    requires u in Defs(front) && v in Defs(ops)
    ensures ListedBefore(front + ops, u, v)
  {
    var d := DefiningOp(front, u);
    var e := DefiningOp(ops, v);
    var a :| 0 <= a < |front| && front[a] == d;
    var b :| 0 <= b < |ops| && ops[b] == e;
    assert (front + ops)[a] == d && (front + ops)[|front| + b] == e;
  }

  /** The boundary lists the outputs of the ops, then those of the calls replaced. */
  lemma BoundaryInOrder(f: Func, sg: Subgraph)
    ensures InListOrder(sg.ops + sg.loadCachedOps, BoundaryOutputs(f, sg))
  {
    var own, called := Outputs(f, Ids(sg.ops), sg.ops), Outputs(f, Ids(sg.ops), sg.loadCachedOps);
    OutputsInOrder(f, Ids(sg.ops), sg.ops);
    OutputsInOrder(f, Ids(sg.ops), sg.loadCachedOps);
    forall i, j | 0 <= i < j < |own + called|
      ensures ListedBefore(sg.ops + sg.loadCachedOps, (own + called)[i], (own + called)[j])
    {
      if j < |own| {
        StillBefore(sg.ops, sg.ops + sg.loadCachedOps, own[i], own[j]);
      } else if i < |own| {
        assert own[i] in own && called[j - |own|] in called;
        BeforeAcross(sg.ops, sg.loadCachedOps, own[i], called[j - |own|]);
      } else {
        BeforeBehind(sg.ops, sg.loadCachedOps, called[i - |own|], called[j - |own|]);
      }
    }
  }

  // ----- Carving by ids -----

  lemma OnlyConcat(a: seq<Op>, b: seq<Op>, ids: set<nat>)
    ensures Only(a + b, ids) == Only(a, ids) + Only(b, ids)
    decreases |b|
  {
    if b == [] {
      assert a + b == a;
    } else {
      assert (a + b)[..|a + b| - 1] == a + b[..|b| - 1];
      OnlyConcat(a, b[..|b| - 1], ids);
    }
  }

  /** Values defined by the ops carved out. */
  lemma {:induction false} OnlyDefs(ops: seq<Op>, ids: set<nat>)
    requires UniqueIds(ops)
    ensures forall v :: v in Defs(Only(ops, ids)) <==> v in Defs(ops) && DefinedBy(v, ids)
  {
    if ops != [] {
      var n := |ops| - 1;
      OnlyDefs(ops[..n], ids);
      var front := Only(ops[..n], ids);
      assert (front + [ops[n]])[..|front|] == front;
    }
  }

  lemma {:induction false} OnlyUnique(ops: seq<Op>, ids: set<nat>)
    requires UniqueIds(ops)
    ensures UniqueIds(Only(ops, ids))
  {
    if ops != [] {
      var n := |ops| - 1;
      var last := [ops[n]];
      assert ops == ops[..n] + last;
      UniqueConcat(ops[..n], last);
      OnlyUnique(ops[..n], ids);
      UniqueConcat(Only(ops[..n], ids), last);
    }
  }

  /** Ops carved out of a block are in order behind whatever else they use. */
  lemma {:induction false} OnlyOrdered(outer: set<Value>, outer': set<Value>, ops: seq<Op>, ids: set<nat>)
    requires UniqueIds(ops) && Ordered(outer, ops) && (forall v :: v in outer ==> v.Arg?)
    requires forall op, v :: op in ops && op.id in ids && v in op.operands ==> v in outer' || DefinedBy(v, ids)
    ensures Ordered(outer', Only(ops, ids))
  {
    if ops != [] {
      var n := |ops| - 1;
      assert ops == ops[..n] + [ops[n]];
      ScopeOfPrefix(outer, ops);
      OnlyOrdered(outer, outer', ops[..n], ids);
      if ops[n].id in ids {
        OnlyDefs(ops[..n], ids);
        assert ops[n] in ops;
        OrderedSnoc(outer', Only(ops[..n], ids), ops[n]);
      }
    }
  }

  lemma SameId(ops: seq<Op>, a: Op, b: Op)
    requires UniqueIds(ops) && a in ops && b in ops && a.id == b.id
    ensures a == b
  {
    var i :| 0 <= i < |ops| && ops[i] == a;
    var j :| 0 <= j < |ops| && ops[j] == b;
  }

  // ----- The boundary suffices -----

  lemma MemberOfId(f: Func, sg: Subgraph, op: Op)
    requires WellFormed(f) && IsSubgraph(f, sg) && op in f.body && op.id in Ids(Members(sg))
    ensures op in Members(sg)
  {
    var e :| e in Members(sg) && e.id == op.id;
    assert e in f.body;
    SameId(f.body, e, op);
  }

  /** The ops and the calls of a subgraph are different ops. */
  lemma MembersDistinct(f: Func, sg: Subgraph)
    requires WellFormed(f) && IsSubgraph(f, sg)
    ensures Ids(sg.ops) !! Ids(sg.loadCachedOps)
    ensures Ids(sg.ops) !! SharedIds(f.body) && Ids(sg.loadCachedOps) !! SharedIds(f.body)
    ensures UniqueIds(sg.ops) && UniqueIds(sg.loadCachedOps)
  {
    OnlyUnique(f.body, Ids(sg.ops));
    OnlyUnique(f.body, Ids(sg.loadCachedOps));
    forall a, b | a in f.body && b in f.body && a.id == b.id ensures a == b { SameId(f.body, a, b); }
  }

  lemma OutputsOf(f: Func, sg: Subgraph)
    requires WellFormed(f) && IsSubgraph(f, sg)
    ensures NoDuplicates(BoundaryOutputs(f, sg))
    ensures forall v :: v in BoundaryOutputs(f, sg) <==>
      v in Defs(f.body) && DefinedBy(v, Ids(sg.ops) + Ids(sg.loadCachedOps)) && UsedOutside(f, Ids(sg.ops), v)
  {
    MembersDistinct(f, sg);
    OnlyDefs(f.body, Ids(sg.ops));
    OnlyDefs(f.body, Ids(sg.loadCachedOps));
    OutputsDistinct(f, Ids(sg.ops), sg.ops);
    OutputsDistinct(f, Ids(sg.ops), sg.loadCachedOps);
    var a, b := Outputs(f, Ids(sg.ops), sg.ops), Outputs(f, Ids(sg.ops), sg.loadCachedOps);
    forall i, j | 0 <= i < |a| && 0 <= j < |b| ensures a[i] != b[j] {
      assert a[i] in a && b[j] in b;
    }
  }

  /** A subgraph with its boundary can be replaced by a call: whatever is used once its ops
      are gone is among the outputs. */
  lemma BoundaryHoistable(f: Func, sg: Subgraph)
    requires WellFormed(f) && AllLegal(f.body) && IsSubgraph(f, sg)
    ensures Hoistable(f, Ids(sg.ops) + Ids(sg.loadCachedOps), BoundaryInputs(f, sg), BoundaryOutputs(f, sg))
  {
    var ids, outputs := Ids(sg.ops) + Ids(sg.loadCachedOps), BoundaryOutputs(f, sg);
    OutputsOf(f, sg);
    forall op, v | op in f.body && op.id !in ids && v in op.operands && DefinedBy(v, ids) ensures v in outputs {
      OperandsInScope(f, op);
    }
  }

  // ----- Hoisting one subgraph leaves the others as they are -----

  ghost predicate Untouched(ops: seq<Op>, sub: map<Value, Value>) {
    forall op, v :: op in ops && v in op.operands ==> v !in sub
  }

  lemma UntouchedSame(ops: seq<Op>, sub: map<Value, Value>)
    requires Untouched(ops, sub)
    ensures RenamedOps(ops, sub) == ops
  {
    forall k | 0 <= k < |ops| ensures RenamedOp(ops[k], sub) == ops[k] {
      assert ops[k] in ops;
      forall j | 0 <= j < |ops[k].operands| ensures ops[k].operands[j] !in sub {
        assert ops[k].operands[j] in ops[k].operands;
      }
      assert RenamedAll(ops[k].operands, sub) == ops[k].operands;
    }
  }

  lemma {:induction false} OnlyAfterErasing(ops: seq<Op>, sub: map<Value, Value>, gone: set<nat>, ids: set<nat>)
    requires gone !! ids
    ensures Only(Without(RenamedOps(ops, sub), gone), ids) == RenamedOps(Only(ops, ids), sub)
    decreases |ops|
  {
    if ops != [] {
      var n := |ops| - 1;
      OnlyAfterErasing(ops[..n], sub, gone, ids);
      assert RenamedOps(ops, sub)[..n] == RenamedOps(ops[..n], sub);
      var front, last := Without(RenamedOps(ops[..n], sub), gone), RenamedOp(ops[n], sub);
      if last.id !in gone { assert (front + [last])[..|front|] == front; }
    }
  }

  lemma OnlyOfOne(op: Op, ids: set<nat>)
    ensures Only([op], ids) == if op.id in ids then [op] else []
  {
    assert [op][..0] == [];
  }

  lemma OnlyAfterHoisting(ops: seq<Op>, gone: set<nat>, call: Op, sub: map<Value, Value>, ids: set<nat>)
    requires gone !! ids && call.id !in ids && Untouched(Only(ops, ids), sub)
    ensures Only(HoistedBody(ops, gone, call, sub), ids) == Only(ops, ids)
  {
    var n := CallPosition(ops);
    assert ops == ops[..n] + ops[n..];
    OnlyConcat(ops[..n], ops[n..], ids);
    OnlyAfterErasing(ops[..n], sub, gone, ids);
    OnlyAfterErasing(ops[n..], sub, gone, ids);
    UntouchedSame(Only(ops[..n], ids), sub);
    UntouchedSame(Only(ops[n..], ids), sub);
    OnlyOfOne(call, ids);
    var a, c := Without(RenamedOps(ops[..n], sub), gone), Without(RenamedOps(ops[n..], sub), gone);
    OnlyConcat(a, [call], ids);
    OnlyConcat(a + [call], c, ids);
  }

  lemma SurvivesErasing(ops: seq<Op>, sub: map<Value, Value>, gone: set<nat>, op: Op)
    requires op in ops && op.id !in gone
    ensures RenamedOp(op, sub) in Without(RenamedOps(ops, sub), gone)
  {
    var k :| 0 <= k < |ops| && ops[k] == op;
    assert RenamedOps(ops, sub)[k] == RenamedOp(op, sub);
  }

  lemma Survives(ops: seq<Op>, gone: set<nat>, call: Op, sub: map<Value, Value>, op: Op)
    requires op in ops && op.id !in gone
    ensures RenamedOp(op, sub) in HoistedBody(ops, gone, call, sub)
  {
    var n := CallPosition(ops);
    assert ops == ops[..n] + ops[n..];
    if op in ops[..n] { SurvivesErasing(ops[..n], sub, gone, op); } else { SurvivesErasing(ops[n..], sub, gone, op); }
  }

  /** The shared ops are still there. */
  lemma SharedIdsStay(ops: seq<Op>, gone: set<nat>, call: Op, sub: map<Value, Value>)
    requires gone !! SharedIds(ops) && !call.shared
    ensures SharedIds(HoistedBody(ops, gone, call, sub)) == SharedIds(ops)
  {
    var body := HoistedBody(ops, gone, call, sub);
    forall i | i in SharedIds(body) ensures i in SharedIds(ops) {
      var op' :| op' in body && op'.shared && op'.id == i;
      HoistedOps(ops, gone, call, sub, op');
    }
    forall i | i in SharedIds(ops) ensures i in SharedIds(body) {
      var op :| op in ops && op.shared && op.id == i;
      Survives(ops, gone, call, sub, op);
    }
  }

  lemma SharedTakeNothing(ops: seq<Op>, sub: map<Value, Value>)
    requires UniqueIds(ops) && AllLegal(ops)
    ensures Untouched(SharedOps(ops), sub)
  {
    forall op | op in SharedOps(ops) ensures op.operands == [] {
      var shared :| shared in ops && shared.shared && shared.id == op.id;
      SameId(ops, op, shared);
    }
  }

  /** No op of another subgraph uses what this one defines. */
  lemma OthersUntouched(f: Func, sg: Subgraph, other: Subgraph, callId: nat)
    requires WellFormed(f) && IsSubgraph(f, sg) && IsSubgraph(f, other) && Apart(sg, other)
    ensures Untouched(Members(other), CallResults(BoundaryOutputs(f, sg), callId))
  {
    OutputsOf(f, sg);
    MembersDistinct(f, sg);
    forall op, v | op in Members(other) && v in op.operands ensures v !in BoundaryOutputs(f, sg) {
      assert OperandsInside(f, other, op) && Inside(f, other, v);
    }
  }

  /** The function after replacing a subgraph by a call. */
  function Carved(f: Func, sg: Subgraph, callee: string, callId: nat): Func {
    Hoisted(f, Ids(sg.ops) + Ids(sg.loadCachedOps), BoundaryInputs(f, sg), BoundaryOutputs(f, sg), callee, callId)
  }

  lemma SharedOpsStay(f: Func, sg: Subgraph, callee: string, callId: nat)
    requires WellFormed(f) && AllLegal(f.body) && IsSubgraph(f, sg) && forall op :: op in f.body ==> op.id != callId
    ensures SharedIds(Carved(f, sg, callee, callId).body) == SharedIds(f.body)
    ensures SharedOps(Carved(f, sg, callee, callId).body) == SharedOps(f.body)
  {
    var ids, inputs, outputs := Ids(sg.ops) + Ids(sg.loadCachedOps), BoundaryInputs(f, sg), BoundaryOutputs(f, sg);
    var sub, call := CallResults(outputs, callId), CallOp(f.body, callee, inputs, outputs, callId);
    MembersDistinct(f, sg);
    SharedIdsStay(f.body, ids, call, sub);
    SharedTakeNothing(f.body, sub);
    OnlyAfterHoisting(f.body, ids, call, sub, SharedIds(f.body));
  }

  lemma ClosedStays(f: Func, g: Func, sg: Subgraph)
    requires ClosedSubgraph(f, sg) && SharedIds(f.body) == SharedIds(g.body) && f.args == g.args
    ensures ClosedSubgraph(g, sg)
  {
    forall op | op in Members(sg) ensures OperandsInside(g, sg, op) {
      assert OperandsInside(f, sg, op);
      forall v | v in op.operands ensures Inside(g, sg, v) { assert Inside(f, sg, v); }
    }
  }

  lemma PartStays(f: Func, sg: Subgraph, part: seq<Op>, callee: string, callId: nat)
    requires Only(f.body, Ids(part)) == part && Ids(part) !! Ids(sg.ops) + Ids(sg.loadCachedOps) && callId !in Ids(part)
    requires Untouched(part, CallResults(BoundaryOutputs(f, sg), callId))
    ensures Only(Carved(f, sg, callee, callId).body, Ids(part)) == part
  {
    var inputs, outputs := BoundaryInputs(f, sg), BoundaryOutputs(f, sg);
    var sub, call := CallResults(outputs, callId), CallOp(f.body, callee, inputs, outputs, callId);
    OnlyAfterHoisting(f.body, Ids(sg.ops) + Ids(sg.loadCachedOps), call, sub, Ids(part));
  }

  lemma ApartParts(f: Func, sg: Subgraph, other: Subgraph, callId: nat)
    requires IsSubgraph(f, other) && Apart(sg, other) && forall op :: op in f.body ==> op.id != callId
    ensures Ids(other.ops) !! Ids(sg.ops) + Ids(sg.loadCachedOps) && callId !in Ids(other.ops)
    ensures Ids(other.loadCachedOps) !! Ids(sg.ops) + Ids(sg.loadCachedOps) && callId !in Ids(other.loadCachedOps)
  {
    forall op | op in Members(other) ensures op in f.body { }
  }

  lemma OtherSubgraphStays(f: Func, sg: Subgraph, other: Subgraph, callee: string, callId: nat)
    requires WellFormed(f) && AllLegal(f.body) && IsSubgraph(f, sg) && forall op :: op in f.body ==> op.id != callId
    requires IsSubgraph(f, other) && Apart(sg, other)
    ensures IsSubgraph(Carved(f, sg, callee, callId), other)
  {
    SharedOpsStay(f, sg, callee, callId);
    OthersUntouched(f, sg, other, callId);
    ApartParts(f, sg, other, callId);
    PartStays(f, sg, other.ops, callee, callId);
    PartStays(f, sg, other.loadCachedOps, callee, callId);
    ClosedStays(f, Carved(f, sg, callee, callId), other);
  }

  lemma RenamedLegal(op: Op, sub: map<Value, Value>)
    requires Legal(op) && forall v :: v in sub ==> v.Res?
    ensures Legal(RenamedOp(op, sub))
  {
    forall v' | v' in RenamedAll(op.operands, sub) && op.kind.LoadCached? ensures v'.Arg? {
      var k :| 0 <= k < |op.operands| && RenamedAll(op.operands, sub)[k] == v';
      assert op.operands[k] in op.operands;
    }
  }

  lemma CarvedLegal(f: Func, sg: Subgraph, callee: string, callId: nat)
    requires WellFormed(f) && AllLegal(f.body) && IsSubgraph(f, sg)
    ensures AllLegal(Carved(f, sg, callee, callId).body)
  {
    var ids, inputs, outputs := Ids(sg.ops) + Ids(sg.loadCachedOps), BoundaryInputs(f, sg), BoundaryOutputs(f, sg);
    var sub, call := CallResults(outputs, callId), CallOp(f.body, callee, inputs, outputs, callId);
    OutputsOf(f, sg);
    forall op' | op' in Carved(f, sg, callee, callId).body ensures Legal(op') {
      HoistedOps(f.body, ids, call, sub, op');
      if op' != call {
        var op :| op in f.body && op.id !in ids && op' == RenamedOp(op, sub);
        RenamedLegal(op, sub);
      }
    }
  }
}
