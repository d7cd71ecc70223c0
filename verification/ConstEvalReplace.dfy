/** Cutting a subgraph out of its function: finding its boundary (collectSubgraphBoundary) and
    replacing its ops by a call (replaceOpsWithCall). */
module ConstEvalReplace {
  import opened Common
  import opened Ir
  import opened Rewrite
  import opened ConstEvalSubgraphs

  // ----- The boundary -----

  method CollectInputs(args: seq<nat>, inputParameters: set<nat>) returns (inputs: seq<Value>)
    ensures inputs == Inputs(args, inputParameters)
  {
    inputs := [];
    for i := 0 to |args|
      invariant inputs == Inputs(args[..i], inputParameters)
    {
      assert args[..i + 1][..i] == args[..i];
      if args[i] in inputParameters { inputs := inputs + [Arg(args[i])]; }
    }
    assert args[..|args|] == args;
  }

  /** The list holds block arguments, by ascending argument number. */
  ghost predicate Ascending(args: seq<nat>, listed: seq<Value>, at: seq<nat>) {
    && |at| == |listed|
    && (forall m :: 0 <= m < |at| ==> at[m] < |args| && listed[m] == Arg(args[at[m]]))
    && (forall m, n :: 0 <= m < n < |at| ==> at[m] < at[n])
  }

  ghost predicate Lists(args: seq<nat>, parameters: set<nat>, listed: seq<Value>) {
    forall v: Value :: v in listed <==> v.Arg? && v.id in args && v.id in parameters
  }

  /** Sorting the parameters by argument number and dropping repeats leaves no choice. */
  lemma {:induction false} InputsSorted(args: seq<nat>, parameters: set<nat>, listed: seq<Value>, at: seq<nat>)
    requires NoDuplicates(args) && Ascending(args, listed, at) && Lists(args, parameters, listed)
    ensures listed == Inputs(args, parameters)
  {
    if args == [] {
      Occurs(listed);
    } else if args[|args| - 1] in parameters {
      LastListed(args, parameters, listed, at);
      DropLast(args, parameters, listed, at);
      InputsSorted(args[..|args| - 1], parameters, listed[..|listed| - 1], at[..|at| - 1]);
      assert listed == listed[..|listed| - 1] + [listed[|listed| - 1]];
    } else {
      LastUnlisted(args, parameters, listed, at);
      InputsSorted(args[..|args| - 1], parameters, listed, at);
    }
  }

  lemma LastListed(args: seq<nat>, parameters: set<nat>, listed: seq<Value>, at: seq<nat>)
    requires Ascending(args, listed, at) && Lists(args, parameters, listed) && NoDuplicates(args)
    requires args != [] && args[|args| - 1] in parameters
    ensures listed != [] && at[|at| - 1] == |args| - 1 && listed[|listed| - 1] == Arg(args[|args| - 1])
  {
    var n := |args| - 1;
    assert args[n] in args && Arg(args[n]) in listed;
    var m :| 0 <= m < |listed| && listed[m] == Arg(args[n]);
    assert at[m] == n;
    assert at[|at| - 1] < |args|;
  }

  lemma LastUnlisted(args: seq<nat>, parameters: set<nat>, listed: seq<Value>, at: seq<nat>)
    requires Ascending(args, listed, at) && Lists(args, parameters, listed)
    requires args != [] && args[|args| - 1] !in parameters
    ensures Ascending(args[..|args| - 1], listed, at) && Lists(args[..|args| - 1], parameters, listed)
  {
    var n := |args| - 1;
    assert args == args[..n] + [args[n]];
    forall m | 0 <= m < |at| ensures at[m] < n { assert listed[m] in listed; }
  }

  /** Where the last argument is listed last, both lists may be cut there. */
  lemma DropLast(args: seq<nat>, parameters: set<nat>, listed: seq<Value>, at: seq<nat>)
    requires Ascending(args, listed, at) && Lists(args, parameters, listed) && NoDuplicates(args)
    requires args != [] && listed != [] && at[|at| - 1] == |args| - 1
    ensures Ascending(args[..|args| - 1], listed[..|listed| - 1], at[..|at| - 1])
    ensures Lists(args[..|args| - 1], parameters, listed[..|listed| - 1])
  {
    forall v: Value ensures v in listed[..|listed| - 1] <==>
        v.Arg? && v.id in args[..|args| - 1] && v.id in parameters
    {
      ListedBefore(args, listed, at, v);
      if v.Arg? { ArgumentBefore(args, v); }
      assert v in listed <==> v.Arg? && v.id in args && v.id in parameters;
    }
  }

  /** Of what is listed, only the last argument is not listed before it. */
  lemma ListedBefore(args: seq<nat>, listed: seq<Value>, at: seq<nat>, v: Value)
    requires Ascending(args, listed, at) && NoDuplicates(args)
    requires args != [] && listed != [] && at[|at| - 1] == |args| - 1
    ensures v in listed[..|listed| - 1] <==> v in listed && v != Arg(args[|args| - 1])
  {
    var last := |listed| - 1;
    assert listed == listed[..last] + [listed[last]];
    if v in listed[..last] {
      var m :| 0 <= m < last && listed[..last][m] == v;
      assert listed[m] == Arg(args[at[m]]) && at[m] < at[last];
    }
  }

  lemma ArgumentBefore(args: seq<nat>, v: Value)
    requires NoDuplicates(args) && args != [] && v.Arg?
    ensures v.id in args[..|args| - 1] <==> v.id in args && v != Arg(args[|args| - 1])
  {
    var n := |args| - 1;
    assert args == args[..n] + [args[n]];
  }

  method IsUsedOutside(f: Func, opSet: set<nat>, result: Value) returns (outside: bool)
    ensures outside <==> UsedOutside(f, opSet, result)
  {
    for k := 0 to |f.body|
      invariant forall user :: user in f.body[..k] && user.id !in opSet ==> result !in user.operands
    {
      var user := f.body[k];
      if result in user.operands && user.id !in opSet {
        assert user in f.body;
        return true;
      }
    }
    assert f.body[..|f.body|] == f.body;
    return result in f.outs;
  }

  method CollectOpOutputs(f: Func, opSet: set<nat>, op: Op, before: seq<Value>) returns (outputs: seq<Value>)
    ensures outputs == before + UsedResults(f, opSet, op, op.numResults)
  {
    outputs := before;
    for i := 0 to op.numResults
      invariant outputs == before + UsedResults(f, opSet, op, i)
    {
      var result := Res(op.id, i);
      var outside := IsUsedOutside(f, opSet, result);
      if outside { outputs := outputs + [result]; }
    }
  }

  method CollectOutputs(f: Func, opSet: set<nat>, ops: seq<Op>) returns (outputs: seq<Value>)
    ensures outputs == Outputs(f, opSet, ops)
  {
    outputs := [];
    for k := 0 to |ops|
      invariant outputs == Outputs(f, opSet, ops[..k])
    {
      assert ops[..k + 1][..k] == ops[..k];
      outputs := CollectOpOutputs(f, opSet, ops[k], outputs);
    }
    assert ops[..|ops|] == ops;
  }

  method CollectSubgraphBoundary(f: Func, sg: Subgraph) returns (inputs: seq<Value>, outputs: seq<Value>)
    ensures inputs == BoundaryInputs(f, sg) && outputs == BoundaryOutputs(f, sg)
  {
    inputs := CollectInputs(f.args, sg.inputParameters);
    var opSet := Ids(sg.ops);
    var own := CollectOutputs(f, opSet, sg.ops);
    var called := CollectOutputs(f, opSet, sg.loadCachedOps);
    outputs := own + called;
  }

  // ----- No erased op still has a use -----

  /** The function with the call in place and the outputs redirected, before anything is
      erased. */
  function CallInserted(f: Func, call: Op): Func {
    var n := CallPosition(f.body);
    f.(body := f.body[..n] + [call] + f.body[n..])
  }

  function CallFor(f: Func, sg: Subgraph, callee: string, callId: nat): Op {
    CallOp(f.body, callee, BoundaryInputs(f, sg), BoundaryOutputs(f, sg), callId)
  }

  function CallUsed(f: Func, sg: Subgraph, callee: string, callId: nat): Func {
    Redirected(CallInserted(f, CallFor(f, sg, callee, callId)), CallResults(BoundaryOutputs(f, sg), callId))
  }

  ghost predicate Replaceable(f: Func, sg: Subgraph, callId: nat) {
    WellFormed(f) && AllLegal(f.body) && IsSubgraph(f, sg) && forall op :: op in f.body ==> op.id != callId
  }

  /** Whatever still uses a value of the subgraph, once the outputs are redirected, belongs to
      the subgraph. */
  lemma UserInside(f: Func, sg: Subgraph, callId: nat, op: Op, v: Value)
    requires Replaceable(f, sg, callId) && op in f.body && v in op.operands
    requires v !in BoundaryOutputs(f, sg) && DefinedBy(v, Ids(sg.ops) + Ids(sg.loadCachedOps))
    ensures op in sg.ops
  {
    OperandsInScope(f, op);
    OutputsOf(f, sg);
    assert !UsedOutside(f, Ids(sg.ops), v);
    assert op.id in Ids(sg.ops);
    assert op in Only(f.body, Ids(sg.ops));
  }

  lemma EarlierDefs(ops: seq<Op>, j: nat, k: nat, v: Value)
    requires UniqueIds(ops) && j <= k < |ops| && v in Defs(ops[..j])
    ensures !DefinedBy(v, {ops[k].id})
  {
    var e := DefiningOp(ops[..j], v);
    var i :| 0 <= i < j && ops[..j][i] == e;
  }

  /** The subgraph's ops are in order behind everything it does not define. */
  lemma SubgraphInOrder(f: Func, sg: Subgraph)
    requires WellFormed(f) && IsSubgraph(f, sg)
    ensures Ordered(ArgValues(f.args) + (Defs(f.body) - Defs(sg.ops)), sg.ops)
  {
    var scope := ArgValues(f.args) + (Defs(f.body) - Defs(sg.ops));
    OnlyDefs(f.body, Ids(sg.ops));
    forall op, u | op in f.body && op.id in Ids(sg.ops) && u in op.operands
      ensures u in scope || DefinedBy(u, Ids(sg.ops))
    {
      OperandsInScope(f, op);
    }
    OnlyOrdered(ArgValues(f.args), scope, f.body, Ids(sg.ops));
  }

  /** Inside the subgraph, ops use earlier ones. */
  lemma UsesEarlier(f: Func, sg: Subgraph, j: nat, k: nat, v: Value)
    requires WellFormed(f) && IsSubgraph(f, sg) && j <= k < |sg.ops| && v in sg.ops[j].operands
    ensures !DefinedBy(v, {sg.ops[k].id})
  {
    MembersDistinct(f, sg);
    SubgraphInOrder(f, sg);
    assert InScope(ArgValues(f.args) + (Defs(f.body) - Defs(sg.ops)), sg.ops, j);
    if v in Defs(sg.ops[..j]) {
      EarlierDefs(sg.ops, j, k, v);
    } else {
      OnlyDefs(f.body, Ids(sg.ops));
      assert sg.ops[k] in sg.ops;
    }
  }

  ghost predicate NoUse(vs: seq<Value>, id: nat) {
    forall v :: v in vs ==> !DefinedBy(v, {id})
  }

  lemma RedirectedNoUse(f: Func, sg: Subgraph, callId: nat, vs: seq<Value>, id: nat)
    requires id != callId && forall v :: v in vs && DefinedBy(v, {id}) ==> v in BoundaryOutputs(f, sg)
    ensures NoUse(RenamedAll(vs, CallResults(BoundaryOutputs(f, sg), callId)), id)
  {
    var sub := CallResults(BoundaryOutputs(f, sg), callId);
    forall v' | v' in RenamedAll(vs, sub) ensures !DefinedBy(v', {id}) {
      var k :| 0 <= k < |vs| && RenamedAll(vs, sub)[k] == v';
      assert vs[k] in vs;
      if vs[k] in sub { assert IsResultFor(sub[vs[k]], vs[k], BoundaryOutputs(f, sg), callId); }
    }
  }

  ghost predicate FromOp(f: Func, sg: Subgraph, callId: nat, op': Op) {
    exists op :: op in f.body && op' == RenamedOp(op, CallResults(BoundaryOutputs(f, sg), callId))
  }

  lemma UsedOps(f: Func, sg: Subgraph, callee: string, callId: nat, op': Op)
    requires op' in CallUsed(f, sg, callee, callId).body
    ensures !FromOp(f, sg, callId, op') ==>
            op'.operands == RenamedAll(BoundaryInputs(f, sg), CallResults(BoundaryOutputs(f, sg), callId))
  {
    var call, sub, n := CallFor(f, sg, callee, callId), CallResults(BoundaryOutputs(f, sg), callId),
      CallPosition(f.body);
    var ops := f.body[..n] + [call] + f.body[n..];
    var k :| 0 <= k < |ops| && RenamedOps(ops, sub)[k] == op';
    assert ops[k] in ops;
    if ops[k] != call { assert ops[k] in f.body; }
  }

  /** What may be left when op k of the subgraph is erased. */
  ghost predicate LeftAt(f: Func, sg: Subgraph, callee: string, callId: nat, g: Func, k: nat)
    requires k < |sg.ops|
  {
    && g.outs == CallUsed(f, sg, callee, callId).outs
    && forall op :: op in g.body ==> op in CallUsed(f, sg, callee, callId).body && op.id !in Ids(sg.ops[k + 1..])
  }

  lemma OutsNoUse(f: Func, sg: Subgraph, callee: string, callId: nat, id: nat)
    requires Replaceable(f, sg, callId) && id in Ids(sg.ops) + Ids(sg.loadCachedOps)
    ensures id != callId && NoUse(CallUsed(f, sg, callee, callId).outs, id)
  {
    OutputsOf(f, sg);
    MemberInBody(f, sg, id);
    forall v | v in f.outs && DefinedBy(v, {id}) ensures v in BoundaryOutputs(f, sg) { }
    RedirectedNoUse(f, sg, callId, f.outs, id);
  }

  lemma MemberInBody(f: Func, sg: Subgraph, id: nat)
    requires IsSubgraph(f, sg) && id in Ids(sg.ops) + Ids(sg.loadCachedOps)
    ensures exists op :: op in f.body && op.id == id
  {
    if id in Ids(sg.ops) {
      var op :| op in sg.ops && op.id == id;
      assert op in Only(f.body, Ids(sg.ops));
    } else {
      var op :| op in sg.loadCachedOps && op.id == id;
      assert op in Only(f.body, Ids(sg.loadCachedOps));
    }
  }

  lemma InputsNoUse(f: Func, sg: Subgraph, callId: nat, id: nat)
    requires id != callId
    ensures NoUse(RenamedAll(BoundaryInputs(f, sg), CallResults(BoundaryOutputs(f, sg), callId)), id)
  {
    RedirectedNoUse(f, sg, callId, BoundaryInputs(f, sg), id);
  }

  lemma MemberNoUse(f: Func, sg: Subgraph, op: Op, k: nat, v: Value)
    requires WellFormed(f) && IsSubgraph(f, sg) && op in sg.ops && k < |sg.ops| && op.id !in Ids(sg.ops[k + 1..])
    requires v in op.operands
    ensures !DefinedBy(v, {sg.ops[k].id})
  {
    forall i | k < i < |sg.ops| ensures sg.ops[i] in sg.ops[k + 1..] { assert sg.ops[k + 1..][i - k - 1] == sg.ops[i]; }
    var j :| 0 <= j < |sg.ops| && sg.ops[j] == op;
    UsesEarlier(f, sg, j, k, v);
  }

  lemma OpNoUse(f: Func, sg: Subgraph, callId: nat, op: Op, k: nat)
    requires Replaceable(f, sg, callId) && op in f.body && k < |sg.ops| && op.id !in Ids(sg.ops[k + 1..])
    ensures NoUse(RenamedAll(op.operands, CallResults(BoundaryOutputs(f, sg), callId)), sg.ops[k].id)
  {
    var id := sg.ops[k].id;
    assert sg.ops[k] in sg.ops && sg.ops[k] in f.body;
    forall v | v in op.operands && DefinedBy(v, {id}) ensures v in BoundaryOutputs(f, sg) {
      if v !in BoundaryOutputs(f, sg) {
        UserInside(f, sg, callId, op, v);
        MemberNoUse(f, sg, op, k, v);
        assert false;
      }
    }
    RedirectedNoUse(f, sg, callId, op.operands, id);
  }

  lemma MemberUnused(f: Func, sg: Subgraph, callee: string, callId: nat, g: Func, k: nat)
    requires Replaceable(f, sg, callId) && k < |sg.ops| && LeftAt(f, sg, callee, callId, g, k)
    ensures Unused(g, sg.ops[k].id)
  {
    var id := sg.ops[k].id;
    assert sg.ops[k] in sg.ops;
    OutsNoUse(f, sg, callee, callId, id);
    forall op' | op' in g.body ensures NoUse(op'.operands, id) {
      UsedOps(f, sg, callee, callId, op');
      if FromOp(f, sg, callId, op') {
        var op :| op in f.body && op' == RenamedOp(op, CallResults(BoundaryOutputs(f, sg), callId));
        OpNoUse(f, sg, callId, op, k);
      } else {
        InputsNoUse(f, sg, callId, id);
      }
    }
    forall op' | op' in g.body ensures forall v :: v in op'.operands ==> !DefinedBy(v, {id}) {
      assert NoUse(op'.operands, id);
    }
  }

  /** Once the ops are gone, nothing uses the old calls either. */
  lemma CallUnused(f: Func, sg: Subgraph, callee: string, callId: nat, g: Func, call: Op)
    requires Replaceable(f, sg, callId) && call in sg.loadCachedOps
    requires g.outs == CallUsed(f, sg, callee, callId).outs
    requires forall op :: op in g.body ==> op in CallUsed(f, sg, callee, callId).body && op.id !in Ids(sg.ops)
    ensures Unused(g, call.id)
  {
    OutsNoUse(f, sg, callee, callId, call.id);
    forall op' | op' in g.body ensures forall v :: v in op'.operands ==> !DefinedBy(v, {call.id}) {
      UsedOps(f, sg, callee, callId, op');
      if FromOp(f, sg, callId, op') {
        var op :| op in f.body && op' == RenamedOp(op, CallResults(BoundaryOutputs(f, sg), callId));
        OtherNoUse(f, sg, callId, op, call);
        assert NoUse(op'.operands, call.id);
      } else {
        InputsNoUse(f, sg, callId, call.id);
        assert NoUse(op'.operands, call.id);
      }
    }
  }

  lemma OtherNoUse(f: Func, sg: Subgraph, callId: nat, op: Op, call: Op)
    requires Replaceable(f, sg, callId) && call in sg.loadCachedOps && op in f.body && op.id !in Ids(sg.ops)
    ensures NoUse(RenamedAll(op.operands, CallResults(BoundaryOutputs(f, sg), callId)), call.id)
  {
    MemberInBody(f, sg, call.id);
    forall v | v in op.operands && DefinedBy(v, {call.id}) ensures v in BoundaryOutputs(f, sg) {
      OutputsOf(f, sg);
      OperandsInScope(f, op);
    }
    RedirectedNoUse(f, sg, callId, op.operands, call.id);
  }

  // ----- Replacing -----

  lemma RenamedConcat(a: seq<Op>, b: seq<Op>, sub: map<Value, Value>)
    ensures RenamedOps(a + b, sub) == RenamedOps(a, sub) + RenamedOps(b, sub)
  {
  }

  /** The call itself reads block arguments, which nothing renames. */
  lemma CallStays(f: Func, sg: Subgraph, callee: string, callId: nat)
    requires Replaceable(f, sg, callId)
    ensures RenamedOp(CallFor(f, sg, callee, callId), CallResults(BoundaryOutputs(f, sg), callId))
      == CallFor(f, sg, callee, callId)
  {
    var inputs, sub := BoundaryInputs(f, sg), CallResults(BoundaryOutputs(f, sg), callId);
    OutputsOf(f, sg);
    forall k | 0 <= k < |inputs| ensures inputs[k] !in sub { assert inputs[k] in inputs; }
    assert RenamedAll(inputs, sub) == inputs;
  }

  lemma WithoutThree(a: seq<Op>, call: Op, c: seq<Op>, sub: map<Value, Value>, ids: set<nat>)
    requires call.id !in ids && RenamedOp(call, sub) == call
    ensures Without(RenamedOps(a + [call] + c, sub), ids)
      == Without(RenamedOps(a, sub), ids) + [call] + Without(RenamedOps(c, sub), ids)
  {
    RenamedConcat(a, [call], sub);
    RenamedConcat(a + [call], c, sub);
    assert RenamedOps([call], sub) == [call];
    WithoutConcat(RenamedOps(a, sub), [call], ids);
    WithoutConcat(RenamedOps(a, sub) + [call], RenamedOps(c, sub), ids);
    WithoutOne(call, ids);
  }

  /** Erasing after redirecting gives the body that hoisting describes. */
  lemma ErasedBody(f: Func, sg: Subgraph, callee: string, callId: nat, ids: set<nat>)
    requires Replaceable(f, sg, callId) && callId !in ids
    ensures Without(CallUsed(f, sg, callee, callId).body, ids)
      == HoistedBody(f.body, ids, CallFor(f, sg, callee, callId), CallResults(BoundaryOutputs(f, sg), callId))
  {
    var n := CallPosition(f.body);
    CallStays(f, sg, callee, callId);
    WithoutThree(f.body[..n], CallFor(f, sg, callee, callId), f.body[n..],
      CallResults(BoundaryOutputs(f, sg), callId), ids);
  }

  lemma WithoutOne(op: Op, ids: set<nat>)
    requires op.id !in ids
    ensures Without([op], ids) == [op]
  {
    assert [op][..0] == [];
  }

  method FindCallPosition(ops: seq<Op>) returns (iter: nat)
    ensures iter == CallPosition(ops)
  {
    iter := 0;
    assert ops[0..] == ops;
    while iter < |ops| && ops[iter].kind.LoadCached?
      invariant iter <= |ops| && CallPosition(ops) == iter + CallPosition(ops[iter..])
    {
      assert ops[iter..][1..] == ops[iter + 1..] && ops[iter..][0] == ops[iter];
      iter := iter + 1;
    }
  }

  lemma CallResultsStep(outputs: seq<Value>, i: nat, callId: nat)
    requires i < |outputs| && NoDuplicates(outputs) && forall v :: v in outputs ==> !DefinedBy(v, {callId})
    ensures Chains(CallResults(outputs[..i], callId), map[outputs[i] := Res(callId, i)])
    ensures CallResults(outputs[..i], callId) + map[outputs[i] := Res(callId, i)]
      == CallResults(outputs[..i + 1], callId)
  {
    var front := outputs[..i];
    assert outputs[..i + 1][..i] == front;
    assert outputs[i] in outputs;
    forall v | v in CallResults(front, callId) ensures CallResults(front, callId)[v] != outputs[i] {
      assert IsResultFor(CallResults(front, callId)[v], v, front, callId);
    }
  }

  method ReplaceUses(f: Func, outputs: seq<Value>, callId: nat) returns (r: Func)
    requires NoDuplicates(outputs) && forall v :: v in outputs ==> !DefinedBy(v, {callId})
    ensures r == Redirected(f, CallResults(outputs, callId))
  {
    r := f;
    RedirectedNone(f);
    for i := 0 to |outputs|
      invariant r == Redirected(f, CallResults(outputs[..i], callId))
    {
      CallResultsStep(outputs, i, callId);
      RedirectedTwice(f, CallResults(outputs[..i], callId), map[outputs[i] := Res(callId, i)]);
      r := Redirected(r, map[outputs[i] := Res(callId, i)]);
    }
    assert outputs[..|outputs|] == outputs;
  }

  lemma OutputsNotOfCall(f: Func, sg: Subgraph, callId: nat)
    requires Replaceable(f, sg, callId)
    ensures NoDuplicates(BoundaryOutputs(f, sg)) && forall v :: v in BoundaryOutputs(f, sg) ==> !DefinedBy(v, {callId})
    ensures callId !in Ids(sg.ops) + Ids(sg.loadCachedOps)
  {
    OutputsOf(f, sg);
    forall id | id in Ids(sg.ops) + Ids(sg.loadCachedOps) ensures id != callId { MemberInBody(f, sg, id); }
  }

  /** The subgraph's ops replaced by a call of `callee`; its own calls are still there. */
  method ReplaceOpsWithCall(f: Func, callee: string, sg: Subgraph, inputs: seq<Value>, outputs: seq<Value>,
                            callId: nat) returns (r: Func)
    requires Replaceable(f, sg, callId) && inputs == BoundaryInputs(f, sg) && outputs == BoundaryOutputs(f, sg)
    ensures r == Hoisted(f, Ids(sg.ops), inputs, outputs, callee, callId)
    ensures r == WithoutOps(CallUsed(f, sg, callee, callId), Ids(sg.ops))
  {
    var iter := FindCallPosition(f.body);
    var call := CallOp(f.body, callee, inputs, outputs, callId);
    r := f.(body := f.body[..iter] + [call] + f.body[iter..]);
    OutputsNotOfCall(f, sg, callId);
    r := ReplaceUses(r, outputs, callId);
    r := EraseOps(f, sg, callee, callId, r);
    ErasedBody(f, sg, callee, callId, Ids(sg.ops));
  }

  /** The ids of the ops from the k-th on. */
  lemma IdsFrom(ops: seq<Op>, k: nat)
    requires k < |ops|
    ensures Ids(ops[k..]) == Ids(ops[k + 1..]) + {ops[k].id}
  {
    assert ops[k..] == [ops[k]] + ops[k + 1..];
  }

  lemma EraseLast(ops: seq<Op>, members: seq<Op>, k: nat)
    requires k < |members|
    ensures Without(Without(ops, Ids(members[k + 1..])), {members[k].id}) == Without(ops, Ids(members[k..]))
  {
    WithoutTwice(ops, Ids(members[k + 1..]), {members[k].id});
    IdsFrom(members, k);
  }

  function WithoutOps(used: Func, ids: set<nat>): Func {
    used.(body := Without(used.body, ids))
  }

  /** The function with the ops from the k-th on erased. */
  function ErasedFrom(used: Func, ops: seq<Op>, k: nat): Func
    requires k <= |ops|
  {
    WithoutOps(used, Ids(ops[k..]))
  }

  lemma ReadyToErase(f: Func, sg: Subgraph, callee: string, callId: nat, k: nat)
    requires Replaceable(f, sg, callId) && k < |sg.ops|
    ensures Unused(ErasedFrom(CallUsed(f, sg, callee, callId), sg.ops, k + 1), sg.ops[k].id)
  {
    MemberUnused(f, sg, callee, callId, ErasedFrom(CallUsed(f, sg, callee, callId), sg.ops, k + 1), k);
  }

  /** The ops go in reverse order, each once nothing uses it any more. */
  method EraseOps(f: Func, sg: Subgraph, callee: string, callId: nat, used: Func) returns (r: Func)
    requires Replaceable(f, sg, callId) && used == CallUsed(f, sg, callee, callId)
    ensures r == WithoutOps(used, Ids(sg.ops))
  {
    r := used;
    var it := |sg.ops|;
    WithoutNone(used.body);
    assert Ids(sg.ops[it..]) == {};
    while it > 0
      invariant it <= |sg.ops| && r == ErasedFrom(used, sg.ops, it)
    {
      it := it - 1;
      ReadyToErase(f, sg, callee, callId, it);
      EraseLast(used.body, sg.ops, it);
      r := Erased(r, sg.ops[it].id);
    }
    assert sg.ops[0..] == sg.ops;
  }

  /** The ids of the ops and of the first k calls. */
  function GoneAfter(sg: Subgraph, k: nat): set<nat>
    requires k <= |sg.loadCachedOps|
  {
    Ids(sg.ops) + Ids(sg.loadCachedOps[..k])
  }

  lemma NoCallGone(sg: Subgraph)
    ensures GoneAfter(sg, 0) == Ids(sg.ops)
  {
  }

  lemma AllCallsGone(sg: Subgraph)
    ensures GoneAfter(sg, |sg.loadCachedOps|) == Ids(sg.ops) + Ids(sg.loadCachedOps)
  {
    assert sg.loadCachedOps[..|sg.loadCachedOps|] == sg.loadCachedOps;
  }

  lemma GoneNext(sg: Subgraph, k: nat)
    requires k < |sg.loadCachedOps|
    ensures GoneAfter(sg, k + 1) == GoneAfter(sg, k) + {sg.loadCachedOps[k].id}
  {
    assert sg.loadCachedOps[..k + 1] == sg.loadCachedOps[..k] + [sg.loadCachedOps[k]];
  }

  lemma EraseFront(ops: seq<Op>, sg: Subgraph, k: nat)
    requires k < |sg.loadCachedOps|
    ensures Without(Without(ops, GoneAfter(sg, k)), {sg.loadCachedOps[k].id}) == Without(ops, GoneAfter(sg, k + 1))
  {
    GoneNext(sg, k);
    WithoutTwice(ops, GoneAfter(sg, k), {sg.loadCachedOps[k].id});
  }

  lemma CallReadyToErase(f: Func, sg: Subgraph, callee: string, callId: nat, k: nat)
    requires Replaceable(f, sg, callId) && k < |sg.loadCachedOps|
    ensures Unused(WithoutOps(CallUsed(f, sg, callee, callId), GoneAfter(sg, k)), sg.loadCachedOps[k].id)
  {
    CallUnused(f, sg, callee, callId, WithoutOps(CallUsed(f, sg, callee, callId), GoneAfter(sg, k)),
               sg.loadCachedOps[k]);
  }

  lemma AllErased(f: Func, sg: Subgraph, callee: string, callId: nat)
    requires Replaceable(f, sg, callId)
    ensures WithoutOps(CallUsed(f, sg, callee, callId), GoneAfter(sg, |sg.loadCachedOps|))
      == Carved(f, sg, callee, callId)
  {
    AllCallsGone(sg);
    OutputsNotOfCall(f, sg, callId);
    ErasedBody(f, sg, callee, callId, Ids(sg.ops) + Ids(sg.loadCachedOps));
  }

  /** The subgraph's own calls go last. */
  method EraseLoadCachedOps(f: Func, sg: Subgraph, callee: string, callId: nat, replaced: Func, ghost used: Func)
    returns (r: Func)
    requires Replaceable(f, sg, callId) && used == CallUsed(f, sg, callee, callId)
    requires replaced == WithoutOps(used, Ids(sg.ops))
    ensures r == Carved(f, sg, callee, callId)
  {
    r := replaced;
    NoCallGone(sg);
    for k := 0 to |sg.loadCachedOps|
      invariant r == WithoutOps(used, GoneAfter(sg, k))
    {
      CallReadyToErase(f, sg, callee, callId, k);
      EraseFront(used.body, sg, k);
      r := Erased(r, sg.loadCachedOps[k].id);
    }
    AllErased(f, sg, callee, callId);
  }

  /** Without calls of its own, the subgraph is cut out already. */
  lemma CarvedWithoutCalls(f: Func, sg: Subgraph, callee: string, callId: nat)
    requires sg.loadCachedOps == []
    ensures Carved(f, sg, callee, callId)
      == Hoisted(f, Ids(sg.ops), BoundaryInputs(f, sg), BoundaryOutputs(f, sg), callee, callId)
  {
    assert Ids(sg.ops) + Ids(sg.loadCachedOps) == Ids(sg.ops);
  }

  // ----- No output without a use -----

  ghost predicate UsedIn(g: Func, v: Value) {
    v in g.outs || exists user :: user in g.body && v in user.operands
  }

  lemma RenamedUse(vs: seq<Value>, outputs: seq<Value>, callId: nat, i: nat)
    requires i < |outputs| && NoDuplicates(outputs) && outputs[i] in vs
    ensures Res(callId, i) in RenamedAll(vs, CallResults(outputs, callId))
  {
    var sub := CallResults(outputs, callId);
    var k :| 0 <= k < |vs| && vs[k] == outputs[i];
    assert IsResultFor(sub[vs[k]], vs[k], outputs, callId);
    assert RenamedAll(vs, sub)[k] == Res(callId, i);
  }

  /** Every result of the new call is used or returned afterwards. */
  lemma OutputsAreUsed(f: Func, sg: Subgraph, callee: string, callId: nat, i: nat)
    requires Replaceable(f, sg, callId) && i < |BoundaryOutputs(f, sg)|
    ensures UsedIn(Carved(f, sg, callee, callId), Res(callId, i))
  {
    var outputs := BoundaryOutputs(f, sg);
    OutputsOf(f, sg);
    assert outputs[i] in outputs;
    if outputs[i] in f.outs {
      RenamedUse(f.outs, outputs, callId, i);
    } else {
      var user := OutsideUser(f, sg, outputs[i]);
      RenamedUse(user.operands, outputs, callId, i);
      var sub := CallResults(outputs, callId);
      Survives(f.body, Ids(sg.ops) + Ids(sg.loadCachedOps), CallFor(f, sg, callee, callId), sub, user);
      assert Res(callId, i) in RenamedOp(user, sub).operands;
    }
  }

  /** Calls use block arguments only, so whatever uses an output outside is kept. */
  lemma OutsideUser(f: Func, sg: Subgraph, v: Value) returns (user: Op)
    requires WellFormed(f) && AllLegal(f.body) && IsSubgraph(f, sg) && v.Res?
    requires UsedOutside(f, Ids(sg.ops), v) && v !in f.outs
    ensures user in f.body && v in user.operands && user.id !in Ids(sg.ops) + Ids(sg.loadCachedOps)
  {
    user :| user in f.body && user.id !in Ids(sg.ops) && v in user.operands;
    assert user.id in Ids(sg.loadCachedOps) ==> user in Only(f.body, Ids(sg.loadCachedOps));
    assert Legal(user);
  }
}
