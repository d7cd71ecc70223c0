/** Building the new or grown const-eval function, op by op. */
module ConstEvalBuild {
  import opened Common
  import opened Ir
  import opened Rewrite
  import opened ConstEvalClone
  import opened ConstEvalSubgraphs
  import opened ConstEvalCreate
  import opened ConstEvalDedup
  import opened ConstEvalArguments
  import opened ConstEvalGrow

  method MapInputs(inputs: seq<Value>, args: seq<nat>) returns (valueMap: map<Value, Value>)
    requires |inputs| == |args| && NoDuplicates(inputs)
    ensures valueMap == InputMap(inputs, args)
  {
    valueMap := map[];
    for i := 0 to |inputs|
      invariant valueMap == InputMap(inputs[..i], args[..i])
    {
      InputMapStep(inputs, args, i);
      valueMap := valueMap[inputs[i] := Arg(args[i])];
    }
    assert inputs[..|inputs|] == inputs && args[..|args|] == args;
  }

  lemma FreshArgsDistinct(nextId: nat, n: nat)
    ensures FreshBelow(FreshArgs(nextId, n), nextId + n)
  {
    var r := FreshArgs(nextId, n);
    forall i | i in r ensures i < nextId + n { var k :| 0 <= k < |r| && r[k] == i; }
  }

  // ----- A new function -----

  method BuildNewFunction(f: Func, sg: Subgraph, sharedOps: seq<Op>, inputs: seq<Value>, outputs: seq<Value>,
                          firstId: nat)
    returns (newFunc: Func, args: seq<nat>, bodyId: nat, nextId: nat)
    requires WellFormed(f) && AllLegal(f.body) && IsSubgraph(f, sg) && sg.loadCachedOps == []
    requires sharedOps == SharedOps(f.body) && inputs == BoundaryInputs(f, sg) && outputs == BoundaryOutputs(f, sg)
    ensures |args| == |inputs| && FreshBelow(args, bodyId) && firstId <= bodyId
    ensures newFunc == NewFunction(f, sg, args, bodyId)
    ensures nextId == bodyId + |SharedOps(f.body)| + |sg.ops|
  {
    var newArgs := FreshArgs(firstId, |inputs|);
    FreshArgsDistinct(firstId, |inputs|);
    args, bodyId := newArgs, firstId + |inputs|;
    InputsDistinct(f.args, sg.inputParameters);
    var valueMap := MapInputs(inputs, newArgs);
    var builder := new Builder([], firstId + |inputs|);
    NewBodyInOrder(f, sg, args, bodyId);
    valueMap := builder.ProcessOps(sharedOps, valueMap);
    valueMap := builder.ProcessOps(sg.ops, valueMap);
    NewBodySound(f, sg, args, bodyId);
    var returnValues := builder.Remap(outputs, valueMap);
    newFunc := Func(newArgs, builder.block, returnValues, {}, true);
    nextId := builder.nextId;
  }

  // ----- A grown function -----

  lemma InlineAllStep(c: Cloning, calls: seq<Op>, p: Program, k: nat)
    requires k < |calls| && AllResolve(p, calls) && AllPassed(calls, c.valueMap)
    ensures AllResolve(p, calls[..k]) && AllPassed(calls[..k], c.valueMap)
    ensures AllResolve(p, calls[..k + 1]) && AllPassed(calls[..k + 1], c.valueMap)
    ensures Resolves(p, calls[k]) && AllMapped(calls[k].operands, InlineAll(c, calls[..k], p).valueMap)
    ensures InlineAll(c, calls[..k + 1], p) == Inline(InlineAll(c, calls[..k], p), calls[k], p[calls[k].kind.callee])
    ensures calls[..|calls|] == calls
  {
    assert calls[..k + 1][..k] == calls[..k];
    assert calls[k] in calls && AllMapped(calls[k].operands, c.valueMap);
  }

  method InlineOthers(builder: Builder, calls: seq<Op>, p: Program, valueMap: map<Value, Value>)
    returns (updated: map<Value, Value>)
    requires AllResolve(p, calls) && AllPassed(calls, valueMap)
    modifies builder
    ensures builder.State(updated) == InlineAll(old(builder.State(valueMap)), calls, p)
  {
    updated := valueMap;
    ghost var start := builder.State(valueMap);
    for k := 0 to |calls|
      invariant AllResolve(p, calls[..k]) && AllPassed(calls[..k], start.valueMap)
      invariant builder.State(updated) == InlineAll(start, calls[..k], p)
    {
      InlineAllStep(start, calls, p, k);
      updated := builder.CloneConstEvalFunctionBody(calls[k], p[calls[k].kind.callee], updated);
    }
    assert calls[..|calls|] == calls;
  }

  /** The old inputs are among the new ones, in order, so the arguments can be aligned. */
  lemma OldInputsAreSubsequence(f: Func, sg: Subgraph, call: Op)
    requires IsSubgraph(f, sg) && Legal(call) && call in sg.loadCachedOps
    requires TakesInOrder(f.args, call)
    ensures Subsequence(call.operands, BoundaryInputs(f, sg))
  {
    forall i | i in Params(call.operands) ensures i in sg.inputParameters {
      assert call in Members(sg) && OperandsInside(f, sg, call);
      assert Inside(f, sg, Arg(i));
    }
    var at := SortedSubsequence(f.args, Params(call.operands), sg.inputParameters);
    assert Positions(at, call.operands, BoundaryInputs(f, sg));
  }

  /** The function grown so far, on the way from the aligned arguments to the return. */
  method BuildGrownBody(p: Program, f: Func, sg: Subgraph, sharedOps: seq<Op>, args: seq<nat>,
                        valueMap: map<Value, Value>, firstId: nat)
    returns (block: seq<Op>, updated: map<Value, Value>, nextId: nat)
    requires Growable(p, f, sg, args) && sharedOps == SharedOps(f.body)
    requires valueMap == InputMap(BoundaryInputs(f, sg), args)
    ensures Cloning(block, updated, nextId) == GrownBody(p, f, sg, args, firstId)
  {
    var call, rest := sg.loadCachedOps[0], sg.loadCachedOps[1..];
    assert call in sg.loadCachedOps && Resolves(p, call);
    var callee := p[call.kind.callee];
    var builder := new Builder([], firstId);
    updated := builder.MapResults(call, callee.outs, valueMap);
    updated := BuildOwnPart(f, sg, callee, sharedOps, builder, updated, args);
    GrownInOrder(p, f, sg, args, firstId);
    updated := InlineOthers(builder, rest, p, updated);
    updated := builder.ProcessOps(sg.ops, updated);
    block, nextId := builder.block, builder.nextId;
  }

  /** Shared ops go to the start of the block, everything else to its end. */
  method BuildOwnPart(f: Func, sg: Subgraph, callee: Func, sharedOps: seq<Op>, builder: Builder,
                      valueMap: map<Value, Value>, ghost args: seq<nat>)
    returns (updated: map<Value, Value>)
    requires WellFormed(f) && AllLegal(f.body) && sg.loadCachedOps != [] && |args| == |BoundaryInputs(f, sg)|
    requires sharedOps == SharedOps(f.body) && builder.block == []
    requires valueMap == GrowStart(BoundaryInputs(f, sg), args, sg.loadCachedOps[0], callee, builder.nextId).valueMap
    modifies builder
    ensures builder.State(updated) == OwnPart(f, sg, callee, args, old(builder.nextId))
  {
    SharedFree(f.body);
    FreeOrdered(valueMap.Keys, sharedOps);
    updated := builder.ProcessOps(sharedOps, valueMap);
    builder.block := builder.block + callee.body;
  }

  method BuildGrownFunction(p: Program, f: Func, sg: Subgraph, sharedOps: seq<Op>, inputs: seq<Value>,
                            outputs: seq<Value>, firstId: nat)
    returns (grown: Func, args: seq<nat>, bodyId: nat, nextId: nat)
    requires WellFormed(f) && AllLegal(f.body) && IsSubgraph(f, sg) && sg.loadCachedOps != []
    requires AllResolve(p, sg.loadCachedOps)
    requires FirstInOrder(f.args, sg)
    requires AllBelow(Callee(p, sg).args, firstId) && Below(Callee(p, sg).body, firstId)
    requires sharedOps == SharedOps(f.body) && inputs == BoundaryInputs(f, sg) && outputs == BoundaryOutputs(f, sg)
    ensures Growable(p, f, sg, args) && FreshBelow(args, bodyId) && firstId <= bodyId
    ensures grown == GrownFunction(p, f, sg, args, bodyId) && nextId == GrownBody(p, f, sg, args, bodyId).nextId
  {
    var call := sg.loadCachedOps[0];
    assert call in sg.loadCachedOps && Resolves(p, call) && call in f.body;
    var callee := p[call.kind.callee];
    OldInputsAreSubsequence(f, sg, call);
    InputsDistinct(f.args, sg.inputParameters);
    var newArgs, valueMap, id := InsertArguments(callee.args, call.operands, inputs, firstId);
    assert newArgs[..|inputs|] == newArgs;
    args, bodyId := newArgs, id;
    var block;
    block, valueMap, nextId := BuildGrownBody(p, f, sg, sharedOps, newArgs, valueMap, id);
    OutputsMapped(p, f, sg, args, bodyId);
    GrownWellFormed(p, f, sg, args, bodyId);
    GrownPlain(p, f, sg, args, bodyId);
    var builder := new Builder(block, nextId);
    var returnValues := builder.Remap(outputs, valueMap);
    grown := DeduplicateSharedOps(Func(newArgs, block, returnValues, {}, true));
  }
}
