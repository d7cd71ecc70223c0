/** An existing const-eval function grown by a subgraph that depends on its results
    (addToExistingConstEvalFunction), and why it computes what its caller computed. */
module ConstEvalGrow {
  import opened Common
  import opened Ir
  import opened Rewrite
  import opened ConstEvalClone
  import opened ConstEvalSubgraphs
  import opened ConstEvalCreate
  import opened ConstEvalDedup
  import opened ConstEvalArguments

  /** The call resolves to a const-eval function of plain ops that fits it. */
  ghost predicate Resolves(p: Program, call: Op) {
    && call.kind.LoadCached? && call.kind.callee in p
    && var g := p[call.kind.callee];
      WellFormed(g) && AllPlain(g.body) && AllLegal(g.body) && Fits(call, g)
  }

  ghost predicate AllResolve(p: Program, calls: seq<Op>) {
    forall call :: call in calls ==> Resolves(p, call)
  }

  ghost predicate AllPassed(calls: seq<Op>, m: map<Value, Value>) {
    forall call :: call in calls ==> AllMapped(call.operands, m)
  }

  /** The bodies of further callees, inlined in turn. */
  ghost function InlineAll(c: Cloning, calls: seq<Op>, p: Program): (r: Cloning)
    requires AllResolve(p, calls) && AllPassed(calls, c.valueMap)
    ensures c.block <= r.block && c.nextId <= r.nextId
    ensures r.valueMap.Keys == c.valueMap.Keys + Defs(calls)
  {
    if calls == [] then c
    else
      var n := |calls| - 1;
      var front := InlineAll(c, calls[..n], p);
      var call := calls[n];
      assert AllMapped(call.operands, c.valueMap);
      Inline(front, call, p[call.kind.callee])
  }

  /** Inputs mapped to the arguments, and the results of the callee's own call to what the
      callee returns. */
  function GrowStart(inputs: seq<Value>, args: seq<nat>, call: Op, callee: Func, nextId: nat): Cloning
    requires |inputs| == |args|
  {
    Cloning([], Inserted(InputMap(inputs, args), call.id, callee.outs), nextId)
  }

  function AfterCallee(c: Cloning, callee: Func): Cloning {
    c.(block := c.block + callee.body)
  }

  // ----- In order -----

  lemma OrderedWider(outer: set<Value>, wider: set<Value>, ops: seq<Op>)
    requires Ordered(outer, ops) && outer <= wider
    ensures Ordered(wider, ops)
  {
    forall k | 0 <= k < |ops| ensures InScope(wider, ops, k) { assert InScope(outer, ops, k); }
  }

  lemma StandsWithin(inputs: seq<Value>, args: seq<nat>, oldArgs: seq<nat>, oldInputs: seq<Value>)
    requires |inputs| == |args| && Stands(InputMap(inputs, args), oldArgs, oldInputs)
    ensures ArgValues(oldArgs) <= ArgValues(args)
  {
    forall v | v in ArgValues(oldArgs) ensures v in ArgValues(args) {
      var k :| 0 <= k < |oldArgs| && oldArgs[k] == v.id;
      assert InputMap(inputs, args)[oldInputs[k]] == v;
    }
  }

  lemma StartTargets(inputs: seq<Value>, args: seq<nat>, call: Op, callee: Func, nextId: nat)
    requires |inputs| == |args| && WellFormed(callee) && ArgValues(callee.args) <= ArgValues(args)
    ensures Targets(GrowStart(inputs, args, call, callee, nextId).valueMap, ArgValues(args) + Defs(callee.body))
  {
    var m := GrowStart(inputs, args, call, callee, nextId).valueMap;
    forall v | v in m ensures m[v] in ArgValues(args) + Defs(callee.body) {
      if v !in InputMap(inputs, args) { assert m[v] in callee.outs; }
    }
  }

  /** Clones of ops without operands have none either, and fresh ids. */
  lemma SharedClonesFree(c: Cloning, ops: seq<Op>, scope: set<Value>)
    requires c.block == [] && forall op :: op in ops ==> op.operands == []
    ensures Ordered(scope, CloneAll(c, ops).block)
    ensures forall op' :: op' in CloneAll(c, ops).block ==> c.nextId <= op'.id
  {
    forall op' | op' in CloneAll(c, ops).block ensures op'.operands == [] && c.nextId <= op'.id {
      CloneAllLike(c, ops, op');
      var op :| op in ops && Like(op', op);
    }
    FreeOrdered(scope, CloneAll(c, ops).block);
  }

  /** The callee's own body goes behind the clones of the shared ops. */
  lemma AfterCalleeSound(c: Cloning, callee: Func, args: seq<nat>, bound: nat)
    requires WellFormed(callee) && Below(callee.body, bound) && ArgValues(callee.args) <= ArgValues(args)
    requires Ordered(ArgValues(args), c.block) && (forall op :: op in c.block ==> bound <= op.id) && bound <= c.nextId
    requires UniqueIds(c.block) && Below(c.block, c.nextId)
    requires Targets(c.valueMap, ArgValues(args) + Defs(callee.body) + Defs(c.block))
    ensures Sound(AfterCallee(c, callee), ArgValues(args))
  {
    UniqueConcat(c.block, callee.body);
    OrderedWider(ArgValues(callee.args), ArgValues(args) + Defs(c.block), callee.body);
    OrderedConcat(ArgValues(args), c.block, callee.body);
    DefsConcat(c.block, callee.body);
  }

  lemma StepBelow(inputs: seq<Value>, args: seq<nat>, call: Op, callee: Func, nextId: nat, shared: seq<Op>)
    requires |inputs| == |args| && WellFormed(callee) && Below(callee.body, nextId)
    requires ArgValues(callee.args) <= ArgValues(args)
    requires forall op :: op in shared ==> op.operands == []
    ensures Sound(AfterCallee(CloneAll(GrowStart(inputs, args, call, callee, nextId), shared), callee), ArgValues(args))
  {
    var start := GrowStart(inputs, args, call, callee, nextId);
    var c := CloneAll(start, shared);
    StartTargets(inputs, args, call, callee, nextId);
    FreeOrdered(start.valueMap.Keys, shared);
    CloneAllSound(start, shared, ArgValues(args) + Defs(callee.body));
    SharedClonesFree(start, shared, ArgValues(args));
    AfterCalleeSound(c, callee, args, nextId);
  }

  lemma {:induction false} InlineAllSound(c: Cloning, calls: seq<Op>, p: Program, outer: set<Value>)
    requires AllResolve(p, calls) && AllPassed(calls, c.valueMap) && Sound(c, outer)
    ensures Sound(InlineAll(c, calls, p), outer)
  {
    if calls != [] {
      var n := |calls| - 1;
      InlineAllSound(c, calls[..n], p, outer);
      var call := calls[n];
      assert AllMapped(call.operands, c.valueMap);
      InlineSound(InlineAll(c, calls[..n], p), call, p[call.kind.callee], outer);
    }
  }

  // ----- The whole grown body -----

  /** What growing takes: the first call's callee grows, the other callees are inlined. */
  ghost predicate Growable(p: Program, f: Func, sg: Subgraph, args: seq<nat>) {
    && WellFormed(f) && AllLegal(f.body) && IsSubgraph(f, sg)
    && sg.loadCachedOps != [] && AllResolve(p, sg.loadCachedOps)
    && |args| == |BoundaryInputs(f, sg)| && NoDuplicates(args)
    && Stands(InputMap(BoundaryInputs(f, sg), args), Callee(p, sg).args, sg.loadCachedOps[0].operands)
  }

  ghost function Callee(p: Program, sg: Subgraph): Func
    requires sg.loadCachedOps != [] && AllResolve(p, sg.loadCachedOps)
  {
    assert Resolves(p, sg.loadCachedOps[0]);
    p[sg.loadCachedOps[0].kind.callee]
  }

  /** The callee's own part: shared ops first, then its old body. */
  function OwnPart(f: Func, sg: Subgraph, callee: Func, args: seq<nat>, nextId: nat): Cloning
    requires sg.loadCachedOps != [] && |args| == |BoundaryInputs(f, sg)|
  {
    AfterCallee(CloneAll(GrowStart(BoundaryInputs(f, sg), args, sg.loadCachedOps[0], callee, nextId),
      SharedOps(f.body)), callee)
  }

  lemma CallsPassed(f: Func, sg: Subgraph, calls: seq<Op>, m: map<Value, Value>)
    requires WellFormed(f) && AllLegal(f.body) && IsSubgraph(f, sg)
    requires (forall call :: call in calls ==> call in sg.loadCachedOps)
    requires forall v :: v in BoundaryInputs(f, sg) ==> v in m
    ensures AllPassed(calls, m)
  {
    forall call, v | call in calls && v in call.operands ensures v in m {
      assert call in Members(sg) && call in f.body;
      assert OperandsInside(f, sg, call) && Inside(f, sg, v) && Legal(call);
    }
  }

  lemma OwnKeys(f: Func, sg: Subgraph, callee: Func, args: seq<nat>, nextId: nat)
    requires sg.loadCachedOps != [] && |args| == |BoundaryInputs(f, sg)|
    requires |callee.outs| == sg.loadCachedOps[0].numResults
    ensures var keys := OwnPart(f, sg, callee, args, nextId).valueMap.Keys;
      && (forall v :: v in BoundaryInputs(f, sg) ==> v in keys)
      && Defs(SharedOps(f.body)) <= keys && Results(sg.loadCachedOps[0]) <= keys
  {
  }

  ghost function GrownBody(p: Program, f: Func, sg: Subgraph, args: seq<nat>, nextId: nat): Cloning
    requires Growable(p, f, sg, args)
  {
    var own := OwnPart(f, sg, Callee(p, sg), args, nextId);
    OwnKeys(f, sg, Callee(p, sg), args, nextId);
    CallsPassed(f, sg, sg.loadCachedOps[1..], own.valueMap);
    CloneAll(InlineAll(own, sg.loadCachedOps[1..], p), sg.ops)
  }

  ghost function GrownFunction(p: Program, f: Func, sg: Subgraph, args: seq<nat>, nextId: nat): Func
    requires Growable(p, f, sg, args)
  {
    Deduplicated(Returning(args, GrownBody(p, f, sg, args, nextId), BoundaryOutputs(f, sg)))
  }

  lemma DefsCons(ops: seq<Op>)
    requires ops != []
    ensures Defs(ops) == Results(ops[0]) + Defs(ops[1..])
  {
    assert ops == [ops[0]] + ops[1..];
    DefsConcat([ops[0]], ops[1..]);
    assert [ops[0]][..0] == [];
    assert Defs([ops[0]]) == Results(ops[0]);
  }

  /** The subgraph's own ops come last, and find every operand in the map. */
  lemma GrownInOrder(p: Program, f: Func, sg: Subgraph, args: seq<nat>, nextId: nat)
    requires Growable(p, f, sg, args)
    ensures var own := OwnPart(f, sg, Callee(p, sg), args, nextId);
      AllPassed(sg.loadCachedOps[1..], own.valueMap)
        && Ordered(InlineAll(own, sg.loadCachedOps[1..], p).valueMap.Keys, sg.ops)
  {
    var own := OwnPart(f, sg, Callee(p, sg), args, nextId);
    OwnKeys(f, sg, Callee(p, sg), args, nextId);
    CallsPassed(f, sg, sg.loadCachedOps[1..], own.valueMap);
    DefsCons(sg.loadCachedOps);
    SubgraphOrdered(f, sg, InlineAll(own, sg.loadCachedOps[1..], p).valueMap.Keys);
  }

  lemma OwnSound(p: Program, f: Func, sg: Subgraph, args: seq<nat>, nextId: nat)
    requires Growable(p, f, sg, args) && Below(Callee(p, sg).body, nextId)
    ensures Sound(OwnPart(f, sg, Callee(p, sg), args, nextId), ArgValues(args))
  {
    var callee, inputs := Callee(p, sg), BoundaryInputs(f, sg);
    assert Resolves(p, sg.loadCachedOps[0]);
    StandsWithin(inputs, args, callee.args, sg.loadCachedOps[0].operands);
    SharedFree(f.body);
    StepBelow(inputs, args, sg.loadCachedOps[0], callee, nextId, SharedOps(f.body));
  }

  lemma OutputsMapped(p: Program, f: Func, sg: Subgraph, args: seq<nat>, nextId: nat)
    requires Growable(p, f, sg, args)
    ensures AllMapped(BoundaryOutputs(f, sg), GrownBody(p, f, sg, args, nextId).valueMap)
  {
    OwnKeys(f, sg, Callee(p, sg), args, nextId);
    DefsCons(sg.loadCachedOps);
  }

  lemma GrownSound(p: Program, f: Func, sg: Subgraph, args: seq<nat>, nextId: nat)
    requires Growable(p, f, sg, args) && Below(Callee(p, sg).body, nextId)
    ensures Sound(GrownBody(p, f, sg, args, nextId), ArgValues(args))
  {
    var own, rest := OwnPart(f, sg, Callee(p, sg), args, nextId), sg.loadCachedOps[1..];
    OwnSound(p, f, sg, args, nextId);
    GrownInOrder(p, f, sg, args, nextId);
    InlineAllSound(own, rest, p, ArgValues(args));
    CloneAllSound(InlineAll(own, rest, p), sg.ops, ArgValues(args));
  }

  // ----- Plain, legal ops only -----

  ghost predicate PlainLegal(ops: seq<Op>) {
    AllPlain(ops) && AllLegal(ops)
  }

  lemma PlainLegalConcat(a: seq<Op>, b: seq<Op>)
    requires PlainLegal(a) && PlainLegal(b)
    ensures PlainLegal(a + b)
  {
  }

  lemma InlinePlain(c: Cloning, call: Op, callee: Func)
    requires Fits(call, callee) && AllMapped(call.operands, c.valueMap) && PlainLegal(c.block)
    requires PlainLegal(callee.body)
    ensures PlainLegal(Inline(c, call, callee).block)
  {
    ClonesLegal(c.(valueMap := Passed(c.valueMap, callee.args, call.operands)), callee.body);
  }

  lemma {:induction false} InlineAllPlain(c: Cloning, calls: seq<Op>, p: Program)
    requires AllResolve(p, calls) && AllPassed(calls, c.valueMap) && PlainLegal(c.block)
    ensures PlainLegal(InlineAll(c, calls, p).block)
  {
    if calls != [] {
      var n := |calls| - 1;
      InlineAllPlain(c, calls[..n], p);
      var call := calls[n];
      assert Resolves(p, call) && AllMapped(call.operands, c.valueMap);
      InlinePlain(InlineAll(c, calls[..n], p), call, p[call.kind.callee]);
    }
  }

  lemma GrownPlain(p: Program, f: Func, sg: Subgraph, args: seq<nat>, nextId: nat)
    requires Growable(p, f, sg, args)
    ensures PlainLegal(GrownBody(p, f, sg, args, nextId).block)
  {
    var callee, rest := Callee(p, sg), sg.loadCachedOps[1..];
    assert Resolves(p, sg.loadCachedOps[0]);
    var start := GrowStart(BoundaryInputs(f, sg), args, sg.loadCachedOps[0], callee, nextId);
    SharedFree(f.body);
    ClonesLegal(start, SharedOps(f.body));
    PlainLegalConcat(CloneAll(start, SharedOps(f.body)).block, callee.body);
    GrownInOrder(p, f, sg, args, nextId);
    var own := OwnPart(f, sg, callee, args, nextId);
    InlineAllPlain(own, rest, p);
    ClonesLegal(InlineAll(own, rest, p), sg.ops);
  }

  // ----- The grown function computes the outputs -----

  lemma {:induction false} InlineAllAgrees(sem: Meaning, p: Program, c: Cloning, calls: seq<Op>, s: Env, t: Env)
    requires AllResolve(p, calls) && AllPassed(calls, c.valueMap) && Agree(c.valueMap, s, t)
    requires AllHold(sem, p, calls, s)
    requires AllHold(sem, map[], InlineAll(c, calls, p).block, t)
    ensures Agree(InlineAll(c, calls, p).valueMap, s, t)
  {
    if calls != [] {
      var n := |calls| - 1;
      var front, call := InlineAll(c, calls[..n], p), calls[n];
      assert Resolves(p, call) && AllMapped(call.operands, c.valueMap) && Holds(sem, p, call, s);
      assert front.block <= InlineAll(c, calls, p).block;
      InlineAllAgrees(sem, p, c, calls[..n], s, t);
      InlineAgrees(sem, p, front, call, p[call.kind.callee], s, t);
    }
  }

  /** The old body, run with the old arguments where they now stand, returns what the call did. */
  lemma OldBodyAgrees(sem: Meaning, p: Program, inputs: seq<Value>, args: seq<nat>, call: Op, s: Env, t: Env)
    requires |inputs| == |args| && Resolves(p, call) && Holds(sem, p, call, s)
    requires Stands(InputMap(inputs, args), p[call.kind.callee].args, call.operands)
    requires Agree(InputMap(inputs, args), s, t) && AllHold(sem, map[], p[call.kind.callee].body, t)
    ensures forall i :: 0 <= i < call.numResults ==> Get(s, Res(call.id, i)) == Get(t, p[call.kind.callee].outs[i])
  {
    var g, data := p[call.kind.callee], Vals(s, call.operands);
    forall k | 0 <= k < |g.args| ensures Get(t, Arg(g.args[k])) == At(data, k) {
      assert InputMap(inputs, args)[call.operands[k]] == Arg(g.args[k]);
    }
    SolutionReturns(sem, map[], g, data, t);
    forall i | 0 <= i < call.numResults ensures Get(s, Res(call.id, i)) == Get(t, g.outs[i]) {
      assert OpResult(sem, p, call, data, i) == At(Call(sem, g, data), i);
    }
  }

  lemma StartAgrees(inputs: seq<Value>, args: seq<nat>, call: Op, callee: Func, nextId: nat, s: Env, t: Env)
    requires |inputs| == |args| && Agree(InputMap(inputs, args), s, t) && |callee.outs| == call.numResults
    requires forall i :: 0 <= i < call.numResults ==> Get(s, Res(call.id, i)) == Get(t, callee.outs[i])
    ensures Agree(GrowStart(inputs, args, call, callee, nextId).valueMap, s, t)
  {
    var m := GrowStart(inputs, args, call, callee, nextId).valueMap;
    forall v | v in m ensures Get(t, m[v]) == Get(s, v) {
      if v !in InputMap(inputs, args) { assert v == Res(call.id, v.index); }
    }
  }

  lemma OwnAgrees(sem: Meaning, p: Program, f: Func, sg: Subgraph, args: seq<nat>, nextId: nat, s: Env, t: Env)
    requires Growable(p, f, sg, args) && AllHold(sem, p, f.body, s) && Bound(args, Vals(s, BoundaryInputs(f, sg)), t)
    requires AllHold(sem, map[], OwnPart(f, sg, Callee(p, sg), args, nextId).block, t)
    ensures Agree(OwnPart(f, sg, Callee(p, sg), args, nextId).valueMap, s, t)
  {
    var call, callee, inputs := sg.loadCachedOps[0], Callee(p, sg), BoundaryInputs(f, sg);
    assert call in sg.loadCachedOps && Resolves(p, call);
    InputMapAgrees(inputs, args, s, t);
    var start := GrowStart(inputs, args, call, callee, nextId);
    var shared := CloneAll(start, SharedOps(f.body));
    assert forall op :: op in callee.body ==> op in shared.block + callee.body;
    OldBodyAgrees(sem, p, inputs, args, call, s, t);
    StartAgrees(inputs, args, call, callee, nextId, s, t);
    SharedFree(f.body);
    FreeOrdered(start.valueMap.Keys, SharedOps(f.body));
    OnlyHold(sem, p, f.body, SharedIds(f.body), s);
    CloneAllAgrees(sem, p, map[], start, SharedOps(f.body), s, t);
  }

  lemma GrownAgrees(sem: Meaning, p: Program, f: Func, sg: Subgraph, args: seq<nat>, nextId: nat, s: Env, t: Env)
    requires Growable(p, f, sg, args) && AllHold(sem, p, f.body, s) && Bound(args, Vals(s, BoundaryInputs(f, sg)), t)
    requires AllHold(sem, map[], GrownBody(p, f, sg, args, nextId).block, t)
    ensures Agree(GrownBody(p, f, sg, args, nextId).valueMap, s, t)
  {
    var own, rest := OwnPart(f, sg, Callee(p, sg), args, nextId), sg.loadCachedOps[1..];
    GrownInOrder(p, f, sg, args, nextId);
    var inlined := InlineAll(own, rest, p);
    assert own.block <= inlined.block <= CloneAll(inlined, sg.ops).block;
    OwnAgrees(sem, p, f, sg, args, nextId, s, t);
    InlineAllAgrees(sem, p, own, rest, s, t);
    OnlyHold(sem, p, f.body, Ids(sg.ops), s);
    CloneAllAgrees(sem, p, map[], inlined, sg.ops, s, t);
  }

  lemma GrownWellFormed(p: Program, f: Func, sg: Subgraph, args: seq<nat>, nextId: nat)
    requires Growable(p, f, sg, args) && Below(Callee(p, sg).body, nextId)
    ensures WellFormed(Returning(args, GrownBody(p, f, sg, args, nextId), BoundaryOutputs(f, sg)))
    ensures WellFormed(GrownFunction(p, f, sg, args, nextId))
  {
    GrownSound(p, f, sg, args, nextId);
    GrownPlain(p, f, sg, args, nextId);
    OutputsMapped(p, f, sg, args, nextId);
    ReturningWellFormed(args, GrownBody(p, f, sg, args, nextId), BoundaryOutputs(f, sg));
    DeduplicatedWellFormed(Returning(args, GrownBody(p, f, sg, args, nextId), BoundaryOutputs(f, sg)));
  }

  /** Called on the inputs, the grown function returns for each output the value that the
      subgraph's op or the old call gave. */
  lemma GrownFunctionComputes(sem: Meaning, p: Program, f: Func, data: seq<Data>, sg: Subgraph, args: seq<nat>,
                              nextId: nat)
    requires Growable(p, f, sg, args) && Below(Callee(p, sg).body, nextId)
    ensures Computes(sem, p, f, data, GrownFunction(p, f, sg, args, nextId), BoundaryInputs(f, sg),
      BoundaryOutputs(f, sg))
  {
    var s, body := Final(sem, p, f, data), GrownBody(p, f, sg, args, nextId);
    var g := Returning(args, body, BoundaryOutputs(f, sg));
    var given := Vals(s, BoundaryInputs(f, sg));
    FinalSolves(sem, p, f, data);
    GrownWellFormed(p, f, sg, args, nextId);
    FinalSolves(sem, map[], g, given);
    GrownAgrees(sem, p, f, sg, args, nextId, s, Final(sem, map[], g, given));
    OutputsMapped(p, f, sg, args, nextId);
    ReturningReturns(sem, args, body, BoundaryOutputs(f, sg), given, s);
    GrownPlain(p, f, sg, args, nextId);
    DeduplicatedReturns(sem, g, given);
  }
}
