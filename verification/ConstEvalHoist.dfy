/** The hoisting pass (ConstEvalHoistTransform): every subgraph of every function is moved
    into a new or an existing const-eval function, and no function returns anything else. */
module ConstEvalHoist {
  import opened Common
  import opened Ir
  import opened Rewrite
  import opened ConstEvalClone
  import opened ConstEvalSubgraphs
  import opened ConstEvalCreate
  import opened ConstEvalDedup
  import opened ConstEvalArguments
  import opened ConstEvalGrow
  import opened ConstEvalReplace
  import opened ConstEvalModule
  import opened ConstEvalEligibility
  import opened ConstEvalOrigin

  // ----- Creating is a step -----

  /** A subgraph whose ops may be hoisted, its first call taking its inputs in order. */
  ghost predicate Ready(f: Func, sg: Subgraph) {
    IsSubgraph(f, sg) && AllEligible(f, Members(sg)) && FirstInOrder(f.args, sg)
  }

  ghost predicate Target(p: Program, nextId: nat, name: string, sg: Subgraph) {
    Sane(p, nextId) && name in p && !p[name].constEval && Ready(p[name], sg)
  }

  lemma TargetGood(p: Program, nextId: nat, name: string, sg: Subgraph)
    requires Target(p, nextId, name, sg)
    ensures GoodFunc(p, p[name], nextId) && Replaceable(p[name], sg, nextId)
  {
  }

  /** The module with the new function and the call of it. */
  function Created(p: Program, name: string, sg: Subgraph, newName: string, newFunc: Func, callId: nat): Program
    requires name in p
  {
    p[newName := newFunc][name := Carved(p[name], sg, newName, callId)]
  }

  /** How the new function comes about: its arguments and ids are fresh. */
  ghost predicate NewFrom(f: Func, sg: Subgraph, args: seq<nat>, firstId: nat, bodyId: nat, newFunc: Func,
                          callId: nat) {
    && |args| == |BoundaryInputs(f, sg)| && FreshBelow(args, bodyId) && firstId <= bodyId
    && newFunc == NewFunction(f, sg, args, bodyId) && callId == bodyId + |SharedOps(f.body)| + |sg.ops|
  }

  lemma NewFunctionShape(f: Func, sg: Subgraph, args: seq<nat>, bodyId: nat, nextId: nat)
    requires WellFormed(f) && AllLegal(f.body) && IsSubgraph(f, sg) && sg.loadCachedOps == []
    requires |args| == |BoundaryInputs(f, sg)| && FreshBelow(args, bodyId)
    requires bodyId + |SharedOps(f.body)| + |sg.ops| <= nextId
    ensures GoodCallee(NewFunction(f, sg, args, bodyId), nextId)
  {
    NewFunctionWellFormed(f, sg, args, bodyId);
    NewBodyLegal(f, sg, args, bodyId);
    NewBodySound(f, sg, args, bodyId);
    CalleeShape(args, NewBody(f, sg, args, bodyId), BoundaryOutputs(f, sg), bodyId, nextId);
  }

  lemma CalleeShape(args: seq<nat>, done: Cloning, outputs: seq<Value>, bodyId: nat, nextId: nat)
    requires WellFormed(Returning(args, done, outputs)) && AllLegal(done.block) && AllPlain(done.block)
    requires AllBelow(args, bodyId) && Below(done.block, done.nextId) && bodyId <= nextId && done.nextId <= nextId
    ensures GoodCallee(Returning(args, done, outputs), nextId)
  {
  }

  /** Nothing calls a function that is not there. */
  lemma NobodyCalls(p: Program, nextId: nat, name: string, sg: Subgraph, newName: string)
    requires Sane(p, nextId) && newName !in p
    ensures OnlyMembersCall(p, name, sg, {newName})
  {
    forall n, op | n in p && op in p[n].body && op.kind.LoadCached? ensures op.kind.callee != newName {
      assert GoodFunc(p, p[n], nextId) && GoodCall(p, op);
    }
  }

  lemma CreateFrames(p: Program, nextId: nat, name: string, sg: Subgraph, newName: string, newFunc: Func, callId: nat)
    requires Target(p, nextId, name, sg) && newName !in p
    ensures Framed(p, Created(p, name, sg, newName, newFunc, callId), Change(name, sg, newName, {}, callId))
  {
    NobodyCalls(p, nextId, name, sg, newName);
  }

  lemma CreateStep(p: Program, nextId: nat, name: string, sg: Subgraph, newName: string, args: seq<nat>, bodyId: nat,
                   newFunc: Func, callId: nat)
    requires Target(p, nextId, name, sg) && newName !in p && sg.loadCachedOps == []
    requires NewFrom(p[name], sg, args, nextId, bodyId, newFunc, callId)
    ensures HoistStep(p, Created(p, name, sg, newName, newFunc, callId), Change(name, sg, newName, {}, callId),
      nextId, callId + 1)
  {
    TargetGood(p, nextId, name, sg);
    CreateFrames(p, nextId, name, sg, newName, newFunc, callId);
    NewFunctionShape(p[name], sg, args, bodyId, callId + 1);
    EligibleCacheable(p[name], sg);
    NewBodyWithin(p[name], sg, args, bodyId, UncacheableKinds(p));
  }

  lemma EligibleCacheable(f: Func, sg: Subgraph)
    requires AllEligible(f, Members(sg))
    ensures AllCacheable(sg.ops)
  {
    forall op | op in sg.ops ensures !op.nonCacheable { assert op in Members(sg); }
  }

  ghost predicate AlwaysComputes(p: Program, f: Func, g: Func, sg: Subgraph) {
    forall sem, data :: Computes(sem, p, f, data, g, BoundaryInputs(f, sg), BoundaryOutputs(f, sg))
  }

  lemma NewFunctionAlwaysComputes(p: Program, f: Func, sg: Subgraph, args: seq<nat>, bodyId: nat)
    requires WellFormed(f) && AllLegal(f.body) && IsSubgraph(f, sg) && sg.loadCachedOps == []
    requires |args| == |BoundaryInputs(f, sg)| && NoDuplicates(args)
    ensures AlwaysComputes(p, f, NewFunction(f, sg, args, bodyId), sg)
  {
    forall sem, data
      ensures Computes(sem, p, f, data, NewFunction(f, sg, args, bodyId), BoundaryInputs(f, sg), BoundaryOutputs(f, sg))
    {
      NewFunctionComputes(sem, p, f, data, sg, args, bodyId);
    }
  }

  lemma CreateComputes(p: Program, nextId: nat, name: string, sg: Subgraph, newName: string, args: seq<nat>,
                       bodyId: nat, newFunc: Func, callId: nat)
    requires Target(p, nextId, name, sg) && newName !in p && sg.loadCachedOps == []
    requires NewFrom(p[name], sg, args, nextId, bodyId, newFunc, callId)
    ensures CalleeComputes(p, Created(p, name, sg, newName, newFunc, callId), Change(name, sg, newName, {}, callId))
  {
    TargetGood(p, nextId, name, sg);
    NewFunctionAlwaysComputes(p, p[name], sg, args, bodyId);
  }

  // ----- Growing is a step -----

  function Callees(calls: seq<Op>): (r: set<string>)
    ensures forall c :: c in r ==> exists op :: op in calls && op.kind.LoadCached? && op.kind.callee == c
    ensures forall op :: op in calls && op.kind.LoadCached? ==> op.kind.callee in r
  {
    set op | op in calls && op.kind.LoadCached? :: op.kind.callee
  }

  function GrownCallee(sg: Subgraph): string
    requires sg.loadCachedOps != [] && sg.loadCachedOps[0].kind.LoadCached?
  {
    sg.loadCachedOps[0].kind.callee
  }

  /** What growing needs follows from the module being in good order. */
  lemma TargetResolves(p: Program, nextId: nat, name: string, sg: Subgraph)
    requires Target(p, nextId, name, sg)
    ensures AllResolve(p, sg.loadCachedOps)
    ensures forall call :: call in sg.loadCachedOps ==>
        MovableCall(p, name, call) && GoodCall(p, call) && GoodFunc(p, p[call.kind.callee], nextId)
          && p[call.kind.callee].constEval
  {
    assert GoodFunc(p, p[name], nextId);
    forall call | call in sg.loadCachedOps ensures MovableCall(p, name, call) && GoodCall(p, call) {
      assert call in p[name].body && call in Members(sg);
    }
  }

  lemma MemberCalls(p: Program, nextId: nat, name: string, sg: Subgraph, call: Op, n: string, op: Op)
    requires Target(p, nextId, name, sg) && call in sg.loadCachedOps && IsCall(p, n, op) && SameCallee(op, call)
    ensures n == name && op.id in Ids(sg.loadCachedOps)
  {
    TargetResolves(p, nextId, name, sg);
  }

  lemma CallNaming(calls: seq<Op>, op: Op) returns (call: Op)
    requires op.kind.LoadCached? && op.kind.callee in Callees(calls)
    ensures call in calls && SameCallee(op, call)
  {
    call :| call in calls && call.kind.LoadCached? && call.kind.callee == op.kind.callee;
  }

  /** Members call functions of their own: ones that no other op calls. */
  lemma OwnCallees(p: Program, nextId: nat, name: string, sg: Subgraph)
    requires Target(p, nextId, name, sg)
    ensures OnlyMembersCall(p, name, sg, Callees(sg.loadCachedOps))
  {
    forall n, op | n in p && op in p[n].body && op.kind.LoadCached? && op.kind.callee in Callees(sg.loadCachedOps)
      ensures n == name && op.id in Ids(sg.loadCachedOps)
    {
      var call := CallNaming(sg.loadCachedOps, op);
      assert IsCall(p, n, op);
      MemberCalls(p, nextId, name, sg, call, n, op);
    }
  }

  lemma CalleesAreConstEval(p: Program, nextId: nat, name: string, sg: Subgraph)
    requires Target(p, nextId, name, sg)
    ensures name !in Callees(sg.loadCachedOps)
    ensures forall c :: c in Callees(sg.loadCachedOps) ==> c in p && p[c].constEval
  {
    TargetResolves(p, nextId, name, sg);
  }

  lemma DifferentCallees(p: Program, nextId: nat, name: string, sg: Subgraph, a: Op, b: Op)
    requires Target(p, nextId, name, sg) && a in sg.loadCachedOps && b in sg.loadCachedOps && a.id != b.id
    ensures !SameCallee(a, b)
  {
    TargetResolves(p, nextId, name, sg);
    assert MovableCall(p, name, a) && IsCall(p, name, b);
  }

  /** The calls of a subgraph name distinct functions. */
  lemma FirstCalleeApart(p: Program, nextId: nat, name: string, sg: Subgraph)
    requires Target(p, nextId, name, sg) && sg.loadCachedOps != []
    ensures sg.loadCachedOps[0].kind.LoadCached? && GrownCallee(sg) !in Callees(sg.loadCachedOps[1..])
  {
    var calls := sg.loadCachedOps;
    TargetGood(p, nextId, name, sg);
    MembersDistinct(p[name], sg);
    assert calls[0] in calls;
    forall op | op in calls[1..] ensures !SameCallee(op, calls[0]) {
      var k :| 0 <= k < |calls| - 1 && calls[1..][k] == op;
      assert calls[k + 1] == op && calls[0].id != calls[k + 1].id;
      DifferentCallees(p, nextId, name, sg, op, calls[0]);
    }
  }

  lemma CalleesSplit(calls: seq<Op>)
    requires calls != [] && calls[0].kind.LoadCached?
    ensures Callees(calls[1..]) + {calls[0].kind.callee} == Callees(calls)
  {
    assert calls == [calls[0]] + calls[1..];
  }

  /** The module with the first callee grown, the other callees erased and the call replaced. */
  function Grown(p: Program, name: string, sg: Subgraph, grown: Func, callId: nat): Program
    requires name in p && sg.loadCachedOps != [] && sg.loadCachedOps[0].kind.LoadCached?
  {
    (p - Callees(sg.loadCachedOps[1..]))[GrownCallee(sg) := grown][name := Carved(p[name], sg, GrownCallee(sg), callId)]
  }

  /** The callee to grow and those to erase are const-eval functions that only the subgraph
      calls. */
  ghost predicate Owned(p: Program, name: string, sg: Subgraph, callee: string, gone: set<string>) {
    && name !in gone + {callee} && callee !in gone
    && (forall c :: c in gone + {callee} ==> c in p && p[c].constEval)
    && OnlyMembersCall(p, name, sg, gone + {callee})
  }

  lemma FirstOwned(p: Program, name: string, sg: Subgraph)
    requires sg.loadCachedOps != [] && sg.loadCachedOps[0].kind.LoadCached?
    requires GrownCallee(sg) !in Callees(sg.loadCachedOps[1..])
    requires name !in Callees(sg.loadCachedOps)
    requires forall c :: c in Callees(sg.loadCachedOps) ==> c in p && p[c].constEval
    requires OnlyMembersCall(p, name, sg, Callees(sg.loadCachedOps))
    ensures Owned(p, name, sg, GrownCallee(sg), Callees(sg.loadCachedOps[1..]))
  {
    CalleesSplit(sg.loadCachedOps);
  }

  lemma CalleesOwned(p: Program, nextId: nat, name: string, sg: Subgraph)
    requires Target(p, nextId, name, sg) && sg.loadCachedOps != []
    ensures sg.loadCachedOps[0].kind.LoadCached? && Owned(p, name, sg, GrownCallee(sg), Callees(sg.loadCachedOps[1..]))
  {
    OwnCallees(p, nextId, name, sg);
    CalleesAreConstEval(p, nextId, name, sg);
    FirstCalleeApart(p, nextId, name, sg);
    FirstOwned(p, name, sg);
  }

  lemma GrownFramed(p: Program, name: string, sg: Subgraph, grown: Func, callId: nat, c: Change)
    requires sg.loadCachedOps != [] && sg.loadCachedOps[0].kind.LoadCached? && name in p
    requires c == Change(name, sg, GrownCallee(sg), Callees(sg.loadCachedOps[1..]), callId)
    requires Owned(p, name, sg, c.callee, c.gone)
    ensures Framed(p, Grown(p, name, sg, grown, callId), c)
  {
    MapEdited(p, c.gone, c.callee, grown, name, Carved(p[name], sg, c.callee, callId));
  }

  /** Some functions erased, two replaced: the others are the same. */
  lemma MapEdited(p: Program, gone: set<string>, callee: string, grown: Func, name: string, carved: Func)
    requires callee in p && name in p && callee !in gone && name !in gone
    ensures var q := (p - gone)[callee := grown][name := carved];
      q.Keys == p.Keys - gone + {callee} && forall n :: n in q && n != name && n != callee ==> q[n] == p[n]
  {
    var q := (p - gone)[callee := grown][name := carved];
    assert q.Keys == p.Keys - gone + {callee};
  }

  lemma DeduplicatedGood(g: Func, nextId: nat)
    requires GoodCallee(g, nextId)
    ensures GoodCallee(Deduplicated(g), nextId)
  {
    var s, d := Scan(g.body), Deduplicated(g);
    DeduplicatedWellFormed(g);
    ScanScans(g.body);
    forall op' | op' in d.body ensures Legal(op') && op'.kind.Plain? && op'.id < nextId {
      KeptIds(g.body, s.sub, s.gone, op');
      var op :| op in g.body && op' == RenamedOp(op, s.sub);
      RenamedLegal(op, s.sub);
    }
  }

  lemma GrownGood(p: Program, f: Func, sg: Subgraph, args: seq<nat>, bodyId: nat, nextId: nat)
    requires Growable(p, f, sg, args) && Below(Callee(p, sg).body, bodyId) && AllBelow(args, bodyId)
    requires GrownBody(p, f, sg, args, bodyId).nextId < nextId && bodyId <= nextId
    ensures GoodCallee(GrownFunction(p, f, sg, args, bodyId), nextId)
  {
    var done := GrownBody(p, f, sg, args, bodyId);
    GrownWellFormed(p, f, sg, args, bodyId);
    GrownPlain(p, f, sg, args, bodyId);
    GrownSound(p, f, sg, args, bodyId);
    CalleeShape(args, done, BoundaryOutputs(f, sg), bodyId, nextId);
    DeduplicatedGood(Returning(args, done, BoundaryOutputs(f, sg)), nextId);
  }

  lemma GrownFits(p: Program, f: Func, sg: Subgraph, args: seq<nat>, bodyId: nat, callId: nat)
    requires Growable(p, f, sg, args)
    ensures Fits(CallFor(f, sg, GrownCallee(sg), callId), GrownFunction(p, f, sg, args, bodyId))
  {
  }

  ghost predicate GrownFrom(p: Program, f: Func, sg: Subgraph, args: seq<nat>, firstId: nat, bodyId: nat, grown: Func,
                            callId: nat) {
    && Growable(p, f, sg, args) && FreshBelow(args, bodyId) && firstId <= bodyId && Below(Callee(p, sg).body, firstId)
    && grown == GrownFunction(p, f, sg, args, bodyId) && callId == GrownBody(p, f, sg, args, bodyId).nextId
      && bodyId <= callId
  }

  lemma GrowStep(p: Program, nextId: nat, name: string, sg: Subgraph, args: seq<nat>, bodyId: nat, grown: Func,
                 callId: nat)
    requires Target(p, nextId, name, sg) && GrownFrom(p, p[name], sg, args, nextId, bodyId, grown, callId)
    ensures HoistStep(p, Grown(p, name, sg, grown, callId),
      Change(name, sg, GrownCallee(sg), Callees(sg.loadCachedOps[1..]), callId), nextId, callId + 1)
  {
    CalleesOwned(p, nextId, name, sg);
    GrownFramed(p, name, sg, grown, callId, Change(name, sg, GrownCallee(sg), Callees(sg.loadCachedOps[1..]), callId));
    GrownGood(p, p[name], sg, args, bodyId, callId + 1);
    GrownFits(p, p[name], sg, args, bodyId, callId);
    GrownWithin(p, nextId, name, sg, args, bodyId);
  }

  lemma GrownWithin(p: Program, nextId: nat, name: string, sg: Subgraph, args: seq<nat>, bodyId: nat)
    requires Target(p, nextId, name, sg) && Growable(p, p[name], sg, args)
    ensures UncacheableWithin(GrownFunction(p, p[name], sg, args, bodyId).body, UncacheableKinds(p))
  {
    TargetResolves(p, nextId, name, sg);
    forall call | call in sg.loadCachedOps
      ensures UncacheableWithin(p[call.kind.callee].body, UncacheableKinds(p))
    {
      CalleeWithin(p, call.kind.callee);
    }
    EligibleCacheable(p[name], sg);
    GrownBodyWithin(p, p[name], sg, args, bodyId, UncacheableKinds(p));
    DeduplicatedWithin(Returning(args, GrownBody(p, p[name], sg, args, bodyId), BoundaryOutputs(p[name], sg)),
                       UncacheableKinds(p));
  }

  lemma CalleeWithin(p: Program, n: string)
    requires n in p && p[n].constEval
    ensures UncacheableWithin(p[n].body, UncacheableKinds(p))
  {
    forall op | op in p[n].body && op.nonCacheable && !op.shared ensures op.kind in UncacheableKinds(p) {
      assert HoldsUncacheable(p, n, op);
    }
  }

  lemma GrownAlwaysComputes(p: Program, f: Func, sg: Subgraph, args: seq<nat>, bodyId: nat)
    requires Growable(p, f, sg, args) && Below(Callee(p, sg).body, bodyId)
    ensures AlwaysComputes(p, f, GrownFunction(p, f, sg, args, bodyId), sg)
  {
    forall sem, data
      ensures Computes(sem, p, f, data, GrownFunction(p, f, sg, args, bodyId), BoundaryInputs(f, sg),
        BoundaryOutputs(f, sg))
    {
      GrownFunctionComputes(sem, p, f, data, sg, args, bodyId);
    }
  }

  lemma GrowComputes(p: Program, nextId: nat, name: string, sg: Subgraph, args: seq<nat>, bodyId: nat, grown: Func,
                     callId: nat)
    requires Target(p, nextId, name, sg) && GrownFrom(p, p[name], sg, args, nextId, bodyId, grown, callId)
    requires sg.loadCachedOps[0].kind.LoadCached? && GrownCallee(sg) != name
    ensures CalleeComputes(p, Grown(p, name, sg, grown, callId),
      Change(name, sg, GrownCallee(sg), Callees(sg.loadCachedOps[1..]), callId))
  {
    GrownAlwaysComputes(p, p[name], sg, args, bodyId);
  }

  // ----- What a step leaves for the rest of the function -----

  /** The subgraphs still to be processed are untouched by it. */
  lemma OthersStay(p: Program, q: Program, c: Change, nextId: nat, nextId': nat, other: Subgraph)
    requires HoistStep(p, q, c, nextId, nextId') && Ready(p[c.name], other) && Apart(c.sg, other)
    ensures Target(q, nextId', c.name, other)
  {
    StepSane(p, q, c, nextId, nextId');
    StepReplaces(p, q, c, nextId, nextId');
    OtherSubgraphStays(p[c.name], c.sg, other, c.callee, c.callId);
    OthersEligible(p[c.name], c.sg, other, c.callee, c.callId);
  }

  lemma SharedOpsUntouched(p: Program, q: Program, c: Change, nextId: nat, nextId': nat)
    requires HoistStep(p, q, c, nextId, nextId')
    ensures SharedOps(q[c.name].body) == SharedOps(p[c.name].body)
  {
    StepReplaces(p, q, c, nextId, nextId');
    SharedOpsStay(p[c.name], c.sg, c.callee, c.callId);
  }
}
