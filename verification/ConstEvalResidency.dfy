/** Calls whose results reside in L1. A new call takes over the residency of the outputs it
    stands for, without the tag their ops may carry. */
module ConstEvalResidency {
  import opened Ir
  import opened Rewrite
  import opened ConstEvalSubgraphs
  import opened ConstEvalReplace
  import opened ConstEvalAnalysis
  import opened ConstEvalEligibility

  /** A call that the analysis fails on. */
  ghost predicate L1Call(f: Func, op: Op) {
    op in f.body && op.kind.LoadCached? && Eligible(f, op) && L1Untagged(op)
  }

  ghost predicate HasL1Call(f: Func) {
    exists op :: L1Call(f, op)
  }

  ghost predicate OutputInL1(f: Func, sg: Subgraph) {
    exists v :: v in BoundaryOutputs(f, sg) && InL1(f.body, v)
  }

  /** A subgraph still to come has an output in L1. */
  ghost predicate Pending(f: Func, rest: seq<Subgraph>) {
    exists sg :: sg in rest && OutputInL1(f, sg)
  }

  /** Such a call is there, or will be once the other subgraphs are cut out. */
  ghost predicate L1CallDue(f: Func, rest: seq<Subgraph>) {
    HasL1Call(f) || Pending(f, rest)
  }

  /** What is left in place after one subgraph of several is cut out. */
  ghost predicate Cuts(f: Func, sg: Subgraph, callId: nat, rest: seq<Subgraph>) {
    && Replaceable(f, sg, callId)
    && forall other :: other in rest ==> IsSubgraph(f, other) && Apart(sg, other)
  }

  /** The members of a subgraph passed the analysis. */
  ghost predicate Passed(f: Func, sg: Subgraph) {
    AllEligible(f, Members(sg)) && forall op :: op in Members(sg) ==> !L1Untagged(op)
  }

  // ----- The new call -----

  lemma CallInL1(f: Func, sg: Subgraph, callee: string, callId: nat)
    ensures L1Untagged(CallFor(f, sg, callee, callId)) <==> OutputInL1(f, sg)
  {
    var outputs, call := BoundaryOutputs(f, sg), CallFor(f, sg, callee, callId);
    if v :| v in outputs && InL1(f.body, v) {
      var i :| 0 <= i < |outputs| && outputs[i] == v;
      assert i in call.resident;
    }
  }

  lemma CallThere(f: Func, sg: Subgraph, callee: string, callId: nat)
    ensures CallFor(f, sg, callee, callId) in Carved(f, sg, callee, callId).body
  {
  }

  // ----- The other calls -----

  lemma L1CallStays(f: Func, sg: Subgraph, callee: string, callId: nat, op: Op)
    requires Replaceable(f, sg, callId) && Passed(f, sg) && L1Call(f, op)
    ensures HasL1Call(Carved(f, sg, callee, callId))
  {
    var sub, ids := CallResults(BoundaryOutputs(f, sg), callId), Ids(sg.ops) + Ids(sg.loadCachedOps);
    NotMember(f, sg, op);
    Survives(f.body, ids, CallFor(f, sg, callee, callId), sub, op);
    KeepsEligible(f, sg, callee, callId, op, RenamedOp(op, sub));
    assert L1Call(Carved(f, sg, callee, callId), RenamedOp(op, sub));
  }

  lemma NotMember(f: Func, sg: Subgraph, op: Op)
    requires WellFormed(f) && IsSubgraph(f, sg) && op in f.body && op !in Members(sg)
    ensures op.id !in Ids(sg.ops) + Ids(sg.loadCachedOps)
  {
    assert op.id in Ids(sg.ops) ==> op in Only(f.body, Ids(sg.ops));
    assert op.id in Ids(sg.loadCachedOps) ==> op in Only(f.body, Ids(sg.loadCachedOps));
  }

  /** A failing call after cutting out is the new one, or was there before. */
  lemma L1CallBack(f: Func, sg: Subgraph, callee: string, callId: nat, op': Op)
    requires Replaceable(f, sg, callId) && L1Call(Carved(f, sg, callee, callId), op')
    requires op' != CallFor(f, sg, callee, callId)
    ensures HasL1Call(f)
  {
    var ids, sub := Ids(sg.ops) + Ids(sg.loadCachedOps), CallResults(BoundaryOutputs(f, sg), callId);
    HoistedOps(f.body, ids, CallFor(f, sg, callee, callId), sub, op');
    var op :| op in f.body && op.id !in ids && op' == RenamedOp(op, sub);
    StillEligible(f, sg, callee, callId, op);
    assert L1Call(f, op);
  }

  // ----- The outputs of the other subgraphs -----

  lemma UsedAfter(f: Func, sg: Subgraph, callee: string, callId: nat, ids: set<nat>, member: Op, v: Value)
    requires Replaceable(f, sg, callId) && member in f.body && !member.shared && v in Results(member)
    requires member.id !in Ids(sg.ops) + Ids(sg.loadCachedOps) && UsedOutside(f, ids, v)
    ensures UsedOutside(Carved(f, sg, callee, callId), ids, v)
  {
    var sub := CallResults(BoundaryOutputs(f, sg), callId);
    OutputsOf(f, sg);
    if v in f.outs {
      StaysAmong(f.outs, sub, v);
    } else {
      var user :| user in f.body && user.id !in ids && v in user.operands;
      UserStays(f, sg, member, user, v);
      Survives(f.body, Ids(sg.ops) + Ids(sg.loadCachedOps), CallFor(f, sg, callee, callId), sub, user);
      StaysAmong(user.operands, sub, v);
      assert v in RenamedOp(user, sub).operands;
    }
  }

  lemma StaysAmong(vs: seq<Value>, sub: map<Value, Value>, v: Value)
    requires v in vs && v !in sub
    ensures v in RenamedAll(vs, sub)
  {
    var k :| 0 <= k < |vs| && vs[k] == v;
    assert RenamedAll(vs, sub)[k] == v;
  }

  lemma WasAmong(vs: seq<Value>, outputs: seq<Value>, callId: nat, v: Value)
    requires v in RenamedAll(vs, CallResults(outputs, callId)) && v.Res? && v.op != callId
    ensures v in vs
  {
    var sub := CallResults(outputs, callId);
    var k :| 0 <= k < |vs| && RenamedAll(vs, sub)[k] == v;
    assert vs[k] in sub ==> IsResultFor(sub[vs[k]], vs[k], outputs, callId);
    assert vs[k] in vs;
  }

  lemma UsedIt(user: Op, outputs: seq<Value>, callId: nat, v: Value)
    requires v in RenamedOp(user, CallResults(outputs, callId)).operands && v.Res? && v.op != callId
    ensures v in user.operands
  {
    WasAmong(user.operands, outputs, callId, v);
  }

  lemma OperandBefore(f: Func, sg: Subgraph, callee: string, callId: nat, user': Op, v: Value)
    requires user' in Carved(f, sg, callee, callId).body && v in user'.operands && v.Res? && v.op != callId
    ensures exists user :: user in f.body && user.id == user'.id && v in user.operands
  {
    var call, sub := CallFor(f, sg, callee, callId), CallResults(BoundaryOutputs(f, sg), callId);
    HoistedOps(f.body, Ids(sg.ops) + Ids(sg.loadCachedOps), call, sub, user');
    assert call.operands == BoundaryInputs(f, sg);
    assert user' != call;
    var user :| user in f.body && user' == RenamedOp(user, sub);
    UsedIt(user, BoundaryOutputs(f, sg), callId, v);
  }

  lemma UsedBefore(f: Func, sg: Subgraph, callee: string, callId: nat, ids: set<nat>, v: Value)
    requires v.Res? && v.op != callId && UsedOutside(Carved(f, sg, callee, callId), ids, v)
    ensures UsedOutside(f, ids, v)
  {
    var g := Carved(f, sg, callee, callId);
    if v in g.outs {
      WasAmong(f.outs, BoundaryOutputs(f, sg), callId, v);
    } else {
      var user' :| user' in g.body && user'.id !in ids && v in user'.operands;
      OperandBefore(f, sg, callee, callId, user', v);
    }
  }

  /** A value keeps its type. */
  lemma InL1Stays(f: Func, sg: Subgraph, callee: string, callId: nat, v: Value)
    requires v.Res? && v.op != callId && v.op !in Ids(sg.ops) + Ids(sg.loadCachedOps)
    ensures InL1(Carved(f, sg, callee, callId).body, v) <==> InL1(f.body, v)
  {
    var g, sub := Carved(f, sg, callee, callId), CallResults(BoundaryOutputs(f, sg), callId);
    if InL1(g.body, v) {
      var op' :| op' in g.body && op'.id == v.op && v.index in op'.resident;
      HoistedOps(f.body, Ids(sg.ops) + Ids(sg.loadCachedOps), CallFor(f, sg, callee, callId), sub, op');
    }
    if InL1(f.body, v) {
      var op :| op in f.body && op.id == v.op && v.index in op.resident;
      Survives(f.body, Ids(sg.ops) + Ids(sg.loadCachedOps), CallFor(f, sg, callee, callId), sub, op);
      assert RenamedOp(op, sub) in g.body;
    }
  }

  lemma OtherMember(f: Func, sg: Subgraph, other: Subgraph, callId: nat, member: Op)
    requires Replaceable(f, sg, callId) && IsSubgraph(f, other) && Apart(sg, other) && member in Members(other)
    ensures member in f.body && !member.shared && member.id != callId
    ensures member.id !in Ids(sg.ops) + Ids(sg.loadCachedOps)
  {
    assert member in Only(f.body, Ids(other.ops)) || member in Only(f.body, Ids(other.loadCachedOps));
    assert member.id in Ids(Members(other)) && Ids(Members(sg)) == Ids(sg.ops) + Ids(sg.loadCachedOps);
  }

  lemma OutputStays(f: Func, sg: Subgraph, other: Subgraph, callee: string, callId: nat, v: Value)
    requires Replaceable(f, sg, callId) && IsSubgraph(f, other) && Apart(sg, other)
    ensures v in BoundaryOutputs(Carved(f, sg, callee, callId), other) && InL1(Carved(f, sg, callee, callId).body, v)
      <==> v in BoundaryOutputs(f, other) && InL1(f.body, v)
  {
    if v in Defs(other.ops) || v in Defs(other.loadCachedOps) {
      var member := DefiningMember(other, v);
      OtherMember(f, sg, other, callId, member);
      InL1Stays(f, sg, callee, callId, v);
      UsedSame(f, sg, callee, callId, Ids(other.ops), member, v);
    }
  }

  lemma UsedSame(f: Func, sg: Subgraph, callee: string, callId: nat, ids: set<nat>, member: Op, v: Value)
    requires Replaceable(f, sg, callId) && member in f.body && !member.shared && v in Results(member)
    requires member.id !in Ids(sg.ops) + Ids(sg.loadCachedOps) && member.id != callId
    ensures UsedOutside(Carved(f, sg, callee, callId), ids, v) <==> UsedOutside(f, ids, v)
  {
    if UsedOutside(f, ids, v) { UsedAfter(f, sg, callee, callId, ids, member, v); }
    if UsedOutside(Carved(f, sg, callee, callId), ids, v) { UsedBefore(f, sg, callee, callId, ids, v); }
  }

  lemma OutputInL1Stays(f: Func, sg: Subgraph, other: Subgraph, callee: string, callId: nat)
    requires Replaceable(f, sg, callId) && IsSubgraph(f, other) && Apart(sg, other)
    ensures OutputInL1(Carved(f, sg, callee, callId), other) <==> OutputInL1(f, other)
  {
    forall v { OutputStays(f, sg, other, callee, callId, v); }
  }

  // ----- One subgraph cut out -----

  lemma HasL1CallNext(f: Func, sg: Subgraph, callee: string, callId: nat)
    requires Replaceable(f, sg, callId) && Passed(f, sg)
    ensures HasL1Call(Carved(f, sg, callee, callId)) <==> HasL1Call(f) || OutputInL1(f, sg)
  {
    var g, call := Carved(f, sg, callee, callId), CallFor(f, sg, callee, callId);
    CallInL1(f, sg, callee, callId);
    if op :| L1Call(f, op) { L1CallStays(f, sg, callee, callId, op); }
    if OutputInL1(f, sg) {
      CallEligible(f, sg, callee, callId);
      CallThere(f, sg, callee, callId);
      assert L1Call(g, call);
    }
    if op' :| L1Call(g, op') && op' != call { L1CallBack(f, sg, callee, callId, op'); }
  }

  lemma PendingNext(f: Func, sg: Subgraph, callee: string, callId: nat, rest: seq<Subgraph>)
    requires Cuts(f, sg, callId, rest)
    ensures Pending(f, [sg] + rest) <==> OutputInL1(f, sg) || Pending(Carved(f, sg, callee, callId), rest)
  {
    forall other | other in rest
      ensures OutputInL1(Carved(f, sg, callee, callId), other) <==> OutputInL1(f, other)
    {
      OutputInL1Stays(f, sg, other, callee, callId);
    }
    assert forall other :: other in [sg] + rest <==> other == sg || other in rest;
  }

  /** Cutting out one subgraph changes nothing about whether such a call is there or due. */
  lemma L1CallDueNext(f: Func, sg: Subgraph, callee: string, callId: nat, rest: seq<Subgraph>)
    requires Cuts(f, sg, callId, rest) && Passed(f, sg)
    ensures L1CallDue(Carved(f, sg, callee, callId), rest) <==> L1CallDue(f, [sg] + rest)
  {
    HasL1CallNext(f, sg, callee, callId);
    PendingNext(f, sg, callee, callId, rest);
  }
}
