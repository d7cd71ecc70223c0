/** Which ops may be hoisted, before and after a subgraph is cut out: no kept op changes sides,
    and the new call is one of them. */
module ConstEvalEligibility {
  import opened Ir
  import opened Rewrite
  import opened ConstEvalSubgraphs
  import opened ConstEvalReplace
  import opened ConstEvalAnalysis

  ghost predicate AllEligible(f: Func, ops: seq<Op>) {
    forall op :: op in ops ==> Eligible(f, op)
  }

  // ----- An op kept may be hoisted afterwards only if it could be before -----

  lemma StillEligible(f: Func, sg: Subgraph, callee: string, callId: nat, op: Op)
    requires Replaceable(f, sg, callId) && op in f.body && op.id !in Ids(sg.ops) + Ids(sg.loadCachedOps)
    requires Eligible(Carved(f, sg, callee, callId), RenamedOp(op, CallResults(BoundaryOutputs(f, sg), callId)))
    ensures Eligible(f, op)
  {
    if WrittenInPlace(f, op) {
      var i, user :| 0 <= i < op.numResults && user in f.body && WritesTo(user, Res(op.id, i));
      StillWritten(f, sg, callee, callId, op, i, user);
    }
  }

  lemma StillWritten(f: Func, sg: Subgraph, callee: string, callId: nat, op: Op, i: nat, user: Op)
    requires Replaceable(f, sg, callId) && op in f.body && op.id !in Ids(sg.ops) + Ids(sg.loadCachedOps) && !op.shared
    requires i < op.numResults && user in f.body && WritesTo(user, Res(op.id, i))
    ensures WrittenInPlace(Carved(f, sg, callee, callId), RenamedOp(op, CallResults(BoundaryOutputs(f, sg), callId)))
  {
    var sub, ids := CallResults(BoundaryOutputs(f, sg), callId), Ids(sg.ops) + Ids(sg.loadCachedOps);
    OutputsOf(f, sg);
    var j :| 0 <= j < |user.operands| && j in user.writes && user.operands[j] == Res(op.id, i);
    assert user.operands[j] in user.operands;
    UserStays(f, sg, op, user, Res(op.id, i));
    Survives(f.body, ids, CallFor(f, sg, callee, callId), sub, user);
    var user' := RenamedOp(user, sub);
    assert user'.operands[j] == Res(op.id, i);
    assert WritesTo(user', Res(op.id, i)) && user' in Carved(f, sg, callee, callId).body;
  }

  /** No op of the subgraph uses an op that is neither shared nor of the subgraph. */
  lemma UserStays(f: Func, sg: Subgraph, op: Op, user: Op, v: Value)
    requires WellFormed(f) && IsSubgraph(f, sg) && op in f.body && !op.shared && user in f.body
    requires op.id !in Ids(sg.ops) + Ids(sg.loadCachedOps) && v in user.operands && v.Res? && v.op == op.id
    ensures user.id !in Ids(sg.ops) + Ids(sg.loadCachedOps)
  {
    if user.id in Ids(sg.ops) + Ids(sg.loadCachedOps) {
      assert user in Only(f.body, Ids(sg.ops)) || user in Only(f.body, Ids(sg.loadCachedOps));
      assert OperandsInside(f, sg, user) && Inside(f, sg, v);
      NotShared(f.body, op);
      assert false;
    }
  }

  lemma NotShared(ops: seq<Op>, op: Op)
    requires UniqueIds(ops) && op in ops && !op.shared
    ensures op.id !in SharedIds(ops)
  {
    forall e | e in ops && e.shared ensures e.id != op.id {
      if e.id == op.id { SameId(ops, op, e); }
    }
  }

  // ----- And it still may be if it could be -----

  /** Where an operand of a rewritten op comes from: it is the old one, or a call result that
      stands for it. */
  lemma OperandSource(f: Func, sg: Subgraph, callId: nat, op: Op, j: nat)
    requires j < |op.operands|
    ensures var v := RenamedOp(op, CallResults(BoundaryOutputs(f, sg), callId)).operands[j];
      v == op.operands[j] || IsResultFor(v, op.operands[j], BoundaryOutputs(f, sg), callId)
  {
  }

  lemma KeepsEligible(f: Func, sg: Subgraph, callee: string, callId: nat, op: Op, op': Op)
    requires Replaceable(f, sg, callId) && op in f.body && Eligible(f, op)
    requires op' == RenamedOp(op, CallResults(BoundaryOutputs(f, sg), callId))
    ensures Eligible(Carved(f, sg, callee, callId), op')
  {
    var g := Carved(f, sg, callee, callId);
    forall i, user' | 0 <= i < op.numResults && user' in g.body ensures !WritesTo(user', Res(op.id, i)) {
      if WritesTo(user', Res(op.id, i)) {
        WrittenBefore(f, sg, callee, callId, user', Res(op.id, i));
        assert WrittenInPlace(f, op);
      }
    }
  }

  /** What a rewritten op writes in place is what it wrote before, or the call result that stands
      for it. */
  lemma WriteSource(f: Func, sg: Subgraph, callId: nat, user: Op, v: Value) returns (u: Value)
    requires user in f.body && WritesTo(RenamedOp(user, CallResults(BoundaryOutputs(f, sg), callId)), v)
    ensures WritesTo(user, u) && u in user.operands
    ensures u == v || IsResultFor(v, u, BoundaryOutputs(f, sg), callId)
  {
    var user' := RenamedOp(user, CallResults(BoundaryOutputs(f, sg), callId));
    var j :| 0 <= j < |user'.operands| && j in user'.writes && user'.operands[j] == v;
    OperandSource(f, sg, callId, user, j);
    u := user.operands[j];
  }

  /** Only old ops write in place. */
  lemma WriterIsOld(f: Func, sg: Subgraph, callee: string, callId: nat, user': Op, v: Value) returns (user: Op)
    requires user' in Carved(f, sg, callee, callId).body && WritesTo(user', v)
    ensures user in f.body && user' == RenamedOp(user, CallResults(BoundaryOutputs(f, sg), callId))
  {
    var call, sub := CallFor(f, sg, callee, callId), CallResults(BoundaryOutputs(f, sg), callId);
    HoistedOps(f.body, Ids(sg.ops) + Ids(sg.loadCachedOps), call, sub, user');
    assert user' != call;
    user :| user in f.body && user' == RenamedOp(user, sub);
  }

  /** Whatever the rewritten function writes in place, other than a result of the new call, was
      written in place before. */
  lemma WrittenBefore(f: Func, sg: Subgraph, callee: string, callId: nat, user': Op, v: Value)
    requires user' in Carved(f, sg, callee, callId).body && WritesTo(user', v) && !DefinedBy(v, {callId})
    ensures exists user :: user in f.body && WritesTo(user, v)
  {
    var user := WriterIsOld(f, sg, callee, callId, user', v);
    var u := WriteSource(f, sg, callId, user, v);
  }

  // ----- The new call may be hoisted -----

  lemma CallEligible(f: Func, sg: Subgraph, callee: string, callId: nat)
    requires Replaceable(f, sg, callId) && AllEligible(f, Members(sg))
    ensures Eligible(Carved(f, sg, callee, callId), CallFor(f, sg, callee, callId))
  {
    var g, outputs := Carved(f, sg, callee, callId), BoundaryOutputs(f, sg);
    forall i, user' | 0 <= i < |outputs| && user' in g.body ensures !WritesTo(user', Res(callId, i)) {
      if WritesTo(user', Res(callId, i)) {
        OutputWritten(f, sg, callee, callId, user', i);
        OutputUnwritten(f, sg, outputs[i]);
        assert false;
      }
    }
  }

  /** Writing a call result in place was writing the output it stands for. */
  lemma OutputWritten(f: Func, sg: Subgraph, callee: string, callId: nat, user': Op, i: nat)
    requires Replaceable(f, sg, callId) && user' in Carved(f, sg, callee, callId).body
    requires i < |BoundaryOutputs(f, sg)| && WritesTo(user', Res(callId, i))
    ensures exists user :: user in f.body && WritesTo(user, BoundaryOutputs(f, sg)[i])
  {
    var user := WriterIsOld(f, sg, callee, callId, user', Res(callId, i));
    var u := WriteSource(f, sg, callId, user, Res(callId, i));
    OperandsOld(f, sg, callId, user, u);
    assert WritesTo(user, BoundaryOutputs(f, sg)[i]);
  }

  /** No op used a result of the new call. */
  lemma OperandsOld(f: Func, sg: Subgraph, callId: nat, user: Op, u: Value)
    requires Replaceable(f, sg, callId) && user in f.body && u in user.operands
    ensures !DefinedBy(u, {callId})
  {
    OperandsInScope(f, user);
    if u in Defs(f.body) { var op := DefiningOp(f.body, u); }
  }

  lemma OutputUnwritten(f: Func, sg: Subgraph, v: Value)
    requires WellFormed(f) && IsSubgraph(f, sg) && AllEligible(f, Members(sg)) && v in BoundaryOutputs(f, sg)
    ensures forall user :: user in f.body ==> !WritesTo(user, v)
  {
    var op := DefiningMember(sg, v);
    assert Eligible(f, op) && v == Res(op.id, v.index);
  }

  lemma DefiningMember(sg: Subgraph, v: Value) returns (member: Op)
    requires v in Defs(sg.ops) || v in Defs(sg.loadCachedOps)
    ensures member in Members(sg) && v in Results(member)
  {
    if v in Defs(sg.ops) { member := DefiningOp(sg.ops, v); } else { member := DefiningOp(sg.loadCachedOps, v); }
  }

  // ----- The members of the other subgraphs -----

  /** Members of the other subgraphs are read unchanged. */
  lemma OtherMemberSame(f: Func, sg: Subgraph, other: Subgraph, callId: nat, op: Op)
    requires WellFormed(f) && IsSubgraph(f, sg) && IsSubgraph(f, other) && Apart(sg, other) && op in Members(other)
    ensures RenamedOp(op, CallResults(BoundaryOutputs(f, sg), callId)) == op
  {
    var sub := CallResults(BoundaryOutputs(f, sg), callId);
    OthersUntouched(f, sg, other, callId);
    forall j | 0 <= j < |op.operands| ensures op.operands[j] !in sub { assert op.operands[j] in op.operands; }
    assert RenamedAll(op.operands, sub) == op.operands;
  }

  /** The members of another subgraph still may be hoisted. */
  lemma OthersEligible(f: Func, sg: Subgraph, other: Subgraph, callee: string, callId: nat)
    requires Replaceable(f, sg, callId) && IsSubgraph(f, other) && Apart(sg, other) && AllEligible(f, Members(other))
    ensures AllEligible(Carved(f, sg, callee, callId), Members(other))
  {
    forall op | op in Members(other) ensures Eligible(Carved(f, sg, callee, callId), op) {
      assert op in Only(f.body, Ids(other.ops)) || op in Only(f.body, Ids(other.loadCachedOps));
      OtherMemberSame(f, sg, other, callId, op);
      KeepsEligible(f, sg, callee, callId, op, op);
    }
  }
}
