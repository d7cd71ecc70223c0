/** Which functions leave calls behind that a second analysis fails on: those in which a value
    to be hoisted resides in L1 and is used by what stays. */
module ConstEvalLeaving {
  import opened Ir
  import opened Rewrite
  import opened ConstEvalSubgraphs
  import opened ConstEvalEligibility
  import opened ConstEvalResidency
  import opened ConstEvalAnalyzer

  /** The value is returned, or used by an op that stays. */
  ghost predicate Leaves(f: Func, v: Value) {
    v in f.outs || exists user :: user in f.body && !ToHoist(f, user) && v in user.operands
  }

  ghost predicate L1ResultLeaves(f: Func, op: Op, v: Value) {
    op in f.body && ToHoist(f, op) && v in Results(op) && v.index in op.resident && Leaves(f, v)
  }

  /** Some result in L1 of an op to be hoisted leaves its subgraph. */
  ghost predicate L1Leaves(f: Func) {
    exists op, v :: L1ResultLeaves(f, op, v)
  }

  // ----- Leaving a subgraph is leaving the hoisted ops -----

  lemma ApartIn(subgraphs: seq<Subgraph>, a: Subgraph, b: Subgraph, id: nat)
    requires forall i, j :: 0 <= i < j < |subgraphs| ==> Apart(subgraphs[i], subgraphs[j])
    requires a in subgraphs && b in subgraphs && id in Ids(Members(a)) && id in Ids(Members(b))
    ensures a == b
  {
    var i :| 0 <= i < |subgraphs| && subgraphs[i] == a;
    var j :| 0 <= j < |subgraphs| && subgraphs[j] == b;
  }

  lemma MemberFacts(f: Func, sg: Subgraph, member: Op)
    requires WellFormed(f) && IsSubgraph(f, sg) && member in Members(sg)
    ensures member in f.body && member.id in Ids(Members(sg)) && member.id !in SharedIds(f.body)
  {
    assert member in Only(f.body, Ids(sg.ops)) || member in Only(f.body, Ids(sg.loadCachedOps));
    NotShared(f.body, member);
  }

  /** An op of one subgraph uses values of that one only. */
  lemma UserInSame(f: Func, subgraphs: seq<Subgraph>, sg: Subgraph, other: Subgraph, member: Op, user: Op, v: Value)
    requires WellFormed(f) && AllLegal(f.body) && Separate(f, subgraphs) && sg in subgraphs && other in subgraphs
    requires member in Members(sg) && user in Members(other) && v in Results(member) && v in user.operands
    ensures user in sg.ops
  {
    MemberFacts(f, sg, member);
    MemberFacts(f, other, user);
    assert OperandsInside(f, other, user) && Inside(f, other, v);
    assert member.id in Ids(Members(other)) by {
      assert Members(other) == other.loadCachedOps + other.ops;
    }
    ApartIn(subgraphs, sg, other, member.id);
    assert Legal(user);
  }

  lemma LeavesSubgraph(f: Func, root: map<Value, Value>, roots: seq<Value>, subgraphs: seq<Subgraph>, sg: Subgraph,
                       member: Op, v: Value)
    requires WellFormed(f) && AllLegal(f.body) && Analyzed(f, |f.body|, root)
    requires Listed(f, root, roots, subgraphs) && Separate(f, subgraphs)
    requires sg in subgraphs && member in Members(sg) && v in Results(member)
    ensures UsedOutside(f, Ids(sg.ops), v) <==> Leaves(f, v)
  {
    forall user | user in f.body && v in user.operands ensures user.id in Ids(sg.ops) <==> ToHoist(f, user) {
      ListedHold(f, root, roots, subgraphs, user);
      if user.id in Ids(sg.ops) { assert user in Only(f.body, Ids(sg.ops)) && user in Members(sg); }
      if other :| other in subgraphs && user in Members(other) {
        UserInSame(f, subgraphs, sg, other, member, user, v);
      }
    }
  }

  // ----- Such a value is an output in L1 -----

  lemma TypeOfResult(f: Func, op: Op, v: Value)
    requires WellFormed(f) && op in f.body && v in Results(op)
    ensures InL1(f.body, v) <==> v.index in op.resident
  {
    if InL1(f.body, v) {
      var e :| e in f.body && e.id == v.op && v.index in e.resident;
      SameId(f.body, e, op);
    }
  }

  lemma OutputLeaves(f: Func, root: map<Value, Value>, roots: seq<Value>, subgraphs: seq<Subgraph>, sg: Subgraph,
                     v: Value)
    requires WellFormed(f) && AllLegal(f.body) && Analyzed(f, |f.body|, root)
    requires Listed(f, root, roots, subgraphs) && Separate(f, subgraphs)
    requires sg in subgraphs && v in BoundaryOutputs(f, sg) && InL1(f.body, v)
    ensures L1Leaves(f)
  {
    var op := DefiningMember(sg, v);
    MemberFacts(f, sg, op);
    TypeOfResult(f, op, v);
    LeavesSubgraph(f, root, roots, subgraphs, sg, op, v);
    ListedHold(f, root, roots, subgraphs, op);
    assert L1ResultLeaves(f, op, v);
  }

  lemma LeavingIsOutput(f: Func, root: map<Value, Value>, roots: seq<Value>, subgraphs: seq<Subgraph>, op: Op,
                        v: Value)
    requires WellFormed(f) && AllLegal(f.body) && Analyzed(f, |f.body|, root)
    requires Listed(f, root, roots, subgraphs) && Separate(f, subgraphs) && L1ResultLeaves(f, op, v)
    ensures Pending(f, subgraphs)
  {
    ListedHold(f, root, roots, subgraphs, op);
    var sg :| sg in subgraphs && op in Members(sg);
    LeavesSubgraph(f, root, roots, subgraphs, sg, op, v);
    TypeOfResult(f, op, v);
    if op in sg.ops { DefsOf(sg.ops, op); } else { DefsOf(sg.loadCachedOps, op); }
    assert v in BoundaryOutputs(f, sg) && OutputInL1(f, sg);
  }

  /** What the subgraphs will leave in L1 can be told from the function as it is. */
  lemma PendingExactlyWhen(f: Func, root: map<Value, Value>, roots: seq<Value>, subgraphs: seq<Subgraph>)
    requires WellFormed(f) && AllLegal(f.body) && Analyzed(f, |f.body|, root)
    requires Listed(f, root, roots, subgraphs) && Separate(f, subgraphs)
    ensures Pending(f, subgraphs) <==> L1Leaves(f)
  {
    if Pending(f, subgraphs) {
      var sg :| sg in subgraphs && OutputInL1(f, sg);
      var v :| v in BoundaryOutputs(f, sg) && InL1(f.body, v);
      OutputLeaves(f, root, roots, subgraphs, sg, v);
    }
    if op, v :| L1ResultLeaves(f, op, v) { LeavingIsOutput(f, root, roots, subgraphs, op, v); }
  }
}
