/** Running the pass on its own result. What is left of a processed function holds no const-eval
    op but calls, so that a second run makes no new function for it; but the second analysis
    fails if a call stands for a value in L1, because calls carry no tag. */
module ConstEvalRerun {
  import opened Ir
  import opened Rewrite
  import opened ConstEvalSubgraphs
  import opened ConstEvalArguments
  import opened ConstEvalReplace
  import opened ConstEvalAnalysis
  import opened ConstEvalEligibility
  import opened ConstEvalResidency
  import opened ConstEvalLinks
  import opened ConstEvalAnalyzer
  import opened ConstEvalCount
  import opened ConstEvalLeaving

  // ----- What is const-eval in a function on its way -----

  ghost predicate MemberOfSome(rest: seq<Subgraph>, op: Op) {
    exists sg :: sg in rest && op in Members(sg)
  }

  /** A call as the pass makes them. */
  ghost predicate CallInPlace(f: Func, op: Op) {
    op.kind.LoadCached? && TakesConstArgs(f, op) && TakesInOrder(f.args, op)
  }

  /** The results of a candidate are among the given values; it is an op of a subgraph still to
      come, a call in place, or an op without results; and only a call may lack the tag. */
  ghost predicate Placed(f: Func, found: set<Value>, rest: seq<Subgraph>, op: Op) {
    && (L1Untagged(op) ==> op.kind.LoadCached?) && Results(op) <= found
    && (op.numResults > 0 ==> MemberOfSome(rest, op) || CallInPlace(f, op))
  }

  ghost predicate AllPlaced(f: Func, found: set<Value>, rest: seq<Subgraph>) {
    forall op :: op in f.body && Candidate(f, found, op) ==> Placed(f, found, rest, op)
  }

  ghost predicate ConstInputs(f: Func, found: set<Value>, sg: Subgraph) {
    && (forall i :: i in sg.inputParameters ==> i in f.constParams)
    && (forall op :: op in Members(sg) ==> Results(op) <= found)
  }

  /** No const-eval op but those of the subgraphs still to come, and calls. */
  ghost predicate Tame(f: Func, found: set<Value>, rest: seq<Subgraph>) {
    && AllPlaced(f, found, rest)
    && (forall sg :: sg in rest ==> ConstInputs(f, found, sg) && Passed(f, sg))
  }

  /** `fails`: whether a second analysis will. */
  ghost predicate Settling(f: Func, rest: seq<Subgraph>, fails: bool) {
    (L1CallDue(f, rest) <==> fails) && exists found :: Tame(f, found, rest)
  }

  // ----- At first -----

  lemma AnalyzedIsTame(f: Func, root: map<Value, Value>, roots: seq<Value>, subgraphs: seq<Subgraph>)
    requires WellFormed(f) && CallsTakeConsts(f) && Analyzed(f, |f.body|, root) && Listed(f, root, roots, subgraphs)
    requires !Failed(f, |f.body|)
    ensures Tame(f, Found(f, |f.body|), subgraphs)
  {
    var found := Found(f, |f.body|);
    forall op | op in f.body && Candidate(f, found, op) ensures Placed(f, found, subgraphs, op) {
      CandidatePlaced(f, root, roots, subgraphs, op);
    }
    ArgumentsAreConst(f, root);
    forall sg | sg in subgraphs ensures ConstInputs(f, found, sg) && Passed(f, sg) {
      var i :| 0 <= i < |subgraphs| && subgraphs[i] == sg;
      ClassConst(f, root, roots[i]);
      ClassPassed(f, root, roots[i]);
    }
  }

  /** No call fails at first, so whether one will depends on what leaves the subgraphs. */
  lemma AnalyzedIsSettling(f: Func, root: map<Value, Value>, roots: seq<Value>, subgraphs: seq<Subgraph>)
    requires WellFormed(f) && AllLegal(f.body) && CallsTakeConsts(f) && Analyzed(f, |f.body|, root)
    requires Listed(f, root, roots, subgraphs) && Separate(f, subgraphs) && !Failed(f, |f.body|)
    ensures Settling(f, subgraphs, L1Leaves(f))
  {
    AnalyzedIsTame(f, root, roots, subgraphs);
    PendingExactlyWhen(f, root, roots, subgraphs);
    if HasL1Call(f) {
      L1CallFails(f);
      assert false;
    }
  }

  lemma L1CallFails(f: Func)
    requires WellFormed(f) && HasL1Call(f)
    ensures Failed(f, |f.body|)
  {
    var op :| L1Call(f, op);
    assert Candidate(f, Found(f, |f.body|), op);
    FailsExactlyWhen(f);
  }

  lemma CandidatePlaced(f: Func, root: map<Value, Value>, roots: seq<Value>, subgraphs: seq<Subgraph>, op: Op)
    requires WellFormed(f) && Analyzed(f, |f.body|, root) && Listed(f, root, roots, subgraphs) && !Failed(f, |f.body|)
    requires op in f.body && Candidate(f, Found(f, |f.body|), op)
    ensures Placed(f, Found(f, |f.body|), subgraphs, op)
  {
    FailsExactlyWhen(f);
    JoinedResults(f, op);
    if op.numResults > 0 { ListedHold(f, root, roots, subgraphs, op); }
  }

  lemma JoinedResults(f: Func, op: Op)
    requires WellFormed(f) && op in f.body && Joins(f, Found(f, |f.body|), op)
    ensures Results(op) <= Found(f, |f.body|)
  {
    FoundIsFixpoint(f);
    var j :| 0 <= j < |f.body| && f.body[j] == op;
    forall v | v in Results(op) ensures v in Found(f, |f.body|) { ExplainedOnce(f, Found(f, |f.body|), j, v); }
  }

  lemma ClassConst(f: Func, root: map<Value, Value>, r: Value)
    requires WellFormed(f) && Analyzed(f, |f.body|, root) && MembersTakeConsts(f, root)
    ensures ConstInputs(f, Found(f, |f.body|), ClassSubgraph(f.body, root, r))
  {
    var sg := ClassSubgraph(f.body, root, r);
    forall i | i in sg.inputParameters ensures i in f.constParams {
      var op :| op in f.body && HasRoot(root, op, r) && Arg(i) in op.operands;
      assert TakesConsts(f, op);
    }
    forall op | op in Members(sg) ensures Results(op) <= Found(f, |f.body|) {
      ToHoistHasRoot(f, root, op);
      JoinedResults(f, op);
    }
  }

  lemma ClassPassed(f: Func, root: map<Value, Value>, r: Value)
    requires WellFormed(f) && Analyzed(f, |f.body|, root)
    ensures Passed(f, ClassSubgraph(f.body, root, r))
  {
    forall op | op in Members(ClassSubgraph(f.body, root, r)) ensures Eligible(f, op) && !L1Untagged(op) {
      ToHoistHasRoot(f, root, op);
    }
  }

  // ----- Cutting a subgraph out -----

  /** An operand const-eval under its new name was const-eval under its old one. */
  lemma OperandBack(f: Func, sg: Subgraph, callee: string, callId: nat, found: set<Value>, v: Value)
    requires Replaceable(f, sg, callId) && ConstInputs(f, found, sg) && v in ArgValues(f.args) + Defs(f.body)
    requires var g, call := Carved(f, sg, callee, callId), CallFor(f, sg, callee, callId);
      OperandConstEval(g, found + Results(call), Renamed(v, CallResults(BoundaryOutputs(f, sg), callId)))
    ensures OperandConstEval(f, found, v)
  {
    var sub := CallResults(BoundaryOutputs(f, sg), callId);
    SharedOpsStay(f, sg, callee, callId);
    if v in sub {
      OutputDefined(f, sg, v, found);
    } else if v.Res? {
      var e := DefiningOp(f.body, v);
    }
  }

  lemma OutputDefined(f: Func, sg: Subgraph, v: Value, found: set<Value>)
    requires WellFormed(f) && IsSubgraph(f, sg) && v in BoundaryOutputs(f, sg) && ConstInputs(f, found, sg)
    ensures v.Res? && v in found
  {
    var op := DefiningMember(sg, v);
  }

  lemma CandidateBack(f: Func, sg: Subgraph, callee: string, callId: nat, found: set<Value>, op: Op)
    requires Replaceable(f, sg, callId) && ConstInputs(f, found, sg)
    requires op in f.body && op.id !in Ids(sg.ops) + Ids(sg.loadCachedOps)
    requires var g, call := Carved(f, sg, callee, callId), CallFor(f, sg, callee, callId);
      Candidate(g, found + Results(call), RenamedOp(op, CallResults(BoundaryOutputs(f, sg), callId)))
    ensures Candidate(f, found, op)
  {
    var sub := CallResults(BoundaryOutputs(f, sg), callId);
    StillEligible(f, sg, callee, callId, op);
    OperandsInScope(f, op);
    if op.kind.Plain? {
      forall v | v in op.operands ensures OperandConstEval(f, found, v) {
        var j :| 0 <= j < |op.operands| && op.operands[j] == v;
        assert RenamedOp(op, sub).operands[j] == Renamed(v, sub) && Renamed(v, sub) in RenamedOp(op, sub).operands;
        OperandBack(f, sg, callee, callId, found, v);
      }
    }
  }

  /** A call in place reads block arguments, which nothing renames. */
  lemma InPlaceStays(f: Func, sg: Subgraph, callee: string, callId: nat, op: Op)
    requires WellFormed(f) && IsSubgraph(f, sg) && CallInPlace(f, op)
    ensures CallInPlace(Carved(f, sg, callee, callId), RenamedOp(op, CallResults(BoundaryOutputs(f, sg), callId)))
  {
    var sub := CallResults(BoundaryOutputs(f, sg), callId);
    OutputsOf(f, sg);
    forall j | 0 <= j < |op.operands| ensures op.operands[j] !in sub { assert op.operands[j] in op.operands; }
    assert RenamedAll(op.operands, sub) == op.operands;
  }

  lemma PlacedNext(f: Func, sg: Subgraph, callee: string, callId: nat, found: set<Value>, rest: seq<Subgraph>, op: Op)
    requires Cuts(f, sg, callId, rest) && op in f.body && op.id !in Ids(sg.ops) + Ids(sg.loadCachedOps)
    requires Placed(f, found, [sg] + rest, op)
    ensures var g, call := Carved(f, sg, callee, callId), CallFor(f, sg, callee, callId);
      Placed(g, found + Results(call), rest, RenamedOp(op, CallResults(BoundaryOutputs(f, sg), callId)))
  {
    var op' := RenamedOp(op, CallResults(BoundaryOutputs(f, sg), callId));
    assert Results(op') == Results(op);
    if CallInPlace(f, op) {
      InPlaceStays(f, sg, callee, callId, op);
    } else if op.numResults > 0 {
      var other :| other in [sg] + rest && op in Members(other);
      assert other != sg;
      OtherMemberSame(f, sg, other, callId, op);
      assert other in rest && op' in Members(other);
    }
  }

  lemma {:induction false} InputsAgain(args: seq<nat>, parameters: set<nat>, more: set<nat>)
    requires forall i :: i in args ==> (i in parameters <==> i in more)
    ensures Inputs(args, parameters) == Inputs(args, more)
  {
    if args != [] {
      assert args == args[..|args| - 1] + [args[|args| - 1]];
      InputsAgain(args[..|args| - 1], parameters, more);
    }
  }

  /** The new call takes its inputs in order, whatever the calls it replaces took. */
  lemma NewCallInOrder(f: Func, sg: Subgraph, callee: string, callId: nat)
    ensures TakesInOrder(f.args, CallFor(f, sg, callee, callId))
  {
    forall i | i in f.args ensures i in sg.inputParameters <==> i in Params(BoundaryInputs(f, sg)) {
      assert Arg(i) in BoundaryInputs(f, sg) <==> i in sg.inputParameters;
    }
    InputsAgain(f.args, sg.inputParameters, Params(BoundaryInputs(f, sg)));
  }

  lemma CallPlaced(f: Func, sg: Subgraph, callee: string, callId: nat, found: set<Value>, rest: seq<Subgraph>)
    requires ConstInputs(f, found, sg)
    ensures Placed(Carved(f, sg, callee, callId), found + Results(CallFor(f, sg, callee, callId)), rest,
              CallFor(f, sg, callee, callId))
  {
    NewCallInOrder(f, sg, callee, callId);
  }

  lemma AllPlacedNext(f: Func, sg: Subgraph, callee: string, callId: nat, found: set<Value>, rest: seq<Subgraph>)
    requires Cuts(f, sg, callId, rest) && ConstInputs(f, found, sg) && AllPlaced(f, found, [sg] + rest)
    ensures AllPlaced(Carved(f, sg, callee, callId), found + Results(CallFor(f, sg, callee, callId)), rest)
  {
    var g, call := Carved(f, sg, callee, callId), CallFor(f, sg, callee, callId);
    var ids, sub := Ids(sg.ops) + Ids(sg.loadCachedOps), CallResults(BoundaryOutputs(f, sg), callId);
    forall op' | op' in g.body && Candidate(g, found + Results(call), op')
      ensures Placed(g, found + Results(call), rest, op')
    {
      HoistedOps(f.body, ids, call, sub, op');
      if op' == call {
        CallPlaced(f, sg, callee, callId, found, rest);
      } else {
        var op :| op in f.body && op.id !in ids && op' == RenamedOp(op, sub);
        CandidateBack(f, sg, callee, callId, found, op);
        assert Placed(f, found, [sg] + rest, op);
        PlacedNext(f, sg, callee, callId, found, rest, op);
      }
    }
  }

  lemma TameNext(f: Func, sg: Subgraph, callee: string, callId: nat, found: set<Value>, rest: seq<Subgraph>)
    requires Cuts(f, sg, callId, rest) && Tame(f, found, [sg] + rest)
    ensures Tame(Carved(f, sg, callee, callId), found + Results(CallFor(f, sg, callee, callId)), rest)
  {
    assert sg in [sg] + rest;
    AllPlacedNext(f, sg, callee, callId, found, rest);
    forall other | other in rest
      ensures ConstInputs(Carved(f, sg, callee, callId), found + Results(CallFor(f, sg, callee, callId)), other)
      ensures Passed(Carved(f, sg, callee, callId), other)
    {
      assert other in [sg] + rest && ConstInputs(f, found, other) && Passed(f, other);
      OthersEligible(f, sg, other, callee, callId);
    }
  }

  /** Cutting out the next subgraph keeps the function settling. */
  lemma SettlingNext(f: Func, sg: Subgraph, callee: string, callId: nat, rest: seq<Subgraph>, fails: bool)
    requires Cuts(f, sg, callId, rest) && Settling(f, [sg] + rest, fails)
    ensures Settling(Carved(f, sg, callee, callId), rest, fails)
  {
    var found :| Tame(f, found, [sg] + rest);
    TameNext(f, sg, callee, callId, found, rest);
    assert sg in [sg] + rest && Passed(f, sg);
    L1CallDueNext(f, sg, callee, callId, rest);
  }

  // ----- At last -----

  lemma CandidateMore(f: Func, some: set<Value>, more: set<Value>, op: Op)
    requires some <= more && Candidate(f, some, op)
    ensures Candidate(f, more, op)
  {
    forall v | v in op.operands && OperandConstEval(f, some, v) ensures OperandConstEval(f, more, v) { }
  }

  lemma {:induction false} FoundWithin(f: Func, found: set<Value>, k: nat)
    requires AllPlaced(f, found, []) && k <= |f.body|
    ensures Found(f, k) <= found
  {
    if k > 0 {
      FoundWithin(f, found, k - 1);
      if Joins(f, Found(f, k - 1), f.body[k - 1]) {
        CandidateMore(f, Found(f, k - 1), found, f.body[k - 1]);
        assert f.body[k - 1] in f.body && Placed(f, found, [], f.body[k - 1]);
      }
    }
  }

  lemma SettledCandidates(f: Func, found: set<Value>)
    requires Tame(f, found, [])
    ensures forall op :: op in f.body && Candidate(f, Found(f, |f.body|), op) ==>
      (L1Untagged(op) ==> L1Call(f, op)) && (op.numResults > 0 ==> CallInPlace(f, op))
  {
    FoundWithin(f, found, |f.body|);
    forall op | op in f.body && Candidate(f, Found(f, |f.body|), op)
      ensures (L1Untagged(op) ==> L1Call(f, op)) && (op.numResults > 0 ==> CallInPlace(f, op))
    {
      CandidateMore(f, Found(f, |f.body|), found, op);
      assert Placed(f, found, [], op);
    }
  }

  /** What a second analysis can find is calls in place. */
  ghost predicate OnlyCallsLeft(f: Func) {
    forall op :: op in f.body && ToHoist(f, op) ==> CallInPlace(f, op)
  }

  /** A processed function: a second analysis fails exactly when foreseen, and in any case finds
      only calls, so that no function is made for it. */
  lemma SettledNeedsNothing(f: Func, fails: bool)
    requires WellFormed(f) && Settling(f, [], fails)
    ensures (Failed(f, |f.body|) <==> fails) && OnlyCallsLeft(f)
    ensures CallsTakeConsts(f) && FirstCallsInOrder(f) && NewLeaders(f) == {} && Needed(f) == 0
  {
    var found :| Tame(f, found, []);
    SettledCandidates(f, found);
    FailsExactlyWhen(f);
    if HasL1Call(f) { L1CallFails(f); }
    OnlyCallsReady(f);
  }

  lemma OnlyCallsReady(f: Func)
    requires OnlyCallsLeft(f)
    ensures CallsTakeConsts(f) && FirstCallsInOrder(f) && NewLeaders(f) == {}
  {
    forall j | 0 <= j < |f.body| && FirstCall(f, j) ensures TakesInOrder(f.args, f.body[j]) {
      assert f.body[j] in f.body;
    }
    forall j | 0 <= j < |f.body| && Leads(f, j) ensures !CallFree(f, f.body[j]) { LeaderIsCall(f, j); }
  }

  lemma LeaderIsCall(f: Func, j: nat)
    requires Leads(f, j) && OnlyCallsLeft(f)
    ensures !CallFree(f, f.body[j])
  {
    var op := f.body[j];
    assert op in f.body && CallInPlace(f, op);
    LinkedSelf(Groups(f, |f.body|), Res(op.id, 0));
    assert SameClass(f, op, op);
  }

  // ----- A value in L1 that leaves -----

  /** A function returning what its only op, tagged, puts into L1. */
  function TaggedInL1(): Func {
    Func([0], [Op(0, Plain("add", 0), [Arg(0)], 1, false, false, {0}, true, {})], [Res(0, 0)], {0}, false)
  }

  function ItsSubgraph(): Subgraph {
    Subgraph({0}, [], TaggedInL1().body)
  }

  lemma TaggedIsWellFormed()
    ensures WellFormed(TaggedInL1()) && AllLegal(TaggedInL1().body)
    ensures Candidate(TaggedInL1(), {}, TaggedInL1().body[0])
  {
    var f := TaggedInL1();
    assert InScope(ArgValues(f.args), f.body, 0);
    assert !WrittenInPlace(f, f.body[0]);
  }

  /** The analysis accepts the function, and finds its op. */
  lemma TaggedIsHoisted()
    ensures !Failed(TaggedInL1(), 1) && ToHoist(TaggedInL1(), TaggedInL1().body[0]) && L1Leaves(TaggedInL1())
  {
    var f := TaggedInL1();
    TaggedIsWellFormed();
    VerdictStands(f, 0);
    assert L1ResultLeaves(f, f.body[0], Res(0, 0));
  }

  lemma TaggedOutput()
    ensures OutputInL1(TaggedInL1(), ItsSubgraph())
  {
    var f := TaggedInL1();
    DefsOf(f.body, f.body[0]);
    assert Res(0, 0) in Outputs(f, Ids(f.body), f.body);
    assert Res(0, 0) in BoundaryOutputs(f, ItsSubgraph()) && InL1(f.body, Res(0, 0));
  }

  lemma TaggedReplaceable()
    ensures Replaceable(TaggedInL1(), ItsSubgraph(), 1) && Passed(TaggedInL1(), ItsSubgraph())
  {
    var f := TaggedInL1();
    TaggedIsWellFormed();
    assert Only(f.body, Ids(f.body)) == f.body && Only(f.body, {}) == [] by { assert f.body[..0] == []; }
  }

  /** But once its op is cut out, the analysis fails. */
  lemma TaggedFailsAgain(callee: string)
    ensures !Failed(TaggedInL1(), 1) && Replaceable(TaggedInL1(), ItsSubgraph(), 1)
    ensures var g := Carved(TaggedInL1(), ItsSubgraph(), callee, 1); WellFormed(g) && Failed(g, |g.body|)
  {
    var f, sg := TaggedInL1(), ItsSubgraph();
    TaggedIsHoisted();
    TaggedReplaceable();
    TaggedOutput();
    HasL1CallNext(f, sg, callee, 1);
    BoundaryHoistable(f, sg);
    HoistedWellFormed(f, Ids(sg.ops) + Ids(sg.loadCachedOps), BoundaryInputs(f, sg), BoundaryOutputs(f, sg), callee, 1);
    L1CallFails(Carved(f, sg, callee, 1));
  }
}
