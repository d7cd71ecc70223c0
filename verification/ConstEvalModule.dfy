/** What one hoisting step does to a module: it keeps every function in good order, and every
    ordinary function returns what it returned. */
module ConstEvalModule {
  import opened Ir
  import opened Rewrite
  import opened ConstEvalClone
  import opened ConstEvalSubgraphs
  import opened ConstEvalCreate
  import opened ConstEvalArguments
  import opened ConstEvalGrow
  import opened ConstEvalOrigin
  import opened ConstEvalReplace
  import opened ConstEvalAnalysis
  import opened ConstEvalEligibility

  // ----- Modules in good order -----

  /** A call resolves to a const-eval function. */
  ghost predicate GoodCall(p: Program, call: Op) {
    Resolves(p, call) && p[call.kind.callee].constEval
  }

  ghost predicate GoodCalls(p: Program, f: Func) {
    forall op :: op in f.body && op.kind.LoadCached? ==> GoodCall(p, op)
  }

  ghost predicate GoodShape(f: Func, nextId: nat) {
    && WellFormed(f) && AllLegal(f.body) && AllBelow(f.args, nextId) && Below(f.body, nextId)
    && (f.constEval ==> AllPlain(f.body))
  }

  ghost predicate GoodFunc(p: Program, f: Func, nextId: nat) {
    GoodShape(f, nextId) && GoodCalls(p, f)
  }

  ghost predicate SameCallee(a: Op, b: Op) {
    a.kind.LoadCached? && b.kind.LoadCached? && a.kind.callee == b.kind.callee
  }

  ghost predicate IsCall(p: Program, n: string, op: Op) {
    n in p && op in p[n].body && op.kind.LoadCached?
  }

  /** A call that may be hoisted, so that its function may grow or go. */
  ghost predicate MovableCall(p: Program, n: string, op: Op) {
    IsCall(p, n, op) && Eligible(p[n], op)
  }

  /** What a call that may be hoisted names is called nowhere else. */
  ghost predicate DistinctCallees(p: Program) {
    forall m, n, a, b :: MovableCall(p, m, a) && IsCall(p, n, b) && SameCallee(a, b) ==> m == n && a.id == b.id
  }

  ghost predicate AllGood(p: Program, nextId: nat) {
    forall n :: n in p ==> GoodFunc(p, p[n], nextId)
  }

  ghost predicate Sane(p: Program, nextId: nat) {
    AllGood(p, nextId) && DistinctCallees(p)
  }

  /** Every ordinary function is still there and returns what it returned. */
  ghost predicate SameReturns(p: Program, q: Program, n: string)
    requires n in p
  {
    && n in q && !q[n].constEval
    && forall sem, data :: Returns(sem, q, q[n], data) == Returns(sem, p, p[n], data)
  }

  ghost predicate Preserved(p: Program, q: Program) {
    forall n :: n in p && !p[n].constEval ==> SameReturns(p, q, n)
  }

  lemma PreservedTwice(p: Program, q: Program, r: Program)
    requires Preserved(p, q) && Preserved(q, r)
    ensures Preserved(p, r)
  {
    forall n | n in p && !p[n].constEval ensures SameReturns(p, r, n) {
      assert SameReturns(p, q, n) && SameReturns(q, r, n);
    }
  }

  // ----- One step -----

  ghost predicate GoodCallee(g: Func, nextId: nat) {
    g.constEval && GoodShape(g, nextId)
  }

  /** Only the subgraph's own calls name the functions touched. */
  ghost predicate OnlyMembersCall(p: Program, name: string, sg: Subgraph, touched: set<string>) {
    forall n, op :: n in p && op in p[n].body && op.kind.LoadCached? && op.kind.callee in touched
      ==> n == name && op.id in Ids(sg.loadCachedOps)
  }

  /** `name` calls `callee` in place of a subgraph; the functions in `gone` are erased. */
  datatype Change = Change(name: string, sg: Subgraph, callee: string, gone: set<string>, callId: nat)

  ghost predicate Framed(p: Program, q: Program, c: Change) {
    && c.callee != c.name && c.name !in c.gone && c.callee !in c.gone
    && q.Keys == p.Keys - c.gone + {c.callee}
    && (forall n :: n in q && n != c.name && n != c.callee ==> q[n] == p[n])
    && (forall n :: n in c.gone + {c.callee} && n in p ==> p[n].constEval)
    && OnlyMembersCall(p, c.name, c.sg, c.gone + {c.callee})
  }

  ghost predicate HoistStep(p: Program, q: Program, c: Change, nextId: nat, nextId': nat) {
    && Sane(p, nextId) && c.name in p && !p[c.name].constEval && IsSubgraph(p[c.name], c.sg)
    && nextId <= c.callId < nextId'
    && Framed(p, q, c)
    && q[c.name] == Carved(p[c.name], c.sg, c.callee, c.callId)
    && GoodCallee(q[c.callee], nextId') && Fits(CallFor(p[c.name], c.sg, c.callee, c.callId), q[c.callee])
    && UncacheableWithin(q[c.callee].body, UncacheableKinds(p))
  }

  ghost predicate AllGoodCalls(p: Program) {
    forall n :: n in p ==> GoodCalls(p, p[n])
  }

  lemma GoodCallsOf(p: Program, nextId: nat)
    requires AllGood(p, nextId)
    ensures AllGoodCalls(p)
  {
  }

  /** What tells where calls lead after the step. */
  ghost predicate Moves(p: Program, q: Program, c: Change) {
    AllGoodCalls(p) && Framed(p, q, c) && c.name in p && !p[c.name].constEval
  }

  lemma StepMoves(p: Program, q: Program, c: Change, nextId: nat, nextId': nat)
    requires HoistStep(p, q, c, nextId, nextId')
    ensures Moves(p, q, c)
  {
    GoodCallsOf(p, nextId);
  }

  /** A call that stays still means the same function. */
  lemma CallKept(p: Program, q: Program, c: Change, n: string, op: Op)
    requires Moves(p, q, c) && IsCall(p, n, op) && !(n == c.name && op.id in Ids(c.sg.loadCachedOps))
    ensures op.kind.callee in p && op.kind.callee in q && q[op.kind.callee] == p[op.kind.callee]
    ensures op.kind.callee != c.callee
  {
    assert GoodCalls(p, p[n]) && GoodCall(p, op);
  }

  lemma CallStaysGood(p: Program, q: Program, c: Change, n: string, op: Op)
    requires Moves(p, q, c) && IsCall(p, n, op) && !(n == c.name && op.id in Ids(c.sg.loadCachedOps))
    ensures GoodCall(q, op)
  {
    CallKept(p, q, c, n, op);
    assert GoodCalls(p, p[n]) && GoodCall(p, op);
  }

  lemma OtherGood(p: Program, q: Program, c: Change, nextId: nat, nextId': nat, n: string)
    requires HoistStep(p, q, c, nextId, nextId') && n in q && n != c.name && n != c.callee
    ensures GoodFunc(q, q[n], nextId')
  {
    StepMoves(p, q, c, nextId, nextId');
    OtherShape(p, q, c, nextId, nextId', n);
    forall op | op in q[n].body && op.kind.LoadCached? ensures GoodCall(q, op) {
      assert IsCall(p, n, op);
      CallStaysGood(p, q, c, n, op);
    }
  }

  lemma OtherShape(p: Program, q: Program, c: Change, nextId: nat, nextId': nat, n: string)
    requires HoistStep(p, q, c, nextId, nextId') && n in q && n != c.name && n != c.callee
    ensures n in p && q[n] == p[n] && GoodShape(q[n], nextId')
  {
    assert GoodFunc(p, p[n], nextId);
  }

  lemma CalleeGood(p: Program, q: Program, c: Change, nextId: nat, nextId': nat)
    requires HoistStep(p, q, c, nextId, nextId')
    ensures GoodFunc(q, q[c.callee], nextId')
  {
  }

  lemma BelowGives(f: Func, nextId: nat, callId: nat)
    requires Below(f.body, nextId) && nextId <= callId
    ensures forall op :: op in f.body ==> op.id != callId
  {
  }

  /** An op of the caller after the step is the new call, or an old op that is not a member. */
  lemma CarvedOps(f: Func, sg: Subgraph, callee: string, callId: nat, op': Op) returns (op: Op)
    requires WellFormed(f) && AllLegal(f.body) && IsSubgraph(f, sg) && op' in Carved(f, sg, callee, callId).body
    requires op' != CallFor(f, sg, callee, callId)
    ensures op in f.body && op.id !in Ids(sg.ops) + Ids(sg.loadCachedOps) && op.id == op'.id && op.kind == op'.kind
    ensures op.kind.LoadCached? ==> op' == op
  {
    var ids, sub := Ids(sg.ops) + Ids(sg.loadCachedOps), CallResults(BoundaryOutputs(f, sg), callId);
    HoistedOps(f.body, ids, CallFor(f, sg, callee, callId), sub, op');
    op :| op in f.body && op.id !in ids && op' == RenamedOp(op, sub);
    if op.kind.LoadCached? { ArgOperandsStay(f, sg, callId, op); }
  }

  lemma ArgOperandsStay(f: Func, sg: Subgraph, callId: nat, op: Op)
    requires WellFormed(f) && IsSubgraph(f, sg) && Legal(op) && op.kind.LoadCached?
    ensures RenamedOp(op, CallResults(BoundaryOutputs(f, sg), callId)) == op
  {
    var sub := CallResults(BoundaryOutputs(f, sg), callId);
    OutputsOf(f, sg);
    forall k | 0 <= k < |op.operands| ensures op.operands[k] !in sub { assert op.operands[k] in op.operands; }
    assert RenamedAll(op.operands, sub) == op.operands;
  }

  lemma NewCallGood(p: Program, q: Program, c: Change, nextId: nat, nextId': nat)
    requires HoistStep(p, q, c, nextId, nextId')
    ensures GoodCall(q, CallFor(p[c.name], c.sg, c.callee, c.callId))
  {
    CallResolves(q, q[c.callee], c.callee, CallFor(p[c.name], c.sg, c.callee, c.callId), nextId');
  }

  lemma CallResolves(q: Program, g: Func, callee: string, call: Op, nextId: nat)
    requires callee in q && q[callee] == g && GoodCallee(g, nextId) && Fits(call, g) && call.kind == LoadCached(callee)
    ensures Resolves(q, call) && q[call.kind.callee].constEval
  {
  }

  lemma CallerGood(p: Program, q: Program, c: Change, nextId: nat, nextId': nat)
    requires HoistStep(p, q, c, nextId, nextId')
    ensures GoodFunc(q, q[c.name], nextId')
  {
    CallerShape(p, q, c, nextId, nextId');
    CallerCalls(p, q, c, nextId, nextId');
  }

  lemma CallerShape(p: Program, q: Program, c: Change, nextId: nat, nextId': nat)
    requires HoistStep(p, q, c, nextId, nextId')
    ensures GoodShape(q[c.name], nextId')
  {
    var f := p[c.name];
    assert GoodFunc(p, f, nextId);
    BelowGives(f, nextId, c.callId);
    BoundaryHoistable(f, c.sg);
    HoistedWellFormed(f, Ids(c.sg.ops) + Ids(c.sg.loadCachedOps), BoundaryInputs(f, c.sg), BoundaryOutputs(f, c.sg),
                      c.callee, c.callId);
    CarvedLegal(f, c.sg, c.callee, c.callId);
    forall op' | op' in q[c.name].body ensures op'.id < nextId' {
      if op' != CallFor(f, c.sg, c.callee, c.callId) { var op := CarvedOps(f, c.sg, c.callee, c.callId, op'); }
    }
  }

  lemma CallerCalls(p: Program, q: Program, c: Change, nextId: nat, nextId': nat)
    requires HoistStep(p, q, c, nextId, nextId')
    ensures GoodCalls(q, q[c.name])
  {
    var f := p[c.name];
    assert GoodFunc(p, f, nextId);
    StepMoves(p, q, c, nextId, nextId');
    NewCallGood(p, q, c, nextId, nextId');
    forall op' | op' in q[c.name].body && op'.kind.LoadCached? ensures GoodCall(q, op') {
      if op' != CallFor(f, c.sg, c.callee, c.callId) {
        var op := CarvedOps(f, c.sg, c.callee, c.callId, op');
        CallStaysGood(p, q, c, c.name, op);
      }
    }
  }

  /** Where a call of the new module comes from. */
  ghost predicate ComesFrom(p: Program, c: Change, n: string, op: Op) {
    if op.kind.LoadCached? && op.kind.callee == c.callee then n == c.name && op.id == c.callId else IsCall(p, n, op)
  }

  lemma CallerOrigin(p: Program, q: Program, c: Change, nextId: nat, nextId': nat, op: Op)
    requires HoistStep(p, q, c, nextId, nextId') && IsCall(q, c.name, op)
    ensures ComesFrom(p, c, c.name, op)
  {
    assert GoodFunc(p, p[c.name], nextId);
    StepMoves(p, q, c, nextId, nextId');
    if op != CallFor(p[c.name], c.sg, c.callee, c.callId) {
      var o := CarvedOps(p[c.name], c.sg, c.callee, c.callId, op);
      CallKept(p, q, c, c.name, o);
    }
  }

  lemma OtherOrigin(p: Program, q: Program, c: Change, nextId: nat, nextId': nat, n: string, op: Op)
    requires HoistStep(p, q, c, nextId, nextId') && IsCall(q, n, op) && n != c.name
    ensures ComesFrom(p, c, n, op)
  {
    StepMoves(p, q, c, nextId, nextId');
    assert n != c.callee;
    assert IsCall(p, n, op);
    CallKept(p, q, c, n, op);
  }

  lemma CallOrigin(p: Program, q: Program, c: Change, nextId: nat, nextId': nat, n: string, op: Op)
    requires HoistStep(p, q, c, nextId, nextId') && IsCall(q, n, op)
    ensures ComesFrom(p, c, n, op)
  {
    if n == c.name {
      CallerOrigin(p, q, c, nextId, nextId', op);
    } else {
      OtherOrigin(p, q, c, nextId, nextId', n, op);
    }
  }

  lemma CallerMovable(f: Func, sg: Subgraph, callee: string, callId: nat, op: Op)
    requires Replaceable(f, sg, callId) && op in Carved(f, sg, callee, callId).body && op.kind.LoadCached?
    requires op != CallFor(f, sg, callee, callId) && Eligible(Carved(f, sg, callee, callId), op)
    ensures Eligible(f, op)
  {
    var o := CarvedOps(f, sg, callee, callId, op);
    ArgOperandsStay(f, sg, callId, o);
    StillEligible(f, sg, callee, callId, o);
  }

  /** A call of the new module that may be hoisted could be before, unless it is the new one. */
  lemma StillMovable(p: Program, q: Program, c: Change, nextId: nat, nextId': nat, n: string, op: Op)
    requires HoistStep(p, q, c, nextId, nextId') && MovableCall(q, n, op)
    ensures ComesFrom(p, c, n, op) && (op.kind.callee != c.callee ==> MovableCall(p, n, op))
  {
    CallOrigin(p, q, c, nextId, nextId', n, op);
    if op.kind.callee != c.callee {
      if n == c.name {
        StepReplaces(p, q, c, nextId, nextId');
        CallerMovable(p[n], c.sg, c.callee, c.callId, op);
      } else if n != c.callee {
        OtherShape(p, q, c, nextId, nextId', n);
      }
    }
  }

  lemma StepReplaces(p: Program, q: Program, c: Change, nextId: nat, nextId': nat)
    requires HoistStep(p, q, c, nextId, nextId')
    ensures Replaceable(p[c.name], c.sg, c.callId) && q[c.name] == Carved(p[c.name], c.sg, c.callee, c.callId)
  {
    TargetGoodFunc(p, q, c, nextId, nextId');
    assert GoodFunc(p, p[c.name], nextId);
    BelowGives(p[c.name], nextId, c.callId);
  }

  lemma PairDistinct(p: Program, c: Change, m: string, n: string, a: Op, b: Op)
    requires DistinctCallees(p) && ComesFrom(p, c, m, a) && ComesFrom(p, c, n, b) && SameCallee(a, b)
    requires a.kind.callee != c.callee ==> MovableCall(p, m, a)
    ensures m == n && a.id == b.id
  {
  }

  lemma StepDistinct(p: Program, q: Program, c: Change, nextId: nat, nextId': nat)
    requires HoistStep(p, q, c, nextId, nextId')
    ensures DistinctCallees(q)
  {
    forall m, n, a, b | MovableCall(q, m, a) && IsCall(q, n, b) && SameCallee(a, b) ensures m == n && a.id == b.id {
      StillMovable(p, q, c, nextId, nextId', m, a);
      CallOrigin(p, q, c, nextId, nextId', n, b);
      PairDistinct(p, c, m, n, a, b);
    }
  }

  /** A step leaves the module in good order. */
  lemma StepSane(p: Program, q: Program, c: Change, nextId: nat, nextId': nat)
    requires HoistStep(p, q, c, nextId, nextId')
    ensures Sane(q, nextId')
  {
    forall n | n in q ensures GoodFunc(q, q[n], nextId') {
      if n == c.name { CallerGood(p, q, c, nextId, nextId'); }
      else if n == c.callee { CalleeGood(p, q, c, nextId, nextId'); }
      else { OtherGood(p, q, c, nextId, nextId', n); }
    }
    StepDistinct(p, q, c, nextId, nextId');
  }

  // ----- Meaning -----

  lemma MeaningKept(sem: Meaning, p: Program, q: Program, c: Change, n: string, op: Op)
    requires Moves(p, q, c) && n in p && op in p[n].body && !(n == c.name && op.id in Ids(c.sg.loadCachedOps))
    ensures SameMeaning(sem, p, q, op)
  {
    if op.kind.LoadCached? { CallKept(p, q, c, n, op); }
  }

  /** A function whose ops all mean the same returns the same. */
  lemma SameOpsReturn(sem: Meaning, p: Program, q: Program, f: Func, data: seq<Data>)
    requires WellFormed(f) && forall op :: op in f.body ==> SameMeaning(sem, p, q, op)
    ensures Returns(sem, q, f, data) == Returns(sem, p, f, data)
  {
    var s := Final(sem, p, f, data);
    FinalSolves(sem, p, f, data);
    forall op | op in f.body ensures Holds(sem, q, op, s) {
      assert Holds(sem, p, op, s) && SameMeaning(sem, p, q, op);
    }
    SolutionReturns(sem, q, f, data, s);
  }

  /** The callee computes what the subgraph computed. */
  ghost predicate CalleeComputes(p: Program, q: Program, c: Change)
    requires c.name in p && c.callee in q
  {
    forall sem, data :: Computes(sem, p, p[c.name], data, q[c.callee], BoundaryInputs(p[c.name], c.sg),
      BoundaryOutputs(p[c.name], c.sg))
  }

  lemma CallerReturns(sem: Meaning, p: Program, q: Program, c: Change, nextId: nat, nextId': nat, data: seq<Data>)
    requires HoistStep(p, q, c, nextId, nextId') && CalleeComputes(p, q, c)
    ensures Returns(sem, q, q[c.name], data) == Returns(sem, p, p[c.name], data)
  {
    var f := p[c.name];
    assert GoodFunc(p, f, nextId);
    StepMoves(p, q, c, nextId, nextId');
    BelowGives(f, nextId, c.callId);
    BoundaryHoistable(f, c.sg);
    OutputsOf(f, c.sg);
    forall op | op in f.body && op.id !in Ids(c.sg.ops) + Ids(c.sg.loadCachedOps) ensures SameMeaning(sem, p, q, op) {
      MeaningKept(sem, p, q, c, c.name, op);
    }
    HoistPreserves(sem, p, q, f, data, Ids(c.sg.ops) + Ids(c.sg.loadCachedOps), BoundaryInputs(f, c.sg),
                   BoundaryOutputs(f, c.sg), c.callee, c.callId);
  }

  lemma OtherReturns(sem: Meaning, p: Program, q: Program, c: Change, nextId: nat, nextId': nat, n: string,
                     data: seq<Data>)
    requires HoistStep(p, q, c, nextId, nextId') && n in p && n in q && n != c.name && n != c.callee
    ensures Returns(sem, q, q[n], data) == Returns(sem, p, p[n], data)
  {
    assert GoodFunc(p, p[n], nextId);
    StepMoves(p, q, c, nextId, nextId');
    forall op | op in p[n].body ensures SameMeaning(sem, p, q, op) { MeaningKept(sem, p, q, c, n, op); }
    SameOpsReturn(sem, p, q, p[n], data);
  }

  lemma OrdinaryStays(p: Program, q: Program, c: Change, nextId: nat, nextId': nat, n: string)
    requires HoistStep(p, q, c, nextId, nextId') && n in p && !p[n].constEval
    ensures n in q && !q[n].constEval && n != c.callee
  {
  }

  lemma OrdinaryReturns(p: Program, q: Program, c: Change, nextId: nat, nextId': nat, n: string, sem: Meaning,
                        data: seq<Data>)
    requires HoistStep(p, q, c, nextId, nextId') && CalleeComputes(p, q, c) && n in p && n in q && n != c.callee
    ensures Returns(sem, q, q[n], data) == Returns(sem, p, p[n], data)
  {
    if n == c.name {
      CallerReturns(sem, p, q, c, nextId, nextId', data);
    } else {
      OtherReturns(sem, p, q, c, nextId, nextId', n, data);
    }
  }

  /** A step changes what no ordinary function returns, whatever the ops compute and whatever
      the arguments. */
  lemma StepPreserves(p: Program, q: Program, c: Change, nextId: nat, nextId': nat)
    requires HoistStep(p, q, c, nextId, nextId') && CalleeComputes(p, q, c)
    ensures Preserved(p, q)
  {
    forall n | n in p && !p[n].constEval ensures SameReturns(p, q, n) {
      OrdinaryStays(p, q, c, nextId, nextId', n);
      forall sem, data ensures Returns(sem, q, q[n], data) == Returns(sem, p, p[n], data) {
        OrdinaryReturns(p, q, c, nextId, nextId', n, sem, data);
      }
    }
  }

  /** No const-eval function gains a non-cacheable op of a kind that none had. */
  lemma StepUncacheable(p: Program, q: Program, c: Change, nextId: nat, nextId': nat)
    requires HoistStep(p, q, c, nextId, nextId')
    ensures UncacheableKinds(q) <= UncacheableKinds(p)
  {
    forall n, op | HoldsUncacheable(q, n, op) ensures op.kind in UncacheableKinds(p) {
      if n != c.callee { assert HoldsUncacheable(p, n, op); }
    }
  }

  // ----- Which ops are left -----

  lemma KeptId(f: Func, sg: Subgraph, callee: string, callId: nat, id: nat)
    requires id in Ids(f.body) && id !in Ids(sg.ops) + Ids(sg.loadCachedOps)
    ensures id in Ids(Carved(f, sg, callee, callId).body)
  {
    var op :| op in f.body && op.id == id;
    var sub := CallResults(BoundaryOutputs(f, sg), callId);
    Survives(f.body, Ids(sg.ops) + Ids(sg.loadCachedOps), CallFor(f, sg, callee, callId), sub, op);
    assert RenamedOp(op, sub) in Carved(f, sg, callee, callId).body;
  }

  /** Cutting a subgraph out takes its ops and its calls, adds the new call, and keeps the
      rest. */
  lemma CarvedIds(f: Func, sg: Subgraph, callee: string, callId: nat)
    requires WellFormed(f) && AllLegal(f.body) && IsSubgraph(f, sg)
    ensures Ids(Carved(f, sg, callee, callId).body) <= Ids(f.body) - Ids(sg.ops) - Ids(sg.loadCachedOps) + {callId}
    ensures Ids(f.body) - Ids(sg.ops) - Ids(sg.loadCachedOps) <= Ids(Carved(f, sg, callee, callId).body)
  {
    var g := Carved(f, sg, callee, callId);
    forall id | id in Ids(g.body) ensures id in Ids(f.body) - Ids(sg.ops) - Ids(sg.loadCachedOps) + {callId} {
      var op' :| op' in g.body && op'.id == id;
      if op' != CallFor(f, sg, callee, callId) {
        var op := CarvedOps(f, sg, callee, callId, op');
      }
    }
    forall id | id in Ids(f.body) - Ids(sg.ops) - Ids(sg.loadCachedOps) ensures id in Ids(g.body) {
      KeptId(f, sg, callee, callId, id);
    }
  }

  ghost predicate InSome(done: seq<Subgraph>, id: nat) {
    exists sg :: sg in done && id in Ids(Members(sg))
  }

  /** Of the old ops, exactly those of the subgraphs done are gone. */
  ghost predicate OpsLeft(f: Func, g: Func, done: seq<Subgraph>, start: nat) {
    forall id :: 0 <= id < start ==> (id in Ids(g.body) <==> id in Ids(f.body) && !InSome(done, id))
  }

  lemma OpsLeftNext(f: Func, p: Program, q: Program, c: Change, nextId: nat, nextId': nat, done: seq<Subgraph>,
                    start: nat)
    requires HoistStep(p, q, c, nextId, nextId') && start <= nextId && OpsLeft(f, p[c.name], done, start)
    ensures OpsLeft(f, q[c.name], done + [c.sg], start)
  {
    TargetGoodFunc(p, q, c, nextId, nextId');
    CarvedIds(p[c.name], c.sg, c.callee, c.callId);
    forall id | 0 <= id < start ensures id in Ids(q[c.name].body) <==> id in Ids(f.body) && !InSome(done + [c.sg], id) {
      InSomeSnoc(done, c.sg, id);
      MembersIds(c.sg, id);
      LeftId(Ids(p[c.name].body), Ids(q[c.name].body), Ids(c.sg.ops), Ids(c.sg.loadCachedOps), c.callId, id);
    }
  }

  lemma LeftId(before: set<nat>, after: set<nat>, ops: set<nat>, calls: set<nat>, callId: nat, id: nat)
    requires after <= before - ops - calls + {callId} && before - ops - calls <= after && id != callId
    ensures id in after <==> id in before && !(id in ops || id in calls)
  {
  }

  lemma TargetGoodFunc(p: Program, q: Program, c: Change, nextId: nat, nextId': nat)
    requires HoistStep(p, q, c, nextId, nextId')
    ensures WellFormed(p[c.name]) && AllLegal(p[c.name].body) && IsSubgraph(p[c.name], c.sg) && c.callId >= nextId
    ensures q[c.name] == Carved(p[c.name], c.sg, c.callee, c.callId)
  {
    assert GoodFunc(p, p[c.name], nextId);
  }

  lemma InSomeSnoc(done: seq<Subgraph>, sg: Subgraph, id: nat)
    ensures InSome(done + [sg], id) <==> InSome(done, id) || id in Ids(Members(sg))
  {
    assert sg in done + [sg];
    if InSome(done, id) {
      var s :| s in done && id in Ids(Members(s));
      assert s in done + [sg];
    }
  }

  lemma MembersIds(sg: Subgraph, id: nat)
    ensures id in Ids(Members(sg)) <==> id in Ids(sg.ops) || id in Ids(sg.loadCachedOps)
  {
  }
}
