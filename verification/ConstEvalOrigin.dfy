/** Where the non-cacheable ops of a const-eval function come from: none is put there by making
    or growing one, other than shared ops. */
module ConstEvalOrigin {
  import opened Ir
  import opened Rewrite
  import opened ConstEvalClone
  import opened ConstEvalSubgraphs
  import opened ConstEvalCreate
  import opened ConstEvalDedup
  import opened ConstEvalGrow

  /** Non-cacheable ops are shared or of one of the given kinds. */
  ghost predicate UncacheableWithin(ops: seq<Op>, kinds: set<Kind>) {
    forall op :: op in ops && op.nonCacheable ==> op.shared || op.kind in kinds
  }

  ghost predicate HoldsUncacheable(p: Program, n: string, op: Op) {
    n in p && p[n].constEval && op in p[n].body && op.nonCacheable && !op.shared
  }

  /** The kinds of the non-cacheable ops, other than shared ones, in const-eval functions. */
  ghost function UncacheableKinds(p: Program): (kinds: set<Kind>)
    ensures forall n, op :: HoldsUncacheable(p, n, op) ==> op.kind in kinds
    ensures forall kind :: kind in kinds ==> exists n, op :: HoldsUncacheable(p, n, op) && op.kind == kind
  {
    set n, op | n in p && op in p[n].body && HoldsUncacheable(p, n, op) :: op.kind
  }

  ghost predicate AllCacheable(ops: seq<Op>) {
    forall op :: op in ops ==> !op.nonCacheable
  }

  lemma ClonesWithin(c: Cloning, ops: seq<Op>, kinds: set<Kind>)
    requires UncacheableWithin(c.block, kinds) && UncacheableWithin(ops, kinds)
    ensures UncacheableWithin(CloneAll(c, ops).block, kinds)
  {
    forall op' | op' in CloneAll(c, ops).block && op'.nonCacheable ensures op'.shared || op'.kind in kinds {
      CloneAllLike(c, ops, op');
    }
  }

  lemma SharedWithin(ops: seq<Op>, kinds: set<Kind>)
    requires UniqueIds(ops) && AllLegal(ops)
    ensures UncacheableWithin(SharedOps(ops), kinds)
  {
    SharedFree(ops);
  }

  /** A new function: shared ops and the subgraph. */
  lemma NewBodyWithin(f: Func, sg: Subgraph, args: seq<nat>, nextId: nat, kinds: set<Kind>)
    requires WellFormed(f) && AllLegal(f.body) && |args| == |BoundaryInputs(f, sg)| && AllCacheable(sg.ops)
    ensures UncacheableWithin(NewBody(f, sg, args, nextId).block, kinds)
  {
    var start := Cloning([], InputMap(BoundaryInputs(f, sg), args), nextId);
    SharedWithin(f.body, kinds);
    ClonesWithin(start, SharedOps(f.body), kinds);
    ClonesWithin(CloneAll(start, SharedOps(f.body)), sg.ops, kinds);
  }

  lemma {:induction false} InlineAllWithin(c: Cloning, calls: seq<Op>, p: Program, kinds: set<Kind>)
    requires AllResolve(p, calls) && AllPassed(calls, c.valueMap) && UncacheableWithin(c.block, kinds)
    requires forall call :: call in calls ==> UncacheableWithin(p[call.kind.callee].body, kinds)
    ensures UncacheableWithin(InlineAll(c, calls, p).block, kinds)
  {
    if calls != [] {
      var n := |calls| - 1;
      InlineAllWithin(c, calls[..n], p, kinds);
      var call := calls[n];
      assert Resolves(p, call) && AllMapped(call.operands, c.valueMap);
      InlineWithin(InlineAll(c, calls[..n], p), call, p[call.kind.callee], kinds);
    }
  }

  lemma InlineWithin(c: Cloning, call: Op, callee: Func, kinds: set<Kind>)
    requires Fits(call, callee) && AllMapped(call.operands, c.valueMap) && UncacheableWithin(c.block, kinds)
    requires UncacheableWithin(callee.body, kinds)
    ensures UncacheableWithin(Inline(c, call, callee).block, kinds)
  {
    ClonesWithin(c.(valueMap := Passed(c.valueMap, callee.args, call.operands)), callee.body, kinds);
  }

  /** A grown function: shared ops, the bodies of the callees, and the subgraph. */
  lemma GrownBodyWithin(p: Program, f: Func, sg: Subgraph, args: seq<nat>, nextId: nat, kinds: set<Kind>)
    requires Growable(p, f, sg, args) && AllCacheable(sg.ops)
    requires forall call :: call in sg.loadCachedOps ==> UncacheableWithin(p[call.kind.callee].body, kinds)
    ensures UncacheableWithin(GrownBody(p, f, sg, args, nextId).block, kinds)
  {
    var callee, rest := Callee(p, sg), sg.loadCachedOps[1..];
    assert Resolves(p, sg.loadCachedOps[0]) && sg.loadCachedOps[0] in sg.loadCachedOps;
    var start := GrowStart(BoundaryInputs(f, sg), args, sg.loadCachedOps[0], callee, nextId);
    SharedWithin(f.body, kinds);
    ClonesWithin(start, SharedOps(f.body), kinds);
    GrownInOrder(p, f, sg, args, nextId);
    var own := OwnPart(f, sg, callee, args, nextId);
    InlineAllWithin(own, rest, p, kinds);
    ClonesWithin(InlineAll(own, rest, p), sg.ops, kinds);
  }

  /** Keeping one of each shared op adds none. */
  lemma DeduplicatedWithin(g: Func, kinds: set<Kind>)
    requires UncacheableWithin(g.body, kinds)
    ensures UncacheableWithin(Deduplicated(g).body, kinds)
  {
    var s := Scan(g.body);
    forall op' | op' in Deduplicated(g).body && op'.nonCacheable ensures op'.shared || op'.kind in kinds {
      KeptIds(g.body, s.sub, s.gone, op');
    }
  }
}
