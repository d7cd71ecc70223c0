/** The const-eval function made for one subgraph (createConstEvalFunction), and why it
    computes what the subgraph computed. */
module ConstEvalCreate {
  import opened Common
  import opened Ir
  import opened Rewrite
  import opened ConstEvalClone
  import opened ConstEvalSubgraphs

  function InputMap(inputs: seq<Value>, args: seq<nat>): (m: map<Value, Value>)
    requires |inputs| == |args|
    ensures forall v :: v in m <==> v in inputs
    ensures forall v :: v in m ==> m[v] in ArgValues(args)
  {
    if inputs == [] then map[]
    else
      var n := |inputs| - 1;
      assert inputs == inputs[..n] + [inputs[n]] && args == args[..n] + [args[n]];
      InputMap(inputs[..n], args[..n])[inputs[n] := Arg(args[n])]
  }

  lemma {:induction false} InputMapAgrees(inputs: seq<Value>, args: seq<nat>, s: Env, t: Env)
    requires |inputs| == |args| && Bound(args, Vals(s, inputs), t)
    ensures Agree(InputMap(inputs, args), s, t)
  {
    if inputs != [] {
      var n := |inputs| - 1;
      forall k | 0 <= k < n ensures Get(t, Arg(args[..n][k])) == At(Vals(s, inputs[..n]), k) {
        assert Get(t, Arg(args[k])) == At(Vals(s, inputs), k);
      }
      InputMapAgrees(inputs[..n], args[..n], s, t);
      assert Get(t, Arg(args[n])) == At(Vals(s, inputs), n);
    }
  }

  function FreshArgs(nextId: nat, n: nat): (r: seq<nat>)
    ensures |r| == n && forall k :: 0 <= k < n ==> r[k] == nextId + k
  {
    if n == 0 then [] else FreshArgs(nextId, n - 1) + [nextId + n - 1]
  }

  /** Clones of the shared ops, then of the subgraph. */
  function NewBody(f: Func, sg: Subgraph, args: seq<nat>, nextId: nat): Cloning
    requires |args| == |BoundaryInputs(f, sg)|
  {
    var start := Cloning([], InputMap(BoundaryInputs(f, sg), args), nextId);
    CloneAll(CloneAll(start, SharedOps(f.body)), sg.ops)
  }

  function NewFunction(f: Func, sg: Subgraph, args: seq<nat>, nextId: nat): Func
    requires |args| == |BoundaryInputs(f, sg)|
  {
    Returning(args, NewBody(f, sg, args, nextId), BoundaryOutputs(f, sg))
  }

  /** A const-eval function returning what the outputs are mapped to. */
  function Returning(args: seq<nat>, done: Cloning, outputs: seq<Value>): Func {
    Func(args, done.block, RenamedAll(outputs, done.valueMap), {}, true)
  }

  ghost predicate AllPlain(ops: seq<Op>) {
    forall op :: op in ops ==> op.kind.Plain?
  }

  // ----- In order -----

  lemma FreeOrdered(scope: set<Value>, ops: seq<Op>)
    requires forall op :: op in ops ==> op.operands == []
    ensures Ordered(scope, ops)
  {
    forall k | 0 <= k < |ops| ensures InScope(scope, ops, k) { assert ops[k] in ops; }
  }

  lemma SharedFree(ops: seq<Op>)
    requires UniqueIds(ops) && AllLegal(ops)
    ensures forall op :: op in SharedOps(ops) ==> op.shared && Legal(op)
  {
    forall op | op in SharedOps(ops) ensures op.shared {
      var shared :| shared in ops && shared.shared && shared.id == op.id;
      SameId(ops, op, shared);
    }
  }

  /** A subgraph's ops are in order behind its inputs, the shared ops and its calls. */
  lemma SubgraphOrdered(f: Func, sg: Subgraph, scope: set<Value>)
    requires WellFormed(f) && IsSubgraph(f, sg)
    requires (forall v :: v in BoundaryInputs(f, sg) ==> v in scope)
    requires Defs(SharedOps(f.body)) <= scope && Defs(sg.loadCachedOps) <= scope
    ensures Ordered(scope, sg.ops)
  {
    var ids := Ids(sg.ops);
    forall op, v | op in f.body && op.id in ids && v in op.operands ensures v in scope || DefinedBy(v, ids) {
      assert op in Only(f.body, ids);
      assert OperandsInside(f, sg, op) && Inside(f, sg, v);
      OperandsInScope(f, op);
      if !DefinedBy(v, ids) && v.Res? {
        OnlyDefs(f.body, SharedIds(f.body));
        OnlyDefs(f.body, Ids(sg.loadCachedOps));
      }
    }
    OnlyOrdered(ArgValues(f.args), scope, f.body, ids);
  }

  /** No operand is missing from the map: both groups of ops can be cloned. */
  lemma NewBodyInOrder(f: Func, sg: Subgraph, args: seq<nat>, nextId: nat)
    requires WellFormed(f) && AllLegal(f.body) && IsSubgraph(f, sg) && sg.loadCachedOps == []
    requires |args| == |BoundaryInputs(f, sg)|
    ensures var start := Cloning([], InputMap(BoundaryInputs(f, sg), args), nextId);
      Ordered(start.valueMap.Keys, SharedOps(f.body))
        && Ordered(CloneAll(start, SharedOps(f.body)).valueMap.Keys, sg.ops)
  {
    var start := Cloning([], InputMap(BoundaryInputs(f, sg), args), nextId);
    SharedFree(f.body);
    FreeOrdered(start.valueMap.Keys, SharedOps(f.body));
    SubgraphOrdered(f, sg, CloneAll(start, SharedOps(f.body)).valueMap.Keys);
  }

  lemma NewBodySound(f: Func, sg: Subgraph, args: seq<nat>, nextId: nat)
    requires WellFormed(f) && AllLegal(f.body) && IsSubgraph(f, sg) && sg.loadCachedOps == []
    requires |args| == |BoundaryInputs(f, sg)|
    ensures Sound(NewBody(f, sg, args, nextId), ArgValues(args))
    ensures AllMapped(BoundaryOutputs(f, sg), NewBody(f, sg, args, nextId).valueMap)
  {
    var start := Cloning([], InputMap(BoundaryInputs(f, sg), args), nextId);
    NewBodyInOrder(f, sg, args, nextId);
    CloneAllSound(start, SharedOps(f.body), ArgValues(args));
    CloneAllSound(CloneAll(start, SharedOps(f.body)), sg.ops, ArgValues(args));
  }

  lemma ReturningWellFormed(args: seq<nat>, done: Cloning, outputs: seq<Value>)
    requires NoDuplicates(args) && Sound(done, ArgValues(args)) && AllMapped(outputs, done.valueMap)
    ensures WellFormed(Returning(args, done, outputs))
  {
    RenamedTargets(done.valueMap, ArgValues(args) + Defs(done.block), outputs);
  }

  lemma NewFunctionWellFormed(f: Func, sg: Subgraph, args: seq<nat>, nextId: nat)
    requires WellFormed(f) && AllLegal(f.body) && IsSubgraph(f, sg) && sg.loadCachedOps == []
    requires |args| == |BoundaryInputs(f, sg)| && NoDuplicates(args)
    ensures WellFormed(NewFunction(f, sg, args, nextId))
  {
    NewBodySound(f, sg, args, nextId);
    ReturningWellFormed(args, NewBody(f, sg, args, nextId), BoundaryOutputs(f, sg));
  }

  /** A clone is like its original but for its id and operands. */
  predicate Like(op': Op, op: Op) {
    && op'.kind == op.kind && op'.shared == op.shared && op'.numResults == op.numResults
    && |op'.operands| == |op.operands| && op'.nonCacheable == op.nonCacheable
  }

  ghost predicate LikeOneOf(op': Op, ops: seq<Op>) {
    exists op {:trigger Like(op', op)} :: op in ops && Like(op', op)
  }

  lemma LikeMore(op': Op, ops: seq<Op>)
    requires ops != [] && (LikeOneOf(op', ops[..|ops| - 1]) || Like(op', ops[|ops| - 1]))
    ensures LikeOneOf(op', ops)
  {
    var n := |ops| - 1;
    if LikeOneOf(op', ops[..n]) {
      var e :| e in ops[..n] && Like(op', e);
      assert e in ops;
    } else {
      assert ops[n] in ops;
    }
  }

  /** One clone more: it is like the op it is made of, under the next id. */
  lemma ClonedLike(c: Cloning, op: Op, op': Op)
    requires op' in Cloned(c, op).block
    ensures op' in c.block || (Like(op', op) && op'.id == c.nextId)
  {
  }

  lemma {:induction false} CloneAllLike(c: Cloning, ops: seq<Op>, op': Op)
    requires op' in CloneAll(c, ops).block
    ensures op' in c.block || (LikeOneOf(op', ops) && c.nextId <= op'.id < CloneAll(c, ops).nextId)
  {
    if ops != [] {
      var n := |ops| - 1;
      var front := CloneAll(c, ops[..n]);
      ClonedLike(front, ops[n], op');
      if op' in front.block { CloneAllLike(c, ops[..n], op'); }
      if op' !in c.block { LikeMore(op', ops); }
    }
  }

  ghost predicate CloneAt(block: seq<Op>, place: nat, ops: seq<Op>, i: nat)
    requires i < |ops|
  {
    place + i < |block| && Like(block[place + i], ops[i])
  }

  /** From the given place on, the block holds clones of the ops, one for each, in order. */
  ghost predicate ClonesFrom(block: seq<Op>, place: nat, ops: seq<Op>) {
    forall i {:trigger CloneAt(block, place, ops, i)} :: 0 <= i < |ops| ==> CloneAt(block, place, ops, i)
  }

  lemma {:induction false} ClonesInOrder(c: Cloning, ops: seq<Op>, r: Cloning)
    requires r == CloneAll(c, ops)
    ensures |r.block| == |c.block| + |ops| && ClonesFrom(r.block, |c.block|, ops)
  {
    if ops != [] {
      var n := |ops| - 1;
      var front := CloneAll(c, ops[..n]);
      ClonesInOrder(c, ops[..n], front);
      OneCloneMore(c, front, ops);
    }
  }

  lemma OneCloneMore(c: Cloning, front: Cloning, ops: seq<Op>)
    requires ops != [] && |front.block| == |c.block| + |ops| - 1
    requires ClonesFrom(front.block, |c.block|, ops[..|ops| - 1])
    ensures ClonesFrom(Cloned(front, ops[|ops| - 1]).block, |c.block|, ops)
  {
    var n := |ops| - 1;
    forall i | 0 <= i < |ops| ensures CloneAt(Cloned(front, ops[n]).block, |c.block|, ops, i) {
      if i < n { assert CloneAt(front.block, |c.block|, ops[..n], i); }
    }
  }

  /** The new function is made of clones of all shared ops and of the subgraph, in this order. */
  lemma NewBodyLists(f: Func, sg: Subgraph, args: seq<nat>, nextId: nat)
    requires |args| == |BoundaryInputs(f, sg)|
    ensures var block, shared := NewBody(f, sg, args, nextId).block, SharedOps(f.body);
      && |block| == |shared| + |sg.ops|
      && ClonesFrom(block, 0, shared) && ClonesFrom(block, |shared|, sg.ops)
  {
    var start := Cloning([], InputMap(BoundaryInputs(f, sg), args), nextId);
    var shared := CloneAll(start, SharedOps(f.body));
    ClonesInOrder(start, SharedOps(f.body), shared);
    ClonesInOrder(shared, sg.ops, NewBody(f, sg, args, nextId));
    ClonesStay(shared.block, CloneAll(shared, sg.ops).block, 0, SharedOps(f.body));
  }

  lemma ClonesStay(block: seq<Op>, more: seq<Op>, place: nat, ops: seq<Op>)
    requires ClonesFrom(block, place, ops) && block <= more
    ensures ClonesFrom(more, place, ops)
  {
    forall i | 0 <= i < |ops| ensures CloneAt(more, place, ops, i) {
      assert CloneAt(block, place, ops, i);
    }
  }

  lemma ClonesLegal(c: Cloning, ops: seq<Op>)
    requires AllLegal(c.block) && AllPlain(c.block) && AllLegal(ops) && AllPlain(ops)
    ensures AllLegal(CloneAll(c, ops).block) && AllPlain(CloneAll(c, ops).block)
  {
    forall op' | op' in CloneAll(c, ops).block ensures Legal(op') && op'.kind.Plain? {
      CloneAllLike(c, ops, op');
    }
  }

  lemma NewBodyLegal(f: Func, sg: Subgraph, args: seq<nat>, nextId: nat)
    requires WellFormed(f) && AllLegal(f.body) && IsSubgraph(f, sg)
    requires |args| == |BoundaryInputs(f, sg)|
    ensures AllLegal(NewBody(f, sg, args, nextId).block) && AllPlain(NewBody(f, sg, args, nextId).block)
  {
    var start := Cloning([], InputMap(BoundaryInputs(f, sg), args), nextId);
    SharedFree(f.body);
    ClonesLegal(start, SharedOps(f.body));
    ClonesLegal(CloneAll(start, SharedOps(f.body)), sg.ops);
  }

  // ----- The new function computes the outputs -----

  lemma OnlyHold(sem: Meaning, p: Program, ops: seq<Op>, ids: set<nat>, s: Env)
    requires AllHold(sem, p, ops, s)
    ensures AllHold(sem, p, Only(ops, ids), s)
  {
  }

  /** The cloned body agrees with the original function on every value of the subgraph. */
  lemma NewBodyAgrees(sem: Meaning, p: Program, f: Func, sg: Subgraph, args: seq<nat>, nextId: nat, s: Env, t: Env)
    requires WellFormed(f) && AllLegal(f.body) && IsSubgraph(f, sg) && sg.loadCachedOps == []
    requires |args| == |BoundaryInputs(f, sg)| && AllHold(sem, p, f.body, s)
    requires Bound(args, Vals(s, BoundaryInputs(f, sg)), t)
    requires AllHold(sem, map[], NewBody(f, sg, args, nextId).block, t)
    ensures Agree(NewBody(f, sg, args, nextId).valueMap, s, t)
  {
    var start := Cloning([], InputMap(BoundaryInputs(f, sg), args), nextId);
    InputMapAgrees(BoundaryInputs(f, sg), args, s, t);
    NewBodyInOrder(f, sg, args, nextId);
    SharedFree(f.body);
    OnlyHold(sem, p, f.body, SharedIds(f.body), s);
    OnlyHold(sem, p, f.body, Ids(sg.ops), s);
    var middle := CloneAll(start, SharedOps(f.body));
    assert middle.block <= CloneAll(middle, sg.ops).block;
    CloneAllAgrees(sem, p, map[], start, SharedOps(f.body), s, t);
    CloneAllAgrees(sem, p, map[], middle, sg.ops, s, t);
  }

  /** Called on the inputs, the new function returns the outputs. */
  lemma NewFunctionComputes(sem: Meaning, p: Program, f: Func, data: seq<Data>, sg: Subgraph, args: seq<nat>,
                            nextId: nat)
    requires WellFormed(f) && AllLegal(f.body) && IsSubgraph(f, sg) && sg.loadCachedOps == []
    requires |args| == |BoundaryInputs(f, sg)| && NoDuplicates(args)
    ensures Computes(sem, p, f, data, NewFunction(f, sg, args, nextId), BoundaryInputs(f, sg), BoundaryOutputs(f, sg))
  {
    var s, g := Final(sem, p, f, data), NewFunction(f, sg, args, nextId);
    var given := Vals(s, BoundaryInputs(f, sg));
    FinalSolves(sem, p, f, data);
    NewFunctionWellFormed(f, sg, args, nextId);
    FinalSolves(sem, map[], g, given);
    NewBodyAgrees(sem, p, f, sg, args, nextId, s, Final(sem, map[], g, given));
    NewBodySound(f, sg, args, nextId);
    ReturningReturns(sem, args, NewBody(f, sg, args, nextId), BoundaryOutputs(f, sg), given, s);
  }

  /** A const-eval function whose block agrees with `s` returns the outputs as `s` has them. */
  lemma ReturningReturns(sem: Meaning, args: seq<nat>, done: Cloning, outputs: seq<Value>, given: seq<Data>, s: Env)
    requires AllMapped(outputs, done.valueMap)
    requires Agree(done.valueMap, s, Final(sem, map[], Returning(args, done, outputs), given))
    ensures Call(sem, Returning(args, done, outputs), given) == Vals(s, outputs)
  {
    AgreeVals(done.valueMap, s, Final(sem, map[], Returning(args, done, outputs), given), outputs);
  }
}
