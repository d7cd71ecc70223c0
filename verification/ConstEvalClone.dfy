/** Cloning ops into a const-eval function: a block under construction, and a map from the
    values of the original function to those of the new one. */
module ConstEvalClone {
  import opened Ir
  import opened Rewrite

  // ----- What cloning builds -----

  datatype Cloning = Cloning(block: seq<Op>, valueMap: map<Value, Value>, nextId: nat)

  function CloneOp(op: Op, valueMap: map<Value, Value>, id: nat): Op {
    op.(id := id, operands := RenamedAll(op.operands, valueMap))
  }

  function ResultList(id: nat, n: nat): (r: seq<Value>)
    ensures |r| == n && forall i :: 0 <= i < n ==> r[i] == Res(id, i)
  {
    if n == 0 then [] else ResultList(id, n - 1) + [Res(id, n - 1)]
  }

  /** Results already mapped stay as they are. */
  function WithResults(valueMap: map<Value, Value>, op: Op, id: nat): (m: map<Value, Value>)
    ensures m.Keys == valueMap.Keys + Results(op)
    ensures forall v :: v in m ==> m[v] == if v in valueMap then valueMap[v] else Res(id, v.index)
  {
    Inserted(valueMap, op.id, ResultList(id, op.numResults))
  }

  /** The given values inserted, in turn, as the results of an op. */
  function Inserted(valueMap: map<Value, Value>, opId: nat, values: seq<Value>): (m: map<Value, Value>)
    ensures forall v :: v in m <==> v in valueMap || (v.Res? && v.op == opId && v.index < |values|)
    ensures forall v :: v in m ==> m[v] == if v in valueMap then valueMap[v] else values[v.index]
  {
    if values == [] then valueMap
    else
      var n := |values| - 1;
      var m := Inserted(valueMap, opId, values[..n]);
      if Res(opId, n) in m then m else m[Res(opId, n) := values[n]]
  }

  lemma InsertedStep(valueMap: map<Value, Value>, opId: nat, values: seq<Value>, i: nat)
    requires i < |values|
    ensures var m := Inserted(valueMap, opId, values[..i]);
      Inserted(valueMap, opId, values[..i + 1]) == if Res(opId, i) in m then m else m[Res(opId, i) := values[i]]
    ensures values[..|values|] == values
  {
    assert values[..i + 1][..i] == values[..i];
  }

  function Cloned(c: Cloning, op: Op): Cloning {
    Cloning(c.block + [CloneOp(op, c.valueMap, c.nextId)], WithResults(c.valueMap, op, c.nextId), c.nextId + 1)
  }

  function CloneAll(c: Cloning, ops: seq<Op>): (r: Cloning)
    ensures c.block <= r.block && r.nextId == c.nextId + |ops|
    ensures r.valueMap.Keys == c.valueMap.Keys + Defs(ops)
  {
    if ops == [] then c else Cloned(CloneAll(c, ops[..|ops| - 1]), ops[|ops| - 1])
  }

  lemma CloneAllStep(c: Cloning, ops: seq<Op>, i: nat)
    requires i < |ops| && Ordered(c.valueMap.Keys, ops)
    ensures CloneAll(c, ops[..i + 1]) == Cloned(CloneAll(c, ops[..i]), ops[i])
    ensures AllMapped(ops[i].operands, CloneAll(c, ops[..i]).valueMap)
    ensures ops[..|ops|] == ops
  {
    assert ops[..i + 1][..i] == ops[..i];
    assert InScope(c.valueMap.Keys, ops, i);
  }

  /** A callee's arguments stand for the values passed to it. */
  function Passed(valueMap: map<Value, Value>, args: seq<nat>, operands: seq<Value>): (m: map<Value, Value>)
    requires |args| == |operands| && AllMapped(operands, valueMap)
    ensures m.Keys == ArgValues(args)
  {
    if args == [] then map[]
    else
      var n := |args| - 1;
      assert args == args[..n] + [args[n]] && operands == operands[..n] + [operands[n]];
      Passed(valueMap, args[..n], operands[..n])[Arg(args[n]) := valueMap[operands[n]]]
  }

  lemma PassedStep(valueMap: map<Value, Value>, args: seq<nat>, operands: seq<Value>, i: nat)
    requires |args| == |operands| && AllMapped(operands, valueMap) && i < |args|
    ensures AllMapped(operands[..i], valueMap) && AllMapped(operands[..i + 1], valueMap)
    ensures Passed(valueMap, args[..i + 1], operands[..i + 1])
      == Passed(valueMap, args[..i], operands[..i])[Arg(args[i]) := valueMap[operands[i]]]
  {
    assert args[..i + 1][..i] == args[..i] && operands[..i + 1][..i] == operands[..i];
  }

  function WithReturned(valueMap: map<Value, Value>, call: Op, outs: seq<Value>,
                        local: map<Value, Value>): (m: map<Value, Value>)
    requires call.numResults == |outs|
    ensures m.Keys == valueMap.Keys + Results(call)
  {
    Inserted(valueMap, call.id, RenamedAll(outs, local))
  }

  predicate AllMapped(vs: seq<Value>, m: map<Value, Value>) {
    forall v :: v in vs ==> v in m
  }

  /** The callee takes what the call passes and returns what it expects. */
  predicate Fits(call: Op, callee: Func) {
    |callee.args| == |call.operands| && |callee.outs| == call.numResults
  }

  /** The callee's body cloned, under a map of the callee's own values. */
  function InlinedBody(c: Cloning, call: Op, callee: Func): (r: Cloning)
    requires Fits(call, callee) && AllMapped(call.operands, c.valueMap)
    ensures c.block <= r.block && c.nextId <= r.nextId
  {
    CloneAll(c.(valueMap := Passed(c.valueMap, callee.args, call.operands)), callee.body)
  }

  function Inline(c: Cloning, call: Op, callee: Func): (r: Cloning)
    requires Fits(call, callee) && AllMapped(call.operands, c.valueMap)
    ensures c.block <= r.block && c.nextId <= r.nextId
  {
    var done := InlinedBody(c, call, callee);
    done.(valueMap := WithReturned(c.valueMap, call, callee.outs, done.valueMap))
  }

  // ----- The block stays in order, under fresh ids -----

  ghost predicate Below(ops: seq<Op>, bound: nat) {
    forall op :: op in ops ==> op.id < bound
  }

  ghost predicate Targets(m: map<Value, Value>, scope: set<Value>) {
    forall v :: v in m ==> m[v] in scope
  }

  ghost predicate Sound(c: Cloning, outer: set<Value>) {
    Ordered(outer, c.block) && UniqueIds(c.block) && Below(c.block, c.nextId)
      && Targets(c.valueMap, outer + Defs(c.block))
  }

  lemma RenamedTargets(m: map<Value, Value>, scope: set<Value>, vs: seq<Value>)
    requires Targets(m, scope) && AllMapped(vs, m)
    ensures forall v' :: v' in RenamedAll(vs, m) ==> v' in scope
  {
    forall v' | v' in RenamedAll(vs, m) ensures v' in scope {
      var k :| 0 <= k < |vs| && RenamedAll(vs, m)[k] == v';
      assert vs[k] in vs;
    }
  }

  lemma StepSound(c: Cloning, op: Op, outer: set<Value>)
    requires Sound(c, outer) && AllMapped(op.operands, c.valueMap)
    ensures Sound(Cloned(c, op), outer)
  {
    var clone := CloneOp(op, c.valueMap, c.nextId);
    RenamedTargets(c.valueMap, outer + Defs(c.block), op.operands);
    OrderedSnoc(outer, c.block, clone);
    UniqueConcat(c.block, [clone]);
    DefsSnoc(c.block, clone);
  }

  /** No clone meets an operand missing from the map when the ops are in order behind it. */
  lemma {:induction false} CloneAllSound(c: Cloning, ops: seq<Op>, outer: set<Value>)
    requires Sound(c, outer) && Ordered(c.valueMap.Keys, ops)
    ensures Sound(CloneAll(c, ops), outer)
  {
    if ops != [] {
      var n := |ops| - 1;
      ScopeOfPrefix(c.valueMap.Keys, ops);
      CloneAllSound(c, ops[..n], outer);
      StepSound(CloneAll(c, ops[..n]), ops[n], outer);
    }
  }

  lemma {:induction false} PassedTargets(m: map<Value, Value>, args: seq<nat>, operands: seq<Value>, scope: set<Value>)
    requires |args| == |operands| && AllMapped(operands, m) && Targets(m, scope)
    ensures Targets(Passed(m, args, operands), scope)
  {
    if args != [] {
      var n := |args| - 1;
      assert operands == operands[..n] + [operands[n]];
      PassedTargets(m, args[..n], operands[..n], scope);
    }
  }

  lemma InlinedBodySound(c: Cloning, call: Op, callee: Func, outer: set<Value>)
    requires Sound(c, outer) && WellFormed(callee) && Fits(call, callee) && AllMapped(call.operands, c.valueMap)
    ensures Sound(InlinedBody(c, call, callee), outer) && AllMapped(callee.outs, InlinedBody(c, call, callee).valueMap)
  {
    var start := c.(valueMap := Passed(c.valueMap, callee.args, call.operands));
    PassedTargets(c.valueMap, callee.args, call.operands, outer + Defs(c.block));
    CloneAllSound(start, callee.body, outer);
  }

  lemma OldTargetsStay(c: Cloning, block: seq<Op>, outer: set<Value>)
    requires Targets(c.valueMap, outer + Defs(c.block)) && c.block <= block
    ensures Targets(c.valueMap, outer + Defs(block))
  {
    DefsMonotone(block, |c.block|);
    assert block[..|c.block|] == c.block;
  }

  lemma InlineSound(c: Cloning, call: Op, callee: Func, outer: set<Value>)
    requires Sound(c, outer) && WellFormed(callee) && Fits(call, callee) && AllMapped(call.operands, c.valueMap)
    ensures Sound(Inline(c, call, callee), outer)
    ensures Inline(c, call, callee).valueMap.Keys == c.valueMap.Keys + Results(call)
  {
    var done := InlinedBody(c, call, callee);
    InlinedBodySound(c, call, callee, outer);
    OldTargetsStay(c, done.block, outer);
    RenamedTargets(done.valueMap, outer + Defs(done.block), callee.outs);
    ReturnedTargets(c.valueMap, call, callee.outs, done.valueMap, outer + Defs(done.block));
  }

  lemma ReturnedTargets(m: map<Value, Value>, call: Op, outs: seq<Value>, local: map<Value, Value>, scope: set<Value>)
    requires call.numResults == |outs| && Targets(m, scope)
    requires forall v' :: v' in RenamedAll(outs, local) ==> v' in scope
    ensures Targets(WithReturned(m, call, outs, local), scope)
  {
    var r := WithReturned(m, call, outs, local);
    forall v | v in r ensures r[v] in scope {
      if v !in m { assert r[v] == RenamedAll(outs, local)[v.index]; }
    }
  }

  // ----- Clones compute what the originals compute -----

  /** Every mapped value equals the value it is mapped to. */
  ghost predicate Agree(m: map<Value, Value>, s: Env, t: Env) {
    forall v :: v in m ==> Get(t, m[v]) == Get(s, v)
  }

  lemma AgreeVals(m: map<Value, Value>, s: Env, t: Env, vs: seq<Value>)
    requires Agree(m, s, t) && AllMapped(vs, m)
    ensures Vals(t, RenamedAll(vs, m)) == Vals(s, vs)
  {
    forall k | 0 <= k < |vs| ensures Vals(t, RenamedAll(vs, m))[k] == Vals(s, vs)[k] {
      assert vs[k] in vs;
    }
  }

  lemma StepAgrees(sem: Meaning, p: Program, q: Program, c: Cloning, op: Op, s: Env, t: Env)
    requires Agree(c.valueMap, s, t) && op.kind.Plain? && AllMapped(op.operands, c.valueMap)
    requires Holds(sem, p, op, s) && Holds(sem, q, CloneOp(op, c.valueMap, c.nextId), t)
    ensures Agree(Cloned(c, op).valueMap, s, t)
  {
    var m, clone := Cloned(c, op).valueMap, CloneOp(op, c.valueMap, c.nextId);
    AgreeVals(c.valueMap, s, t, op.operands);
    forall v | v in m ensures Get(t, m[v]) == Get(s, v) {
      if v !in c.valueMap {
        assert v == Res(op.id, v.index) && m[v] == Res(clone.id, v.index);
        assert OpResult(sem, p, op, Vals(s, op.operands), v.index)
          == OpResult(sem, q, clone, Vals(s, op.operands), v.index);
      }
    }
  }

  lemma {:induction false} CloneAllAgrees(sem: Meaning, p: Program, q: Program, c: Cloning, ops: seq<Op>, s: Env,
                                          t: Env)
    requires Agree(c.valueMap, s, t) && Ordered(c.valueMap.Keys, ops) && AllHold(sem, p, ops, s)
    requires forall op :: op in ops ==> op.kind.Plain?
    requires AllHold(sem, q, CloneAll(c, ops).block, t)
    ensures Agree(CloneAll(c, ops).valueMap, s, t)
  {
    if ops != [] {
      var n := |ops| - 1;
      var front := CloneAll(c, ops[..n]);
      assert ops == ops[..n] + [ops[n]];
      ScopeOfPrefix(c.valueMap.Keys, ops);
      assert front.block <= CloneAll(c, ops).block;
      CloneAllAgrees(sem, p, q, c, ops[..n], s, t);
      var clone := CloneOp(ops[n], front.valueMap, front.nextId);
      assert clone in CloneAll(c, ops).block;
      assert ops[n] in ops;
      StepAgrees(sem, p, q, front, ops[n], s, t);
    }
  }

  lemma {:induction false} PassedAgrees(m: map<Value, Value>, args: seq<nat>, operands: seq<Value>, s: Env, u: Env,
                                        t: Env)
    requires |args| == |operands| && AllMapped(operands, m)
    requires Agree(m, s, t) && Bound(args, Vals(s, operands), u)
    ensures Agree(Passed(m, args, operands), u, t)
  {
    if args != [] {
      var n := |args| - 1;
      assert operands == operands[..n] + [operands[n]];
      forall k | 0 <= k < n ensures Get(u, Arg(args[..n][k])) == At(Vals(s, operands[..n]), k) {
        assert Get(u, Arg(args[k])) == At(Vals(s, operands), k);
      }
      PassedAgrees(m, args[..n], operands[..n], s, u, t);
      assert Get(u, Arg(args[n])) == At(Vals(s, operands), n);
    }
  }

  lemma ReturnedAgrees(m: map<Value, Value>, call: Op, outs: seq<Value>, local: map<Value, Value>, s: Env,
                       given: seq<Data>, t: Env)
    requires call.numResults == |outs| && Agree(m, s, t)
    requires Vals(t, RenamedAll(outs, local)) == given
    requires forall i :: 0 <= i < |outs| ==> Get(s, Res(call.id, i)) == given[i]
    ensures Agree(WithReturned(m, call, outs, local), s, t)
  {
    var r := WithReturned(m, call, outs, local);
    forall v | v in r ensures Get(t, r[v]) == Get(s, v) {
      if v !in m {
        assert v == Res(call.id, v.index);
        assert Vals(t, RenamedAll(outs, local))[v.index] == given[v.index];
      }
    }
  }

  /** The clone of a callee's body computes what a run of the callee computes. */
  lemma InlinedBodyAgrees(sem: Meaning, c: Cloning, call: Op, callee: Func, s: Env, t: Env)
    requires Fits(call, callee) && AllMapped(call.operands, c.valueMap) && Agree(c.valueMap, s, t)
    requires WellFormed(callee) && forall op :: op in callee.body ==> op.kind.Plain?
    requires AllHold(sem, map[], InlinedBody(c, call, callee).block, t)
    ensures var m := InlinedBody(c, call, callee).valueMap;
      Vals(t, RenamedAll(callee.outs, m)) == Call(sem, callee, Vals(s, call.operands))
  {
    var data := Vals(s, call.operands);
    var u := Final(sem, map[], callee, data);
    FinalSolves(sem, map[], callee, data);
    PassedAgrees(c.valueMap, callee.args, call.operands, s, u, t);
    var start := c.(valueMap := Passed(c.valueMap, callee.args, call.operands));
    CloneAllAgrees(sem, map[], map[], start, callee.body, u, t);
    AgreeVals(InlinedBody(c, call, callee).valueMap, u, t, callee.outs);
  }

  /** An inlined callee gives, for each result of the call, the value the call gave. */
  lemma InlineAgrees(sem: Meaning, p: Program, c: Cloning, call: Op, callee: Func, s: Env, t: Env)
    requires Fits(call, callee) && AllMapped(call.operands, c.valueMap) && Agree(c.valueMap, s, t)
    requires WellFormed(callee) && forall op :: op in callee.body ==> op.kind.Plain?
    requires call.kind.LoadCached? && call.kind.callee in p && p[call.kind.callee] == callee
    requires Holds(sem, p, call, s)
    requires AllHold(sem, map[], Inline(c, call, callee).block, t)
    ensures Agree(Inline(c, call, callee).valueMap, s, t)
  {
    var data := Vals(s, call.operands);
    InlinedBodyAgrees(sem, c, call, callee, s, t);
    forall i | 0 <= i < |callee.outs| ensures Get(s, Res(call.id, i)) == Call(sem, callee, data)[i] {
      assert OpResult(sem, p, call, data, i) == At(Call(sem, callee, data), i);
    }
    ReturnedAgrees(c.valueMap, call, callee.outs, InlinedBody(c, call, callee).valueMap, s, Call(sem, callee, data), t);
  }

  // ----- The builder -----

  class Builder {
    var block: seq<Op>
    var nextId: nat

    constructor (block: seq<Op>, nextId: nat)
      ensures this.block == block && this.nextId == nextId
    {
      this.block, this.nextId := block, nextId;
    }

    ghost function State(valueMap: map<Value, Value>): Cloning
      reads this
    {
      Cloning(block, valueMap, nextId)
    }

    method ProcessOp(op: Op, valueMap: map<Value, Value>) returns (updated: map<Value, Value>)
      requires AllMapped(op.operands, valueMap)
      modifies this
      ensures State(updated) == Cloned(old(State(valueMap)), op)
    {
      var remapped := Remap(op.operands, valueMap);
      var clone := op.(id := nextId);
      clone := clone.(operands := remapped);
      block := block + [clone];
      updated := MapResults(op, ResultList(clone.id, op.numResults), valueMap);
      nextId := nextId + 1;
    }

    method Remap(operands: seq<Value>, valueMap: map<Value, Value>) returns (remapped: seq<Value>)
      requires AllMapped(operands, valueMap)
      ensures remapped == RenamedAll(operands, valueMap)
    {
      remapped := [];
      for i := 0 to |operands|
        invariant |remapped| == i
        invariant forall k :: 0 <= k < i ==> remapped[k] == Renamed(operands[k], valueMap)
      {
        assert operands[i] in operands;
        remapped := remapped + [valueMap[operands[i]]];
      }
    }

    method MapResults(op: Op, values: seq<Value>, valueMap: map<Value, Value>) returns (updated: map<Value, Value>)
      requires |values| == op.numResults
      ensures updated == Inserted(valueMap, op.id, values)
    {
      updated := valueMap;
      for i := 0 to op.numResults
        invariant updated == Inserted(valueMap, op.id, values[..i])
      {
        InsertedStep(valueMap, op.id, values, i);
        if Res(op.id, i) !in updated {
          updated := updated[Res(op.id, i) := values[i]];
        }
      }
      assert values[..|values|] == values;
    }

    method ProcessOps(ops: seq<Op>, valueMap: map<Value, Value>) returns (updated: map<Value, Value>)
      requires Ordered(valueMap.Keys, ops)
      modifies this
      ensures State(updated) == CloneAll(old(State(valueMap)), ops)
    {
      updated := valueMap;
      ghost var start := State(valueMap);
      for i := 0 to |ops|
        invariant State(updated) == CloneAll(start, ops[..i])
      {
        CloneAllStep(start, ops, i);
        updated := ProcessOp(ops[i], updated);
      }
      assert ops[..|ops|] == ops;
    }

    method CloneConstEvalFunctionBody(call: Op, callee: Func, valueMap: map<Value, Value>)
      returns (updated: map<Value, Value>)
      requires WellFormed(callee) && Fits(call, callee) && AllMapped(call.operands, valueMap)
      modifies this
      ensures State(updated) == Inline(old(State(valueMap)), call, callee)
    {
      var localValueMap := PassArguments(callee.args, call.operands, valueMap);
      localValueMap := ProcessOps(callee.body, localValueMap);
      var returned := Remap(callee.outs, localValueMap);
      updated := MapResults(call, returned, valueMap);
    }

    method PassArguments(args: seq<nat>, operands: seq<Value>, valueMap: map<Value, Value>)
      returns (localValueMap: map<Value, Value>)
      requires |args| == |operands| && AllMapped(operands, valueMap)
      ensures localValueMap == Passed(valueMap, args, operands)
    {
      localValueMap := map[];
      for i := 0 to |args|
        invariant AllMapped(operands[..i], valueMap)
        invariant localValueMap == Passed(valueMap, args[..i], operands[..i])
      {
        assert operands[i] in operands;
        PassedStep(valueMap, args, operands, i);
        localValueMap := localValueMap[Arg(args[i]) := valueMap[operands[i]]];
      }
      assert args[..|args|] == args && operands[..|args|] == operands;
    }
  }
}
