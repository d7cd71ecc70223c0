/** Replacing ops of a function by one `load_cached` call (replaceOpsWithCall): insert the
    call behind the leading calls, redirect uses of the outputs, erase the replaced ops. */
module Rewrite {
  import opened Common
  import opened Ir

  // ----- The pieces -----

  /** The number of leading `load_cached` ops. */
  function CallPosition(ops: seq<Op>): (n: nat)
    ensures n <= |ops|
    ensures forall k :: 0 <= k < n ==> ops[k].kind.LoadCached?
  {
    if ops == [] || ops[0].kind.Plain? then 0 else 1 + CallPosition(ops[1..])
  }

  function Renamed(v: Value, sub: map<Value, Value>): Value {
    if v in sub then sub[v] else v
  }

  function RenamedAll(vs: seq<Value>, sub: map<Value, Value>): (r: seq<Value>)
    ensures |r| == |vs| && forall k :: 0 <= k < |vs| ==> r[k] == Renamed(vs[k], sub)
  {
    seq(|vs|, k requires 0 <= k < |vs| => Renamed(vs[k], sub))
  }

  function RenamedOp(op: Op, sub: map<Value, Value>): Op {
    op.(operands := RenamedAll(op.operands, sub))
  }

  function RenamedOps(ops: seq<Op>, sub: map<Value, Value>): (r: seq<Op>)
    ensures |r| == |ops| && forall k :: 0 <= k < |ops| ==> r[k] == RenamedOp(ops[k], sub)
  {
    seq(|ops|, k requires 0 <= k < |ops| => RenamedOp(ops[k], sub))
  }

  /** The ops left when those with the given ids are erased. */
  function Without(ops: seq<Op>, ids: set<nat>): (r: seq<Op>)
    ensures forall op :: op in r <==> op in ops && op.id !in ids
  {
    if ops == [] then []
    else
      var n := |ops| - 1;
      var front := Without(ops[..n], ids);
      assert ops == ops[..n] + [ops[n]];
      if ops[n].id in ids then front else front + [ops[n]]
  }

  predicate IsResultFor(r: Value, v: Value, outputs: seq<Value>, callId: nat) {
    r.Res? && r.op == callId && r.index < |outputs| && outputs[r.index] == v
  }

  /** The i-th output becomes the i-th result of the call. */
  function CallResults(outputs: seq<Value>, callId: nat): (sub: map<Value, Value>)
    ensures forall v :: v in sub <==> v in outputs
    ensures forall v :: v in sub ==> IsResultFor(sub[v], v, outputs, callId)
  {
    if outputs == [] then map[]
    else
      var n := |outputs| - 1;
      assert outputs == outputs[..n] + [outputs[n]];
      CallResults(outputs[..n], callId)[outputs[n] := Res(callId, n)]
  }

  /** The value's type puts it into L1. */
  predicate InL1(ops: seq<Op>, v: Value) {
    v.Res? && exists op :: op in ops && op.id == v.op && v.index in op.resident
  }

  function ResidentPlaces(ops: seq<Op>, outputs: seq<Value>): (r: set<nat>)
    ensures forall i :: i in r <==> 0 <= i < |outputs| && InL1(ops, outputs[i])
  {
    set i | 0 <= i < |outputs| && InL1(ops, outputs[i])
  }

  /** The call standing for the given outputs: its results have their types, and it carries no
      tag. */
  function CallOp(ops: seq<Op>, callee: string, inputs: seq<Value>, outputs: seq<Value>, callId: nat): Op {
    Op(callId, LoadCached(callee), inputs, |outputs|, false, false, ResidentPlaces(ops, outputs), false, {})
  }

  function HoistedBody(ops: seq<Op>, ids: set<nat>, call: Op, sub: map<Value, Value>): seq<Op> {
    var n := CallPosition(ops);
    Without(RenamedOps(ops[..n], sub), ids) + [call] + Without(RenamedOps(ops[n..], sub), ids)
  }

  function Hoisted(f: Func, ids: set<nat>, inputs: seq<Value>, outputs: seq<Value>, callee: string, callId: nat): Func {
    var sub := CallResults(outputs, callId);
    f.(body := HoistedBody(f.body, ids, CallOp(f.body, callee, inputs, outputs, callId), sub),
      outs := RenamedAll(f.outs, sub))
  }

  predicate DefinedBy(v: Value, ids: set<nat>) {
    v.Res? && v.op in ids
  }

  /** Values of erased ops that anything else uses are outputs. */
  ghost predicate OutputsCover(f: Func, ids: set<nat>, outputs: seq<Value>) {
    && (forall op, v :: op in f.body && op.id !in ids && v in op.operands && DefinedBy(v, ids) ==> v in outputs)
    && (forall v :: v in f.outs && DefinedBy(v, ids) ==> v in outputs)
  }

  /** `load_cached` ops take block arguments only. */
  ghost predicate CallsTakeArgs(ops: seq<Op>) {
    forall op, v :: op in ops && op.kind.LoadCached? && v in op.operands ==> v.Arg?
  }

  ghost predicate Hoistable(f: Func, ids: set<nat>, inputs: seq<Value>, outputs: seq<Value>) {
    && WellFormed(f) && CallsTakeArgs(f.body) && OutputsCover(f, ids, outputs)
    && NoDuplicates(outputs)
    && (forall v :: v in inputs ==> v in ArgValues(f.args))
    && (forall v :: v in outputs ==> DefinedBy(v, ids))
  }

  // ----- The rewritten function is well formed -----

  lemma OrderedConcat(outer: set<Value>, a: seq<Op>, b: seq<Op>)
    ensures Ordered(outer, a + b) <==> Ordered(outer, a) && Ordered(outer + Defs(a), b)
  {
    forall k | 0 <= k < |a| ensures InScope(outer, a + b, k) <==> InScope(outer, a, k) {
      assert (a + b)[..k] == a[..k];
    }
    forall k | 0 <= k < |b| ensures InScope(outer, a + b, |a| + k) <==> InScope(outer + Defs(a), b, k) {
      assert (a + b)[..|a| + k] == a + b[..k];
      DefsConcat(a, b[..k]);
      assert (a + b)[|a| + k] == b[k];
    }
    if Ordered(outer, a + b) {
      forall k | 0 <= k < |a| ensures InScope(outer, a, k) { assert InScope(outer, a + b, k); }
      forall k | 0 <= k < |b| ensures InScope(outer + Defs(a), b, k) { assert InScope(outer, a + b, |a| + k); }
    }
    if Ordered(outer, a) && Ordered(outer + Defs(a), b) {
      forall k | 0 <= k < |a + b| ensures InScope(outer, a + b, k) {
        if k < |a| { assert InScope(outer, a, k); } else { assert InScope(outer + Defs(a), b, k - |a|); }
      }
    }
  }

  lemma OrderedSnoc(outer: set<Value>, a: seq<Op>, op: Op)
    requires Ordered(outer, a) && forall v :: v in op.operands ==> v in outer + Defs(a)
    ensures Ordered(outer, a + [op])
  {
    assert InScope(outer + Defs(a), [op], 0) by { assert [op][..0] == []; }
    OrderedConcat(outer, a, [op]);
  }

  /** `outer'` holds, under its new name, every outer value that a kept op may still use. */
  ghost predicate Carries(outer: set<Value>, outer': set<Value>, sub: map<Value, Value>, ids: set<nat>) {
    && (forall v :: v in outer && !DefinedBy(v, ids) && v !in sub ==> v in outer')
    && (forall v :: v in sub ==> DefinedBy(v, ids) && sub[v] in outer')
  }

  /** Kept ops read renamed values only where the original is erased. */
  ghost predicate ErasedAreRenamed(ops: seq<Op>, sub: map<Value, Value>, ids: set<nat>) {
    forall op, v :: op in ops && op.id !in ids && v in op.operands && DefinedBy(v, ids) ==> v in sub
  }

  /** Renaming and erasing keep definitions before uses. */
  lemma {:induction false} OrderedWithout(outer: set<Value>, outer': set<Value>, ops: seq<Op>, sub: map<Value, Value>,
                                          ids: set<nat>)
    requires Ordered(outer, ops) && Carries(outer, outer', sub, ids) && ErasedAreRenamed(ops, sub, ids)
    ensures Ordered(outer', Without(RenamedOps(ops, sub), ids))
    ensures Carries(outer + Defs(ops), outer' + Defs(Without(RenamedOps(ops, sub), ids)), sub, ids)
    decreases |ops|
  {
    if ops != [] {
      var n := |ops| - 1;
      var last := ops[n];
      assert ops == ops[..n] + [last];
      ScopeOfPrefix(outer, ops);
      OrderedWithout(outer, outer', ops[..n], sub, ids);
      assert RenamedOps(ops, sub)[..n] == RenamedOps(ops[..n], sub);
      var front := Without(RenamedOps(ops[..n], sub), ids);
      if last.id !in ids {
        var renamed := RenamedOp(last, sub);
        assert last in ops;
        CarriedAll(outer + Defs(ops[..n]), outer' + Defs(front), sub, ids, last.operands);
        OrderedSnoc(outer', front, renamed);
        assert (front + [renamed])[..|front|] == front;
        assert Results(renamed) == Results(last);
      }
    }
  }

  lemma {:induction false} WithoutUnique(ops: seq<Op>, ids: set<nat>)
    requires UniqueIds(ops)
    ensures UniqueIds(Without(ops, ids))
  {
    if ops != [] {
      var n := |ops| - 1;
      WithoutUnique(ops[..n], ids);
      var front := Without(ops[..n], ids);
      forall k | 0 <= k < |front| ensures front[k].id != ops[n].id {
        assert front[k] in front;
        var j :| 0 <= j < n && ops[..n][j] == front[k];
      }
    }
  }

  lemma UniqueConcat(a: seq<Op>, b: seq<Op>)
    ensures UniqueIds(a + b) <==> UniqueIds(a) && UniqueIds(b) && forall x, y :: x in a && y in b ==> x.id != y.id
  {
    if UniqueIds(a + b) {
      forall i, j | 0 <= i < j < |a| ensures a[i].id != a[j].id { assert (a + b)[i].id != (a + b)[j].id; }
      forall i, j | 0 <= i < j < |b| ensures b[i].id != b[j].id {
        assert (a + b)[|a| + i].id != (a + b)[|a| + j].id;
      }
      forall x, y | x in a && y in b ensures x.id != y.id {
        var i :| 0 <= i < |a| && a[i] == x;
        var j :| 0 <= j < |b| && b[j] == y;
        assert (a + b)[i].id != (a + b)[|a| + j].id;
      }
    }
    if UniqueIds(a) && UniqueIds(b) && forall x, y :: x in a && y in b ==> x.id != y.id {
      forall i, j | 0 <= i < j < |a + b| ensures (a + b)[i].id != (a + b)[j].id {
        if i < |a| <= j { assert a[i] in a && b[j - |a|] in b; }
      }
    }
  }

  lemma WithoutConcat(a: seq<Op>, b: seq<Op>, ids: set<nat>)
    ensures Without(a + b, ids) == Without(a, ids) + Without(b, ids)
    decreases |b|
  {
    if b == [] {
      assert a + b == a;
    } else {
      assert (a + b)[..|a + b| - 1] == a + b[..|b| - 1];
      WithoutConcat(a, b[..|b| - 1], ids);
    }
  }

  lemma ArgsUntouched(ops: seq<Op>, sub: map<Value, Value>)
    requires CallsTakeArgs(ops) && (forall op :: op in ops ==> op.kind.LoadCached?)
    requires forall v :: v in sub ==> v.Res?
    ensures RenamedOps(ops, sub) == ops == RenamedOps(ops, map[])
  {
    forall k | 0 <= k < |ops| ensures RenamedOp(ops[k], sub) == ops[k] == RenamedOp(ops[k], map[]) {
      assert ops[k] in ops;
      forall j | 0 <= j < |ops[k].operands| ensures ops[k].operands[j].Arg? {
        assert ops[k].operands[j] in ops[k].operands;
      }
      assert RenamedAll(ops[k].operands, sub) == ops[k].operands == RenamedAll(ops[k].operands, map[]);
    }
  }

  /** The kept leading calls followed by the new call are in order, and carry everything the
      rest may use. */
  lemma FrontInOrder(outer: set<Value>, front: seq<Op>, sub: map<Value, Value>, ids: set<nat>, call: Op)
    requires Ordered(outer, front) && CallsTakeArgs(front) && (forall op :: op in front ==> op.kind.LoadCached?)
    requires (forall v :: v in outer ==> v.Arg?) && (forall v :: v in call.operands ==> v in outer)
    requires forall v :: v in sub ==> DefinedBy(v, ids) && sub[v] in Results(call)
    ensures var kept := Without(RenamedOps(front, sub), ids) + [call];
      Ordered(outer, kept) && Carries(outer + Defs(front), outer + Defs(kept), sub, ids)
  {
    ArgsUntouched(front, sub);
    forall op, v | op in front && v in op.operands ensures !DefinedBy(v, ids) {
      assert op.kind.LoadCached? && v.Arg?;
    }
    OrderedWithout(outer, outer, front, map[], ids);
    var kept := Without(front, ids);
    OrderedSnoc(outer, kept, call);
    assert (kept + [call])[..|kept|] == kept;
  }

  lemma HoistedInOrder(f: Func, ids: set<nat>, inputs: seq<Value>, outputs: seq<Value>, callee: string, callId: nat)
    requires Hoistable(f, ids, inputs, outputs)
    ensures var g := Hoisted(f, ids, inputs, outputs, callee, callId);
      Ordered(ArgValues(f.args), g.body) && forall v :: v in g.outs ==> v in ArgValues(f.args) + Defs(g.body)
  {
    var outer, n := ArgValues(f.args), CallPosition(f.body);
    var sub, call := CallResults(outputs, callId), CallOp(f.body, callee, inputs, outputs, callId);
    var a, c := f.body[..n], f.body[n..];
    assert f.body == a + c;
    OrderedConcat(outer, a, c);
    DefsConcat(a, c);
    FrontInOrder(outer, a, sub, ids, call);
    var kept, rest := Without(RenamedOps(a, sub), ids) + [call], Without(RenamedOps(c, sub), ids);
    OrderedWithout(outer + Defs(a), outer + Defs(kept), c, sub, ids);
    OrderedConcat(outer, kept, rest);
    DefsConcat(kept, rest);
    CarriedAll(outer + Defs(f.body), outer + Defs(kept + rest), sub, ids, f.outs);
  }

  lemma CarriedAll(outer: set<Value>, outer': set<Value>, sub: map<Value, Value>, ids: set<nat>, vs: seq<Value>)
    requires Carries(outer, outer', sub, ids)
    requires forall v :: v in vs ==> v in outer && (DefinedBy(v, ids) ==> v in sub)
    ensures forall v' :: v' in RenamedAll(vs, sub) ==> v' in outer'
  {
    forall v' | v' in RenamedAll(vs, sub) ensures v' in outer' {
      var k :| 0 <= k < |vs| && RenamedAll(vs, sub)[k] == v';
      assert vs[k] in vs;
    }
  }

  lemma RenamedUnique(ops: seq<Op>, sub: map<Value, Value>)
    requires UniqueIds(ops)
    ensures UniqueIds(RenamedOps(ops, sub))
  {
  }

  lemma KeptIds(ops: seq<Op>, sub: map<Value, Value>, ids: set<nat>, op': Op)
    requires op' in Without(RenamedOps(ops, sub), ids)
    ensures op'.id !in ids && exists op :: op in ops && op' == RenamedOp(op, sub)
  {
    var k :| 0 <= k < |ops| && RenamedOps(ops, sub)[k] == op';
    assert ops[k] in ops;
  }

  lemma UniqueAround(a: seq<Op>, call: Op, c: seq<Op>)
    requires UniqueIds(a) && UniqueIds(c) && forall x :: x in a || x in c ==> x.id != call.id
    requires forall x, y :: x in a && y in c ==> x.id != y.id
    ensures UniqueIds(a + [call] + c)
  {
    UniqueConcat(a, [call]);
    UniqueConcat(a + [call], c);
  }

  lemma HoistedUnique(ops: seq<Op>, ids: set<nat>, call: Op, sub: map<Value, Value>)
    requires UniqueIds(ops) && (forall op :: op in ops ==> op.id != call.id)
    ensures UniqueIds(HoistedBody(ops, ids, call, sub))
  {
    var n := CallPosition(ops);
    var a, c := RenamedOps(ops[..n], sub), RenamedOps(ops[n..], sub);
    assert ops == ops[..n] + ops[n..];
    UniqueConcat(ops[..n], ops[n..]);
    WithoutUnique(a, ids);
    WithoutUnique(c, ids);
    forall x | x in Without(a, ids) || x in Without(c, ids)
      ensures x.id != call.id
    {
      if x in Without(a, ids) { KeptIds(ops[..n], sub, ids, x); } else { KeptIds(ops[n..], sub, ids, x); }
    }
    forall x, y | x in Without(a, ids) && y in Without(c, ids) ensures x.id != y.id {
      KeptIds(ops[..n], sub, ids, x);
      KeptIds(ops[n..], sub, ids, y);
    }
    UniqueAround(Without(a, ids), call, Without(c, ids));
  }

  lemma HoistedWellFormed(f: Func, ids: set<nat>, inputs: seq<Value>, outputs: seq<Value>, callee: string, callId: nat)
    requires Hoistable(f, ids, inputs, outputs) && (forall op :: op in f.body ==> op.id != callId)
    ensures WellFormed(Hoisted(f, ids, inputs, outputs, callee, callId))
  {
    HoistedInOrder(f, ids, inputs, outputs, callee, callId);
    HoistedUnique(f.body, ids, CallOp(f.body, callee, inputs, outputs, callId), CallResults(outputs, callId));
  }

  lemma HoistedOps(ops: seq<Op>, ids: set<nat>, call: Op, sub: map<Value, Value>, op': Op)
    requires op' in HoistedBody(ops, ids, call, sub)
    ensures op' == call || exists op :: op in ops && op.id !in ids && op' == RenamedOp(op, sub)
  {
    var n := CallPosition(ops);
    if op' in Without(RenamedOps(ops[..n], sub), ids) { KeptIds(ops[..n], sub, ids, op'); }
    else if op' in Without(RenamedOps(ops[n..], sub), ids) { KeptIds(ops[n..], sub, ids, op'); }
  }

  // ----- Where the call stands -----

  /** No call stands behind another op. */
  ghost predicate CallsLead(ops: seq<Op>) {
    forall i, j :: 0 <= i < j < |ops| && ops[j].kind.LoadCached? ==> ops[i].kind.LoadCached?
  }

  lemma {:induction false} CallsStop(ops: seq<Op>)
    ensures CallPosition(ops) < |ops| ==> ops[CallPosition(ops)].kind.Plain?
  {
    if ops != [] && ops[0].kind.LoadCached? { CallsStop(ops[1..]); }
  }

  lemma KeptKinds(ops: seq<Op>, sub: map<Value, Value>, ids: set<nat>, calls: bool)
    requires forall op :: op in ops ==> op.kind.LoadCached? == calls
    ensures forall op :: op in Without(RenamedOps(ops, sub), ids) ==> op.kind.LoadCached? == calls
  {
    forall op | op in Without(RenamedOps(ops, sub), ids) ensures op.kind.LoadCached? == calls {
      KeptIds(ops, sub, ids, op);
    }
  }

  /** The place of the new call: kept calls before it, and only plain ops behind it. */
  lemma CallStandsLast(ops: seq<Op>, ids: set<nat>, call: Op, sub: map<Value, Value>) returns (place: nat)
    requires CallsLead(ops) && call.kind.LoadCached?
    ensures var body := HoistedBody(ops, ids, call, sub);
      && place < |body| && body[place] == call
      && forall j :: 0 <= j < |body| ==> (body[j].kind.LoadCached? <==> j <= place)
  {
    var n := CallPosition(ops);
    CallsStop(ops);
    assert forall op :: op in ops[n..] ==> op.kind.Plain? by {
      assert forall j :: n <= j < |ops| ==> ops[j].kind.Plain?;
    }
    var a, c := Without(RenamedOps(ops[..n], sub), ids), Without(RenamedOps(ops[n..], sub), ids);
    KeptKinds(ops[..n], sub, ids, true);
    KeptKinds(ops[n..], sub, ids, false);
    place := |a|;
    CallsThenPlain(a, call, c);
  }

  lemma CallsThenPlain(a: seq<Op>, call: Op, c: seq<Op>)
    requires call.kind.LoadCached?
    requires (forall op :: op in a ==> op.kind.LoadCached?) && forall op :: op in c ==> !op.kind.LoadCached?
    ensures var body := a + [call] + c;
      body[|a|] == call && forall j :: 0 <= j < |body| ==> (body[j].kind.LoadCached? <==> j <= |a|)
  {
    var body := a + [call] + c;
    forall j | 0 <= j < |body| ensures body[j].kind.LoadCached? <==> j <= |a| {
      if j < |a| { assert body[j] == a[j] && a[j] in a; }
      else if j > |a| { assert body[j] == c[j - |a| - 1] && c[j - |a| - 1] in c; }
    }
  }

  // ----- The rewritten function means the same -----

  /** Every value equals the one that replaces it. */
  ghost predicate RepeatsOutputs(s: Env, sub: map<Value, Value>) {
    forall v :: v in sub ==> Get(s, sub[v]) == Get(s, v)
  }

  lemma RenamedVals(s: Env, vs: seq<Value>, sub: map<Value, Value>)
    requires RepeatsOutputs(s, sub)
    ensures Vals(s, RenamedAll(vs, sub)) == Vals(s, vs)
  {
  }

  /** A solution in which every call result equals its output solves the rewritten function. */
  lemma HoistedSolves(sem: Meaning, p: Program, q: Program, f: Func, data: seq<Data>, s: Env, ids: set<nat>,
                      inputs: seq<Value>, outputs: seq<Value>, callee: string, callId: nat)
    requires Solves(sem, p, f, data, s)
    requires forall op :: op in f.body && op.id !in ids ==> SameMeaning(sem, p, q, op)
    requires RepeatsOutputs(s, CallResults(outputs, callId))
    requires Holds(sem, q, CallOp(f.body, callee, inputs, outputs, callId), s)
    ensures var g := Hoisted(f, ids, inputs, outputs, callee, callId);
      Solves(sem, q, g, data, s) && Vals(s, g.outs) == Vals(s, f.outs)
  {
    var g, sub := Hoisted(f, ids, inputs, outputs, callee, callId), CallResults(outputs, callId);
    var call := CallOp(f.body, callee, inputs, outputs, callId);
    RenamedVals(s, f.outs, sub);
    forall op' | op' in g.body ensures Holds(sem, q, op', s) {
      HoistedOps(f.body, ids, call, sub, op');
      if op' != call {
        var op :| op in f.body && op.id !in ids && op' == RenamedOp(op, sub);
        assert Holds(sem, p, op, s) && SameMeaning(sem, p, q, op);
        RenamedVals(s, op.operands, sub);
        forall i | 0 <= i < op.numResults
          ensures Get(s, Res(op'.id, i)) == OpResult(sem, q, op', Vals(s, op'.operands), i)
        {
          assert OpResult(sem, p, op, Vals(s, op.operands), i) == OpResult(sem, q, op, Vals(s, op.operands), i);
          SameKind(sem, q, op, op', Vals(s, op.operands), i);
        }
      }
    }
  }

  lemma SameKind(sem: Meaning, p: Program, op: Op, op': Op, args: seq<Data>, i: nat)
    requires op.kind == op'.kind
    ensures OpResult(sem, p, op, args, i) == OpResult(sem, p, op', args, i)
  {
  }

  /** The callee computes the outputs from the inputs, wherever the function is run. */
  ghost predicate Computes(sem: Meaning, p: Program, f: Func, data: seq<Data>, g: Func, inputs: seq<Value>,
                           outputs: seq<Value>) {
    var s := Final(sem, p, f, data);
    Call(sem, g, Vals(s, inputs)) == Vals(s, outputs)
  }

  /** The values of the original function, with the outputs repeated as call results. */
  function WithCall(s: Env, outputs: seq<Value>, callId: nat): Env {
    s + map i | 0 <= i < |outputs| :: Res(callId, i) := Get(s, outputs[i])
  }

  lemma WithCallSolves(sem: Meaning, p: Program, f: Func, data: seq<Data>, s: Env, outputs: seq<Value>, callId: nat)
    requires WellFormed(f) && Solves(sem, p, f, data, s) && (forall op :: op in f.body ==> op.id != callId)
    ensures Solves(sem, p, f, data, WithCall(s, outputs, callId))
    ensures forall v :: v in ArgValues(f.args) + Defs(f.body) ==> Get(WithCall(s, outputs, callId), v) == Get(s, v)
  {
    var t := WithCall(s, outputs, callId);
    forall v | v in Defs(f.body) ensures Get(t, v) == Get(s, v) {
      var op := DefiningOp(f.body, v);
    }
    forall op | op in f.body ensures Holds(sem, p, op, t) {
      assert Holds(sem, p, op, s);
      OperandsInScope(f, op);
      SameVals(s, t, op.operands);
      DefsOf(f.body, op);
      forall i | 0 <= i < op.numResults ensures Get(t, Res(op.id, i)) == Get(s, Res(op.id, i)) {
        assert Res(op.id, i) in Results(op);
      }
    }
  }

  lemma OperandsInScope(f: Func, op: Op)
    requires WellFormed(f) && op in f.body
    ensures forall v :: v in op.operands ==> v in ArgValues(f.args) + Defs(f.body)
  {
    var k :| 0 <= k < |f.body| && f.body[k] == op;
    assert InScope(ArgValues(f.args), f.body, k);
    DefsMonotone(f.body, k);
  }

  lemma CallHolds(sem: Meaning, q: Program, f: Func, s: Env, inputs: seq<Value>, outputs: seq<Value>,
                  callee: string, callId: nat)
    requires callee in q && Call(sem, q[callee], Vals(s, inputs)) == Vals(s, outputs)
    requires forall v :: v in inputs ==> Get(WithCall(s, outputs, callId), v) == Get(s, v)
    ensures Holds(sem, q, CallOp(f.body, callee, inputs, outputs, callId), WithCall(s, outputs, callId))
  {
    var t, call := WithCall(s, outputs, callId), CallOp(f.body, callee, inputs, outputs, callId);
    SameVals(s, t, inputs);
    forall i | 0 <= i < |outputs| ensures Get(t, Res(callId, i)) == OpResult(sem, q, call, Vals(t, inputs), i) {
      assert Vals(s, outputs)[i] == Get(s, outputs[i]);
    }
  }

  lemma CallGives(s: Env, outputs: seq<Value>, callId: nat, i: nat)
    requires i < |outputs|
    ensures Get(WithCall(s, outputs, callId), Res(callId, i)) == Get(s, outputs[i])
  {
  }

  lemma OutputsRepeated(s: Env, outputs: seq<Value>, callId: nat)
    requires forall v :: v in outputs ==> Get(WithCall(s, outputs, callId), v) == Get(s, v)
    ensures RepeatsOutputs(WithCall(s, outputs, callId), CallResults(outputs, callId))
  {
    var sub := CallResults(outputs, callId);
    forall v | v in sub ensures Get(WithCall(s, outputs, callId), sub[v]) == Get(s, v) {
      var r := sub[v];
      assert IsResultFor(r, v, outputs, callId);
      CallGives(s, outputs, callId, r.index);
    }
  }

  /** Replacing ops by a call that computes their outputs keeps what the function returns. */
  lemma HoistPreserves(sem: Meaning, p: Program, q: Program, f: Func, data: seq<Data>, ids: set<nat>,
                       inputs: seq<Value>, outputs: seq<Value>, callee: string, callId: nat)
    requires Hoistable(f, ids, inputs, outputs) && (forall op :: op in f.body ==> op.id != callId)
    requires forall v :: v in outputs ==> v in Defs(f.body)
    requires callee in q && Computes(sem, p, f, data, q[callee], inputs, outputs)
    requires forall op :: op in f.body && op.id !in ids ==> SameMeaning(sem, p, q, op)
    ensures Returns(sem, q, Hoisted(f, ids, inputs, outputs, callee, callId), data) == Returns(sem, p, f, data)
  {
    var s := Final(sem, p, f, data);
    var t := WithCall(s, outputs, callId);
    FinalSolves(sem, p, f, data);
    WithCallSolves(sem, p, f, data, s, outputs, callId);
    CallHolds(sem, q, f, s, inputs, outputs, callee, callId);
    OutputsRepeated(s, outputs, callId);
    SameVals(s, t, f.outs);
    HoistedSolves(sem, p, q, f, data, t, ids, inputs, outputs, callee, callId);
    HoistedWellFormed(f, ids, inputs, outputs, callee, callId);
    SolutionReturns(sem, q, Hoisted(f, ids, inputs, outputs, callee, callId), data, t);
  }

  // ----- Single edits of a function -----

  /** Every use of the replaced values redirected (replaceAllUsesWith). */
  function Redirected(f: Func, sub: map<Value, Value>): Func {
    f.(body := RenamedOps(f.body, sub), outs := RenamedAll(f.outs, sub))
  }

  /** No op that stays, and no returned value, uses a result of the op. */
  predicate Unused(f: Func, id: nat) {
    && (forall op :: op in f.body ==> forall v :: v in op.operands ==> !DefinedBy(v, {id}))
    && (forall v :: v in f.outs ==> !DefinedBy(v, {id}))
  }

  /** An op may be erased only once nothing uses it. */
  function Erased(f: Func, id: nat): Func
    requires Unused(f, id)
  {
    f.(body := Without(f.body, {id}))
  }

  lemma WithoutTwice(ops: seq<Op>, a: set<nat>, b: set<nat>)
    ensures Without(Without(ops, a), b) == Without(ops, a + b)
    decreases |ops|
  {
    if ops != [] {
      var n := |ops| - 1;
      WithoutTwice(ops[..n], a, b);
      var front := Without(ops[..n], a);
      if ops[n].id !in a { assert (front + [ops[n]])[..|front|] == front; }
    }
  }

  lemma WithoutNone(ops: seq<Op>)
    ensures Without(ops, {}) == ops
    decreases |ops|
  {
    if ops != [] {
      WithoutNone(ops[..|ops| - 1]);
      assert ops == ops[..|ops| - 1] + [ops[|ops| - 1]];
    }
  }

  /** Two renamings in turn are one, when the second neither reads nor undoes the first. */
  ghost predicate Chains(a: map<Value, Value>, b: map<Value, Value>) {
    a.Keys !! b.Keys && forall v :: v in a ==> a[v] !in b
  }

  lemma RenamedAllTwice(vs: seq<Value>, a: map<Value, Value>, b: map<Value, Value>)
    requires Chains(a, b)
    ensures RenamedAll(RenamedAll(vs, a), b) == RenamedAll(vs, a + b)
  {
    forall k | 0 <= k < |vs| ensures Renamed(Renamed(vs[k], a), b) == Renamed(vs[k], a + b) { }
  }

  lemma RedirectedTwice(f: Func, a: map<Value, Value>, b: map<Value, Value>)
    requires Chains(a, b)
    ensures Redirected(Redirected(f, a), b) == Redirected(f, a + b)
  {
    RenamedAllTwice(f.outs, a, b);
    forall k | 0 <= k < |f.body| ensures RenamedOp(RenamedOp(f.body[k], a), b) == RenamedOp(f.body[k], a + b) {
      RenamedAllTwice(f.body[k].operands, a, b);
    }
    assert RenamedOps(RenamedOps(f.body, a), b) == RenamedOps(f.body, a + b);
  }

  lemma RedirectedNone(f: Func)
    ensures Redirected(f, map[]) == f
  {
    forall k | 0 <= k < |f.body| ensures RenamedOp(f.body[k], map[]) == f.body[k] {
      assert RenamedAll(f.body[k].operands, map[]) == f.body[k].operands;
    }
    assert RenamedOps(f.body, map[]) == f.body;
    assert RenamedAll(f.outs, map[]) == f.outs;
  }
}
