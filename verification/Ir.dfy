/** Straight-line SSA functions and their meaning. A terminator is the list of returned
    values; every other op computes its results from its name, its attributes and its operands;
    `load_cached` computes the results of the const-eval function it names. */
module Ir {
  import opened Common

  datatype Value = Arg(id: nat) | Res(op: nat, index: nat)

  datatype Kind = Plain(name: string, attrs: nat) | LoadCached(callee: string)

  /** `shared`: duplicated into every const-eval function. `resident` (places of the results whose
      types put them into L1), `tagged` (allowed there), `nonCacheable` and `writes` (operand places
      written in place) decide what may be hoisted. */
  datatype Op = Op(id: nat, kind: Kind, operands: seq<Value>, numResults: nat,
                   shared: bool, nonCacheable: bool, resident: set<nat>, tagged: bool, writes: set<nat>)

  /** `args` lists the ids of the block arguments, `constParams` those holding constants or
      parameters. */
  datatype Func = Func(args: seq<nat>, body: seq<Op>, outs: seq<Value>, constParams: set<nat>, constEval: bool)

  type Program = map<string, Func>

  // ----- Well-formedness: unique definitions, definitions before uses -----

  function Results(op: Op): (r: set<Value>)
    ensures forall v :: v in r <==> v.Res? && v.op == op.id && v.index < op.numResults
  {
    set i | 0 <= i < op.numResults :: Res(op.id, i)
  }

  function Defs(ops: seq<Op>): (d: set<Value>)
    ensures forall v :: v in d ==> v.Res?
  {
    if ops == [] then {} else Defs(ops[..|ops| - 1]) + Results(ops[|ops| - 1])
  }

  lemma {:induction false} DefsOf(ops: seq<Op>, op: Op)
    requires op in ops
    ensures Results(op) <= Defs(ops)
  {
    var n := |ops| - 1;
    if op != ops[n] {
      assert ops == ops[..n] + [ops[n]];
      DefsOf(ops[..n], op);
    }
  }

  lemma {:induction false} DefiningOp(ops: seq<Op>, v: Value) returns (op: Op)
    requires v in Defs(ops)
    ensures op in ops && v in Results(op)
  {
    var n := |ops| - 1;
    if v in Results(ops[n]) { op := ops[n]; } else { op := DefiningOp(ops[..n], v); }
  }

  function ArgValues(args: seq<nat>): (r: set<Value>)
    ensures forall v :: v in r <==> v.Arg? && v.id in args
  {
    set i | i in args :: Arg(i)
  }

  ghost predicate UniqueIds(ops: seq<Op>) {
    forall i, j :: 0 <= i < j < |ops| ==> ops[i].id != ops[j].id
  }

  /** The operands of the k-th op are in scope. */
  ghost predicate InScope(outer: set<Value>, ops: seq<Op>, k: nat)
    requires k < |ops|
  {
    forall v :: v in ops[k].operands ==> v in outer + Defs(ops[..k])
  }

  ghost predicate Ordered(outer: set<Value>, ops: seq<Op>) {
    forall k :: 0 <= k < |ops| ==> InScope(outer, ops, k)
  }

  ghost predicate WellFormed(f: Func) {
    && NoDuplicates(f.args) && UniqueIds(f.body) && Ordered(ArgValues(f.args), f.body)
    && forall v :: v in f.outs ==> v in ArgValues(f.args) + Defs(f.body)
  }

  // ----- Meaning -----

  /** Tensors are told apart by numbers; nothing but equality matters. */
  type Data = int

  /** What each op computes: name, attributes, operand values, result place. */
  type Meaning = (string, nat, seq<Data>, nat) -> Data

  type Env = map<Value, Data>

  function Get(env: Env, v: Value): Data {
    if v in env then env[v] else 0
  }

  function At(data: seq<Data>, k: nat): Data {
    if k < |data| then data[k] else 0
  }

  function Vals(env: Env, vs: seq<Value>): (r: seq<Data>)
    ensures |r| == |vs|
  {
    seq(|vs|, k requires 0 <= k < |vs| => Get(env, vs[k]))
  }

  function OpResult(sem: Meaning, p: Program, op: Op, args: seq<Data>, i: nat): Data
    decreases |p|, 0, 0
  {
    match op.kind
    case Plain(name, attrs) => sem(name, attrs, args, i)
    case LoadCached(callee) => if callee in p then At(Call(sem, p[callee], args), i) else 0
  }

  /** Const-eval functions hold plain ops only; they are run without a program. */
  function Call(sem: Meaning, g: Func, data: seq<Data>): (r: seq<Data>)
    ensures |r| == |g.outs|
    decreases 0, |g.body| + 1, 0
  {
    Vals(Run(sem, map[], g.body, Bind(g.args, data)), g.outs)
  }

  function Bind(args: seq<nat>, data: seq<Data>): Env {
    if args == [] then map[]
    else Bind(args[..|args| - 1], data)[Arg(args[|args| - 1]) := At(data, |args| - 1)]
  }

  function Run(sem: Meaning, p: Program, ops: seq<Op>, env: Env): Env
    decreases |p|, |ops|, 1
  {
    if ops == [] then env
    else
      var op := ops[|ops| - 1];
      var before := Run(sem, p, ops[..|ops| - 1], env);
      var args := Vals(before, op.operands);
      before + map v | v in Results(op) :: OpResult(sem, p, op, args, v.index)
  }

  /** The values a function returns. */
  function Returns(sem: Meaning, p: Program, f: Func, data: seq<Data>): seq<Data> {
    Vals(Final(sem, p, f, data), f.outs)
  }

  /** The values of all its values. */
  function Final(sem: Meaning, p: Program, f: Func, data: seq<Data>): Env {
    Run(sem, p, f.body, Bind(f.args, data))
  }

  // ----- Meaning as the solution of the op equations -----

  ghost predicate Holds(sem: Meaning, p: Program, op: Op, s: Env) {
    forall i :: 0 <= i < op.numResults ==> Get(s, Res(op.id, i)) == OpResult(sem, p, op, Vals(s, op.operands), i)
  }

  ghost predicate AllHold(sem: Meaning, p: Program, ops: seq<Op>, s: Env) {
    forall op :: op in ops ==> Holds(sem, p, op, s)
  }

  ghost predicate Bound(args: seq<nat>, data: seq<Data>, s: Env) {
    forall k :: 0 <= k < |args| ==> Get(s, Arg(args[k])) == At(data, k)
  }

  ghost predicate Solves(sem: Meaning, p: Program, f: Func, data: seq<Data>, s: Env) {
    Bound(f.args, data, s) && AllHold(sem, p, f.body, s)
  }

  lemma {:induction false} BindBinds(args: seq<nat>, data: seq<Data>)
    requires NoDuplicates(args)
    ensures Bound(args, data, Bind(args, data))
    ensures Bind(args, data).Keys == ArgValues(args)
  {
    if args != [] {
      var n := |args| - 1;
      BindBinds(args[..n], data);
      forall k | 0 <= k < |args| ensures Get(Bind(args, data), Arg(args[k])) == At(data, k) {
        if k < n { assert args[..n][k] == args[k]; }
      }
      assert args == args[..n] + [args[n]];
    }
  }

  /** Running touches only the results of the ops run. */
  lemma {:induction false} RunKeeps(sem: Meaning, p: Program, ops: seq<Op>, env: Env, v: Value)
    requires v !in Defs(ops)
    ensures Get(Run(sem, p, ops, env), v) == Get(env, v)
    decreases |ops|
  {
    if ops != [] { RunKeeps(sem, p, ops[..|ops| - 1], env, v); }
  }

  lemma SameVals(s: Env, t: Env, vs: seq<Value>)
    requires forall v :: v in vs ==> Get(s, v) == Get(t, v)
    ensures Vals(s, vs) == Vals(t, vs)
  {
    forall k | 0 <= k < |vs| ensures Vals(s, vs)[k] == Vals(t, vs)[k] { assert vs[k] in vs; }
  }

  lemma ScopeOfPrefix(outer: set<Value>, ops: seq<Op>)
    requires ops != [] && Ordered(outer, ops)
    ensures Ordered(outer, ops[..|ops| - 1]) && InScope(outer, ops, |ops| - 1)
  {
    var n := |ops| - 1;
    forall k | 0 <= k < n ensures InScope(outer, ops[..n], k) {
      assert InScope(outer, ops, k);
      assert ops[..n][..k] == ops[..k];
    }
  }

  lemma LastIsNew(ops: seq<Op>)
    requires ops != [] && UniqueIds(ops)
    ensures Results(ops[|ops| - 1]) !! Defs(ops[..|ops| - 1])
  {
    var n := |ops| - 1;
    forall v | v in Defs(ops[..n]) ensures v !in Results(ops[n]) {
      var op := DefiningOp(ops[..n], v);
    }
  }

  /** One more op: its equation holds, and those of the ops before it still do. */
  lemma RunStepSolves(sem: Meaning, p: Program, ops: seq<Op>, env: Env, outer: set<Value>, op: Op)
    requires ops != [] && UniqueIds(ops) && Ordered(outer, ops) && outer !! Defs(ops)
    requires AllHold(sem, p, ops[..|ops| - 1], Run(sem, p, ops[..|ops| - 1], env))
    requires op in ops
    ensures Holds(sem, p, op, Run(sem, p, ops, env))
  {
    var n := |ops| - 1;
    var before, after := Run(sem, p, ops[..n], env), Run(sem, p, ops, env);
    LastIsNew(ops);
    OperandsBeforeLast(ops, op, outer);
    SameVals(before, after, op.operands);
    if op != ops[n] {
      assert ops == ops[..n] + [ops[n]];
      assert Holds(sem, p, op, before);
      DefsOf(ops[..n], op);
      StillHolds(sem, p, op, before, after);
    }
  }

  /** An op's equation carries over to any values that agree on its operands and results. */
  lemma StillHolds(sem: Meaning, p: Program, op: Op, s: Env, t: Env)
    requires Holds(sem, p, op, s) && Vals(s, op.operands) == Vals(t, op.operands)
    requires forall v :: v in Results(op) ==> Get(t, v) == Get(s, v)
    ensures Holds(sem, p, op, t)
  {
    forall i | 0 <= i < op.numResults ensures Get(t, Res(op.id, i)) == OpResult(sem, p, op, Vals(t, op.operands), i) {
      assert Res(op.id, i) in Results(op);
    }
  }

  /** Running a well-formed block solves its equations. */
  lemma {:induction false} RunSolves(sem: Meaning, p: Program, ops: seq<Op>, env: Env, outer: set<Value>)
    requires UniqueIds(ops) && Ordered(outer, ops) && outer !! Defs(ops)
    ensures AllHold(sem, p, ops, Run(sem, p, ops, env))
    decreases |ops|
  {
    if ops != [] {
      ScopeOfPrefix(outer, ops);
      RunSolves(sem, p, ops[..|ops| - 1], env, outer);
      forall op | op in ops ensures Holds(sem, p, op, Run(sem, p, ops, env)) {
        RunStepSolves(sem, p, ops, env, outer, op);
      }
    }
  }

  /** No op uses the results of the last one. */
  lemma OperandsBeforeLast(ops: seq<Op>, op: Op, outer: set<Value>)
    requires ops != [] && Ordered(outer, ops) && op in ops
    requires outer !! Defs(ops) && Results(ops[|ops| - 1]) !! Defs(ops[..|ops| - 1])
    ensures forall v :: v in op.operands ==> v !in Results(ops[|ops| - 1])
  {
    var k :| 0 <= k < |ops| && ops[k] == op;
    assert InScope(outer, ops, k);
    DefsMonotone(ops[..|ops| - 1], k);
    assert ops[..|ops| - 1][..k] == ops[..k];
  }

  lemma {:induction false} DefsConcat(a: seq<Op>, b: seq<Op>)
    ensures Defs(a + b) == Defs(a) + Defs(b)
    decreases |b|
  {
    if b == [] {
      assert a + b == a;
    } else {
      DefsConcat(a, b[..|b| - 1]);
      assert (a + b)[..|a + b| - 1] == a + b[..|b| - 1];
    }
  }

  lemma DefsSnoc(ops: seq<Op>, op: Op)
    ensures Defs(ops + [op]) == Defs(ops) + Results(op)
  {
    assert (ops + [op])[..|ops|] == ops;
  }

  lemma DefsMonotone(ops: seq<Op>, k: nat)
    requires k <= |ops|
    ensures Defs(ops[..k]) <= Defs(ops)
  {
    DefsConcat(ops[..k], ops[k..]);
    assert ops == ops[..k] + ops[k..];
  }

  /** Ops whose operands agree have results that agree. */
  ghost predicate SameMeaning(sem: Meaning, p: Program, q: Program, op: Op) {
    forall args, i :: OpResult(sem, p, op, args, i) == OpResult(sem, q, op, args, i)
  }

  /** Two solutions that agree on the outer values agree on everything the block defines. */
  lemma {:induction false} SolutionsAgree(sem: Meaning, p: Program, q: Program, ops: seq<Op>, outer: set<Value>,
                                          s: Env, t: Env)
    requires Ordered(outer, ops) && AllHold(sem, p, ops, s) && AllHold(sem, q, ops, t)
    requires forall op :: op in ops ==> SameMeaning(sem, p, q, op)
    requires forall v :: v in outer ==> Get(s, v) == Get(t, v)
    ensures forall v :: v in outer + Defs(ops) ==> Get(s, v) == Get(t, v)
    decreases |ops|
  {
    if ops != [] {
      var n := |ops| - 1;
      assert ops == ops[..n] + [ops[n]];
      ScopeOfPrefix(outer, ops);
      SolutionsAgree(sem, p, q, ops[..n], outer, s, t);
      SameVals(s, t, ops[n].operands);
      assert ops[n] in ops && Holds(sem, p, ops[n], s) && Holds(sem, q, ops[n], t) && SameMeaning(sem, p, q, ops[n]);
      forall v | v in Results(ops[n]) ensures Get(s, v) == Get(t, v) {
        assert v == Res(ops[n].id, v.index);
      }
    }
  }

  /** The run of a well-formed function is its solution. */
  lemma FinalSolves(sem: Meaning, p: Program, f: Func, data: seq<Data>)
    requires WellFormed(f)
    ensures Solves(sem, p, f, data, Final(sem, p, f, data))
  {
    BindBinds(f.args, data);
    RunSolves(sem, p, f.body, Bind(f.args, data), ArgValues(f.args));
    forall k | 0 <= k < |f.args| ensures Get(Final(sem, p, f, data), Arg(f.args[k])) == At(data, k) {
      RunKeeps(sem, p, f.body, Bind(f.args, data), Arg(f.args[k]));
    }
  }

  /** Any solution tells what a well-formed function returns. */
  lemma SolutionReturns(sem: Meaning, p: Program, f: Func, data: seq<Data>, s: Env)
    requires WellFormed(f) && Solves(sem, p, f, data, s)
    ensures Returns(sem, p, f, data) == Vals(s, f.outs)
    ensures forall v :: v in ArgValues(f.args) + Defs(f.body) ==> Get(Final(sem, p, f, data), v) == Get(s, v)
  {
    var t := Final(sem, p, f, data);
    FinalSolves(sem, p, f, data);
    forall v | v in ArgValues(f.args) ensures Get(t, v) == Get(s, v) {
      var k :| 0 <= k < |f.args| && f.args[k] == v.id;
      assert v == Arg(f.args[k]);
    }
    SolutionsAgree(sem, p, p, f.body, ArgValues(f.args), t, s);
    SameVals(t, s, f.outs);
  }
}
