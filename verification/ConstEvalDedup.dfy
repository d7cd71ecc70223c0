/** Keeping one of each shared op in a const-eval function (deduplicateSharedOps). */
module ConstEvalDedup {
  import opened Common
  import opened Ir
  import opened Rewrite
  import opened ConstEvalSubgraphs

  /** The first shared op of each kind, the duplicates' results with what replaces them, and
      the duplicates to erase. */
  datatype Seen = Seen(firsts: map<Kind, Op>, sub: map<Value, Value>, gone: set<nat>)

  function ToFirst(op: Op, first: nat): (m: map<Value, Value>)
    ensures m.Keys == Results(op)
  {
    map v | v in Results(op) :: Res(first, v.index)
  }

  function SeenNext(s: Seen, op: Op): Seen {
    if !op.shared then s
    else if op.kind !in s.firsts then s.(firsts := s.firsts[op.kind := op])
    else s.(sub := s.sub + ToFirst(op, s.firsts[op.kind].id), gone := s.gone + {op.id})
  }

  function Scan(ops: seq<Op>): Seen {
    if ops == [] then Seen(map[], map[], {}) else SeenNext(Scan(ops[..|ops| - 1]), ops[|ops| - 1])
  }

  function Deduplicated(f: Func): Func {
    var s := Scan(f.body);
    Redirected(f, s.sub).(body := Without(RenamedOps(f.body, s.sub), s.gone))
  }

  // ----- What the scan knows -----

  /** The first of a kind is a kept shared op of that kind. */
  ghost predicate IsFirst(ops: seq<Op>, gone: set<nat>, kind: Kind, op: Op) {
    op in ops && op.shared && op.kind == kind && op.id !in gone
  }

  /** The results of a duplicate stand for values defined earlier and kept. */
  ghost predicate Redirects(ops: seq<Op>, sub: map<Value, Value>, gone: set<nat>, k: nat, v: Value)
    requires k < |ops|
  {
    if ops[k].id in gone then v in sub && sub[v] in Defs(ops[..k]) && !DefinedBy(sub[v], gone) else v !in sub
  }

  ghost predicate Earlier(ops: seq<Op>, sub: map<Value, Value>, gone: set<nat>) {
    forall k, v {:trigger Redirects(ops, sub, gone, k, v)} :: 0 <= k < |ops| && v in Results(ops[k]) ==>
      Redirects(ops, sub, gone, k, v)
  }

  ghost predicate Firsts(ops: seq<Op>, s: Seen) {
    forall kind {:trigger IsFirst(ops, s.gone, kind, s.firsts[kind])} :: kind in s.firsts ==>
      IsFirst(ops, s.gone, kind, s.firsts[kind])
  }

  ghost predicate Scanned(ops: seq<Op>, s: Seen) {
    && Firsts(ops, s)
    && (forall op :: op in ops && op.shared ==> op.kind in s.firsts)
    && (forall i :: i in s.gone ==> i in SharedIds(ops))
    && s.sub.Keys <= Defs(ops)
    && Earlier(ops, s.sub, s.gone)
  }

  lemma FirstDefines(ops: seq<Op>, gone: set<nat>, kind: Kind, first: Op)
    requires AllLegal(ops) && IsFirst(ops, gone, kind, first)
    ensures Res(first.id, 0) in Defs(ops) && !DefinedBy(Res(first.id, 0), gone)
  {
    DefsOf(ops, first);
    assert Res(first.id, 0) in Results(first);
  }

  /** What one more op can be told apart by. */
  lemma NewId(front: seq<Op>, op: Op)
    requires UniqueIds(front + [op])
    ensures UniqueIds(front) && (forall e :: e in front ==> e.id != op.id) && Results(op) !! Defs(front)
  {
    UniqueConcat(front, [op]);
    assert op in [op];
    forall v | v in Defs(front) ensures v !in Results(op) { var e := DefiningOp(front, v); }
  }

  lemma NewIsNotGone(front: seq<Op>, op: Op, s: Seen)
    requires UniqueIds(front + [op]) && Scanned(front, s)
    ensures op.id !in s.gone && (forall e :: e in front ==> e.id != op.id) && Results(op) !! Defs(front)
  {
    NewId(front, op);
  }

  lemma EarlierOld(front: seq<Op>, op: Op, s: Seen, k: nat, v: Value)
    requires UniqueIds(front + [op]) && k < |front| && v in Results(front[k]) && Redirects(front, s.sub, s.gone, k, v)
    ensures Redirects(front + [op], SeenNext(s, op).sub, SeenNext(s, op).gone, k, v)
  {
    NewId(front, op);
    assert (front + [op])[..k] == front[..k];
    OlderThan(front, op, k, v);
    if front[k].id in s.gone { EarlierThan(front, op, k, s.sub[v]); }
  }

  lemma OlderThan(front: seq<Op>, op: Op, k: nat, v: Value)
    requires (forall e :: e in front ==> e.id != op.id) && k < |front| && v in Results(front[k])
    ensures v !in Results(op) && front[k].id != op.id
  {
  }

  lemma EarlierThan(front: seq<Op>, op: Op, k: nat, v: Value)
    requires (forall e :: e in front ==> e.id != op.id) && k < |front| && v in Defs(front[..k])
    ensures !DefinedBy(v, {op.id})
  {
    var e := DefiningOp(front[..k], v);
  }

  lemma EarlierNew(front: seq<Op>, op: Op, s: Seen, v: Value)
    requires UniqueIds(front + [op]) && AllLegal(front) && Legal(op) && Scanned(front, s) && v in Results(op)
    ensures Redirects(front + [op], SeenNext(s, op).sub, SeenNext(s, op).gone, |front|, v)
  {
    NewIsNotGone(front, op, s);
    assert (front + [op])[..|front|] == front;
    if op.shared && op.kind in s.firsts {
      FirstIsFirst(front, s, op.kind);
      FirstDefines(front, s.gone, op.kind, s.firsts[op.kind]);
    }
  }

  lemma FirstIsFirst(ops: seq<Op>, s: Seen, kind: Kind)
    requires Firsts(ops, s) && kind in s.firsts
    ensures IsFirst(ops, s.gone, kind, s.firsts[kind])
  {
    assert IsFirst(ops, s.gone, kind, s.firsts[kind]);
  }

  lemma FirstsNext(front: seq<Op>, op: Op, s: Seen)
    requires UniqueIds(front + [op]) && Scanned(front, s)
    ensures Firsts(front + [op], SeenNext(s, op))
  {
    var s' := SeenNext(s, op);
    NewIsNotGone(front, op, s);
    forall kind | kind in s'.firsts ensures IsFirst(front + [op], s'.gone, kind, s'.firsts[kind]) {
      if kind in s.firsts { FirstIsFirst(front, s, kind); }
    }
  }

  lemma EarlierNext(front: seq<Op>, op: Op, s: Seen)
    requires UniqueIds(front + [op]) && AllLegal(front) && Legal(op) && Scanned(front, s)
    ensures Earlier(front + [op], SeenNext(s, op).sub, SeenNext(s, op).gone)
  {
    var ops, s' := front + [op], SeenNext(s, op);
    forall k, v | 0 <= k < |ops| && v in Results(ops[k]) ensures Redirects(ops, s'.sub, s'.gone, k, v) {
      if k < |front| {
        assert Redirects(front, s.sub, s.gone, k, v);
        EarlierOld(front, op, s, k, v);
      } else {
        EarlierNew(front, op, s, v);
      }
    }
  }

  lemma ScannedNext(front: seq<Op>, op: Op, s: Seen)
    requires UniqueIds(front + [op]) && AllLegal(front) && Legal(op) && Scanned(front, s)
    ensures Scanned(front + [op], SeenNext(s, op))
  {
    FirstsNext(front, op, s);
    EarlierNext(front, op, s);
    DefsSnoc(front, op);
  }

  lemma {:induction false} ScanScans(ops: seq<Op>)
    requires UniqueIds(ops) && AllLegal(ops)
    ensures Scanned(ops, Scan(ops))
  {
    if ops != [] {
      var n := |ops| - 1;
      assert ops == ops[..n] + [ops[n]];
      ScanScans(ops[..n]);
      ScannedNext(ops[..n], ops[n], Scan(ops[..n]));
    }
  }

  // ----- Well formed -----

  ghost predicate Reaches(from: set<Value>, sub: map<Value, Value>, to: set<Value>) {
    forall v :: v in from ==> Renamed(v, sub) in to
  }

  lemma ReachesAll(from: set<Value>, sub: map<Value, Value>, to: set<Value>, vs: seq<Value>)
    requires Reaches(from, sub, to) && forall v :: v in vs ==> v in from
    ensures forall v' :: v' in RenamedAll(vs, sub) ==> v' in to
  {
    forall v' | v' in RenamedAll(vs, sub) ensures v' in to {
      var k :| 0 <= k < |vs| && RenamedAll(vs, sub)[k] == v';
      assert vs[k] in vs;
    }
  }

  lemma EarlierPrefix(ops: seq<Op>, sub: map<Value, Value>, gone: set<nat>)
    requires ops != [] && Earlier(ops, sub, gone)
    ensures Earlier(ops[..|ops| - 1], sub, gone)
  {
    var front := ops[..|ops| - 1];
    forall k, v | 0 <= k < |front| && v in Results(front[k]) ensures Redirects(front, sub, gone, k, v) {
      assert front[..k] == ops[..k] && Redirects(ops, sub, gone, k, v);
    }
  }

  /** Redirecting to earlier kept values and erasing the rest keeps definitions before uses. */
  lemma {:induction false} RedirectedOrdered(outer: set<Value>, ops: seq<Op>, sub: map<Value, Value>, gone: set<nat>)
    requires Ordered(outer, ops) && Earlier(ops, sub, gone) && (forall v :: v in sub ==> v.Res?)
    requires (forall v :: v in outer ==> v.Arg?)
    ensures Ordered(outer, Without(RenamedOps(ops, sub), gone))
    ensures Reaches(outer + Defs(ops), sub, outer + Defs(Without(RenamedOps(ops, sub), gone)))
    decreases |ops|
  {
    if ops != [] {
      var n := |ops| - 1;
      ScopeOfPrefix(outer, ops);
      EarlierPrefix(ops, sub, gone);
      RedirectedOrdered(outer, ops[..n], sub, gone);
      WithoutLast(ops, sub, gone);
      RedirectedNext(outer, ops, sub, gone, Without(RenamedOps(ops[..n], sub), gone));
    }
  }

  lemma WithoutLast(ops: seq<Op>, sub: map<Value, Value>, gone: set<nat>)
    requires ops != []
    ensures var front := Without(RenamedOps(ops[..|ops| - 1], sub), gone);
      Without(RenamedOps(ops, sub), gone)
        == if ops[|ops| - 1].id in gone then front else front + [RenamedOp(ops[|ops| - 1], sub)]
  {
    assert RenamedOps(ops, sub)[..|ops| - 1] == RenamedOps(ops[..|ops| - 1], sub);
  }

  lemma RedirectedNext(outer: set<Value>, ops: seq<Op>, sub: map<Value, Value>, gone: set<nat>, front: seq<Op>)
    requires ops != [] && Earlier(ops, sub, gone) && InScope(outer, ops, |ops| - 1)
    requires Ordered(outer, front) && Reaches(outer + Defs(ops[..|ops| - 1]), sub, outer + Defs(front))
    ensures var next := if ops[|ops| - 1].id in gone then front else front + [RenamedOp(ops[|ops| - 1], sub)];
      Ordered(outer, next) && Reaches(outer + Defs(ops), sub, outer + Defs(next))
  {
    var n := |ops| - 1;
    var renamed := RenamedOp(ops[n], sub);
    ReachesNext(outer, ops, sub, gone, outer + Defs(front));
    if ops[n].id !in gone {
      ReachesAll(outer + Defs(ops[..n]), sub, outer + Defs(front), ops[n].operands);
      OrderedSnoc(outer, front, renamed);
      assert (front + [renamed])[..|front|] == front;
      assert Results(renamed) == Results(ops[n]);
      assert outer + Defs(front + [renamed]) == outer + Defs(front) + Results(ops[n]);
    }
  }

  lemma ReachesNext(outer: set<Value>, ops: seq<Op>, sub: map<Value, Value>, gone: set<nat>, to: set<Value>)
    requires ops != [] && Earlier(ops, sub, gone) && Reaches(outer + Defs(ops[..|ops| - 1]), sub, to)
    ensures ops[|ops| - 1].id in gone ==> Reaches(outer + Defs(ops), sub, to)
    ensures ops[|ops| - 1].id !in gone ==> Reaches(outer + Defs(ops), sub, to + Results(ops[|ops| - 1]))
  {
    var n := |ops| - 1;
    forall v | v in Results(ops[n]) && ops[n].id in gone ensures Renamed(v, sub) in to {
      assert Redirects(ops, sub, gone, n, v);
      var w := sub[v];
      KeptIsItself(ops, sub, gone, w);
      assert Renamed(w, sub) == w;
    }
    forall v | v in Results(ops[n]) && ops[n].id !in gone ensures Renamed(v, sub) == v {
      assert Redirects(ops, sub, gone, n, v);
    }
  }

  lemma KeptIsItself(ops: seq<Op>, sub: map<Value, Value>, gone: set<nat>, w: Value)
    requires Earlier(ops, sub, gone) && w in Defs(ops) && !DefinedBy(w, gone)
    ensures w !in sub
  {
    var op := DefiningOp(ops, w);
    var k :| 0 <= k < |ops| && ops[k] == op;
    assert Redirects(ops, sub, gone, k, w);
  }

  lemma DeduplicatedWellFormed(f: Func)
    requires WellFormed(f) && AllLegal(f.body)
    ensures WellFormed(Deduplicated(f))
  {
    var s, outer := Scan(f.body), ArgValues(f.args);
    ScanScans(f.body);
    RedirectedOrdered(outer, f.body, s.sub, s.gone);
    ReachesAll(outer + Defs(f.body), s.sub, outer + Defs(Deduplicated(f).body), f.outs);
    RenamedUnique(f.body, s.sub);
    WithoutUnique(RenamedOps(f.body, s.sub), s.gone);
  }

  // ----- One of each, and nothing else lost -----

  /** No two shared ops of a kind are left. */
  lemma OneOfEach(f: Func, a: Op, b: Op)
    requires WellFormed(f) && AllLegal(f.body)
    requires a in Deduplicated(f).body && b in Deduplicated(f).body && a.shared && b.shared && a.kind == b.kind
    ensures a == b
  {
    var s := Scan(f.body);
    KeptIds(f.body, s.sub, s.gone, a);
    KeptIds(f.body, s.sub, s.gone, b);
    DeduplicatedWellFormed(f);
    var x :| x in f.body && a == RenamedOp(x, s.sub);
    var y :| y in f.body && b == RenamedOp(y, s.sub);
    KeptIsFirst(f.body, x);
    KeptIsFirst(f.body, y);
    SameId(Deduplicated(f).body, a, b);
  }

  lemma {:induction false} KeptIsFirst(ops: seq<Op>, op: Op)
    requires UniqueIds(ops) && AllLegal(ops) && op in ops && op.shared && op.id !in Scan(ops).gone
    ensures op.kind in Scan(ops).firsts && Scan(ops).firsts[op.kind] == op
  {
    var n := |ops| - 1;
    assert ops == ops[..n] + [ops[n]];
    if op in ops[..n] { KeptIsFirst(ops[..n], op); }
  }

  /** Only shared ops are erased, and never the last of a kind. */
  lemma OnlyDuplicatesGo(f: Func, op: Op)
    requires WellFormed(f) && AllLegal(f.body) && op in f.body
    ensures !op.shared ==> RenamedOp(op, Scan(f.body).sub) in Deduplicated(f).body
    ensures op.shared ==> exists e :: e in Deduplicated(f).body && e.shared && e.kind == op.kind
  {
    var s := Scan(f.body);
    ScanScans(f.body);
    if op.shared {
      FirstIsFirst(f.body, s, op.kind);
      SurvivesErasing(f.body, s.sub, s.gone, s.firsts[op.kind]);
    } else {
      OrdinaryStays(f.body, op);
      SurvivesErasing(f.body, s.sub, s.gone, op);
    }
  }

  lemma OrdinaryStays(ops: seq<Op>, op: Op)
    requires UniqueIds(ops) && Scanned(ops, Scan(ops)) && op in ops && !op.shared
    ensures op.id !in Scan(ops).gone
  {
    forall e | e in ops && e.shared ensures e.id != op.id {
      if e.id == op.id { SameId(ops, op, e); }
    }
  }

  // ----- Same meaning -----

  lemma SharedAgree(sem: Meaning, q: Program, a: Op, b: Op, t: Env)
    requires Legal(a) && Legal(b) && a.shared && b.shared && a.kind == b.kind && Holds(sem, q, a, t)
    requires Holds(sem, q, b, t)
    ensures Get(t, Res(a.id, 0)) == Get(t, Res(b.id, 0))
  {
    assert OpResult(sem, q, a, Vals(t, a.operands), 0) == OpResult(sem, q, b, Vals(t, b.operands), 0);
  }

  lemma {:induction false} DuplicatesRepeat(sem: Meaning, q: Program, ops: seq<Op>, t: Env)
    requires UniqueIds(ops) && AllLegal(ops) && AllHold(sem, q, ops, t)
    ensures RepeatsOutputs(t, Scan(ops).sub)
  {
    if ops != [] {
      var n := |ops| - 1;
      var front, op := ops[..n], ops[n];
      assert ops == front + [op];
      DuplicatesRepeat(sem, q, front, t);
      ScanScans(front);
      if op.shared && op.kind in Scan(front).firsts { DuplicateRepeats(sem, q, front, op, Scan(front), t); }
    }
  }

  lemma DuplicateRepeats(sem: Meaning, q: Program, front: seq<Op>, op: Op, s: Seen, t: Env)
    requires AllLegal(front) && Legal(op) && AllHold(sem, q, front, t) && Holds(sem, q, op, t)
    requires Scanned(front, s) && op.shared && op.kind in s.firsts && RepeatsOutputs(t, s.sub)
    ensures RepeatsOutputs(t, s.sub + ToFirst(op, s.firsts[op.kind].id))
  {
    var e := s.firsts[op.kind];
    FirstIsFirst(front, s, op.kind);
    SharedAgree(sem, q, e, op, t);
    forall v | v in Results(op) ensures Get(t, Res(e.id, v.index)) == Get(t, v) {
      assert v == Res(op.id, 0);
    }
  }

  lemma DeduplicatedHolds(sem: Meaning, f: Func, t: Env)
    requires AllHold(sem, map[], f.body, t) && RepeatsOutputs(t, Scan(f.body).sub)
    ensures AllHold(sem, map[], Deduplicated(f).body, t)
  {
    var s := Scan(f.body);
    forall op' | op' in Deduplicated(f).body ensures Holds(sem, map[], op', t) {
      KeptIds(f.body, s.sub, s.gone, op');
      var op :| op in f.body && op' == RenamedOp(op, s.sub);
      RenamedHolds(sem, op, s.sub, t);
    }
  }

  lemma RenamedHolds(sem: Meaning, op: Op, sub: map<Value, Value>, t: Env)
    requires Holds(sem, map[], op, t) && RepeatsOutputs(t, sub)
    ensures Holds(sem, map[], RenamedOp(op, sub), t)
  {
    var op' := RenamedOp(op, sub);
    RenamedVals(t, op.operands, sub);
    forall i | 0 <= i < op.numResults
      ensures Get(t, Res(op'.id, i)) == OpResult(sem, map[], op', Vals(t, op'.operands), i)
    {
      SameKind(sem, map[], op, op', Vals(t, op.operands), i);
    }
  }

  /** The function still returns the same values. */
  lemma DeduplicatedReturns(sem: Meaning, f: Func, data: seq<Data>)
    requires WellFormed(f) && AllLegal(f.body)
    ensures Call(sem, Deduplicated(f), data) == Call(sem, f, data)
  {
    var t, g := Final(sem, map[], f, data), Deduplicated(f);
    FinalSolves(sem, map[], f, data);
    DuplicatesRepeat(sem, map[], f.body, t);
    DeduplicatedHolds(sem, f, t);
    DeduplicatedWellFormed(f);
    RenamedVals(t, f.outs, Scan(f.body).sub);
    SolutionReturns(sem, map[], g, data, t);
  }

  // ----- The walk -----

  /** What replaces a value is itself kept, and so never replaced later. */
  lemma RedirectedChains(front: seq<Op>, op: Op, s: Seen)
    requires UniqueIds(front + [op]) && Scanned(front, s) && op.shared && op.kind in s.firsts
    ensures Chains(s.sub, ToFirst(op, s.firsts[op.kind].id))
  {
    NewId(front, op);
    forall v | v in s.sub ensures s.sub[v] in Defs(front) { TargetDefined(front, s, v); }
  }

  lemma TargetDefined(ops: seq<Op>, s: Seen, v: Value)
    requires Earlier(ops, s.sub, s.gone) && s.sub.Keys <= Defs(ops) && v in s.sub
    ensures s.sub[v] in Defs(ops) && !DefinedBy(s.sub[v], s.gone)
  {
    var e := DefiningOp(ops, v);
    var i :| 0 <= i < |ops| && ops[i] == e;
    assert Redirects(ops, s.sub, s.gone, i, v);
    DefsMonotone(ops, i);
  }

  lemma ScanStep(ops: seq<Op>, k: nat)
    requires k < |ops| && UniqueIds(ops) && AllLegal(ops)
    ensures Scan(ops[..k + 1]) == SeenNext(Scan(ops[..k]), ops[k])
    ensures ops[k].shared && ops[k].kind in Scan(ops[..k]).firsts ==>
        Chains(Scan(ops[..k]).sub, ToFirst(ops[k], Scan(ops[..k]).firsts[ops[k].kind].id))
  {
    var front := ops[..k];
    assert ops[..k + 1] == front + [ops[k]];
    assert (front + [ops[k]])[..k] == front;
    assert UniqueIds(front + [ops[k]]);
    NewId(front, ops[k]);
    ScanScans(front);
    if ops[k].shared && ops[k].kind in Scan(front).firsts { RedirectedChains(front, ops[k], Scan(front)); }
  }

  ghost predicate NoneGone(vs: seq<Value>, gone: set<nat>) {
    forall v :: v in vs ==> !DefinedBy(v, gone)
  }

  lemma NeverGone(f: Func, vs: seq<Value>)
    requires Scanned(f.body, Scan(f.body))
    requires forall u :: u in vs ==> u in ArgValues(f.args) + Defs(f.body)
    ensures NoneGone(RenamedAll(vs, Scan(f.body).sub), Scan(f.body).gone)
  {
    var s := Scan(f.body);
    forall v' | v' in RenamedAll(vs, s.sub) ensures !DefinedBy(v', s.gone) {
      var k :| 0 <= k < |vs| && RenamedAll(vs, s.sub)[k] == v';
      assert vs[k] in vs;
      if vs[k] in s.sub {
        TargetDefined(f.body, s, vs[k]);
      } else if vs[k] in Defs(f.body) {
        UnreplacedIsKept(f.body, s, vs[k]);
      }
    }
  }

  lemma UnreplacedIsKept(ops: seq<Op>, s: Seen, v: Value)
    requires Earlier(ops, s.sub, s.gone) && v in Defs(ops) && v !in s.sub
    ensures !DefinedBy(v, s.gone)
  {
    var op := DefiningOp(ops, v);
    var i :| 0 <= i < |ops| && ops[i] == op;
    assert Redirects(ops, s.sub, s.gone, i, v);
  }

  lemma OperandsNeverGone(f: Func, op: Op)
    requires WellFormed(f) && Scanned(f.body, Scan(f.body)) && op in RenamedOps(f.body, Scan(f.body).sub)
    ensures NoneGone(op.operands, Scan(f.body).gone)
  {
    var k :| 0 <= k < |f.body| && RenamedOps(f.body, Scan(f.body).sub)[k] == op;
    OperandsInScope(f, f.body[k]);
    NeverGone(f, f.body[k].operands);
  }

  /** Once redirected, no duplicate has a use left. */
  lemma DuplicateUnused(f: Func, g: Func, id: nat)
    requires WellFormed(f) && AllLegal(f.body) && id in Scan(f.body).gone
    requires g.outs == RenamedAll(f.outs, Scan(f.body).sub)
    requires forall op :: op in g.body ==> op in RenamedOps(f.body, Scan(f.body).sub)
    ensures Unused(g, id)
  {
    ScanScans(f.body);
    NeverGone(f, f.outs);
    forall op | op in g.body ensures forall v :: v in op.operands ==> !DefinedBy(v, {id}) {
      OperandsNeverGone(f, op);
    }
  }

  method DeduplicateSharedOps(f: Func) returns (r: Func)
    requires WellFormed(f) && AllLegal(f.body)
    ensures r == Deduplicated(f)
  {
    var sharedOps: map<Kind, Op> := map[];
    var opsToErase: seq<nat> := [];
    r := f;
    ghost var sub: map<Value, Value> := map[];
    RedirectedNone(f);
    for k := 0 to |f.body|
      invariant Scan(f.body[..k]) == Seen(sharedOps, sub, ToSet(opsToErase))
      invariant r == Redirected(f, sub)
    {
      var op := f.body[k];
      ScanStep(f.body, k);
      if op.shared {
        if op.kind !in sharedOps {
          sharedOps := sharedOps[op.kind := op];
        } else {
          var toFirst := ToFirst(op, sharedOps[op.kind].id);
          RedirectedTwice(f, sub, toFirst);
          r := Redirected(r, toFirst);
          sub := sub + toFirst;
          assert ToSet(opsToErase + [op.id]) == ToSet(opsToErase) + {op.id};
          opsToErase := opsToErase + [op.id];
        }
      }
    }
    assert f.body[..|f.body|] == f.body;
    r := EraseAll(f, r, opsToErase);
  }

  lemma EraseStep(ops: seq<Op>, ids: seq<nat>, k: nat)
    requires k < |ids|
    ensures Without(Without(ops, ToSet(ids[..k])), {ids[k]}) == Without(ops, ToSet(ids[..k + 1]))
  {
    WithoutTwice(ops, ToSet(ids[..k]), {ids[k]});
    assert ToSet(ids[..k + 1]) == ToSet(ids[..k]) + {ids[k]};
  }

  method EraseAll(f: Func, redirected: Func, opsToErase: seq<nat>) returns (r: Func)
    requires WellFormed(f) && AllLegal(f.body) && redirected == Redirected(f, Scan(f.body).sub)
    requires Scan(f.body).gone == ToSet(opsToErase)
    ensures r == Deduplicated(f)
  {
    r := redirected;
    WithoutNone(r.body);
    assert ToSet(opsToErase[..0]) == {};
    for k := 0 to |opsToErase|
      invariant r == redirected.(body := Without(redirected.body, ToSet(opsToErase[..k])))
    {
      DuplicateUnused(f, r, opsToErase[k]);
      EraseStep(redirected.body, opsToErase, k);
      r := Erased(r, opsToErase[k]);
    }
    assert opsToErase[..|opsToErase|] == opsToErase;
  }
}
