/** Which values are const-eval, and which of them belong together (ConstEvalAnalyze). */
module ConstEvalAnalysis {
  import opened Ir
  import opened Rewrite
  import opened ConstEvalSubgraphs
  import opened DisjointSets

  // ----- Candidates -----

  predicate WritesTo(user: Op, v: Value) {
    exists j :: 0 <= j < |user.operands| && j in user.writes && user.operands[j] == v
  }

  predicate WrittenInPlace(f: Func, op: Op) {
    exists i, user :: 0 <= i < op.numResults && user in f.body && WritesTo(user, Res(op.id, i))
  }

  predicate SharedValue(f: Func, v: Value) {
    DefinedBy(v, SharedIds(f.body))
  }

  /** An operand known to be const-eval, given the values found so far. */
  predicate OperandConstEval(f: Func, found: set<Value>, v: Value) {
    if v.Arg? then v.id in f.constParams else SharedValue(f, v) || v in found
  }

  predicate Eligible(f: Func, op: Op) {
    !op.shared && !op.nonCacheable && !WrittenInPlace(f, op)
  }

  predicate AnyResultInL1(op: Op) {
    exists i :: 0 <= i < op.numResults && i in op.resident
  }

  /** Results in L1 need the tag. */
  predicate L1Untagged(op: Op) {
    AnyResultInL1(op) && !op.tagged
  }

  predicate Candidate(f: Func, found: set<Value>, op: Op) {
    Eligible(f, op) && (op.kind.LoadCached? || forall v :: v in op.operands ==> OperandConstEval(f, found, v))
  }

  /** The op's results enter the forest. */
  predicate Joins(f: Func, found: set<Value>, op: Op) {
    Candidate(f, found, op) && !L1Untagged(op)
  }

  /** The values found by one forward pass over the first k ops. */
  function Found(f: Func, k: nat): set<Value>
    requires k <= |f.body|
  {
    if k == 0 then {}
    else
      var before := Found(f, k - 1);
      before + if Joins(f, before, f.body[k - 1]) then Results(f.body[k - 1]) else {}
  }

  predicate FailsAt(f: Func, k: nat)
    requires k < |f.body|
  {
    Candidate(f, Found(f, k), f.body[k]) && L1Untagged(f.body[k])
  }

  // ----- One pass reaches the fixpoint -----

  lemma {:induction false} FoundDefined(f: Func, k: nat)
    requires k <= |f.body|
    ensures Found(f, k) <= Defs(f.body[..k])
  {
    if k > 0 {
      FoundDefined(f, k - 1);
      assert f.body[..k][..k - 1] == f.body[..k - 1];
    }
  }

  lemma {:induction false} FoundGrows(f: Func, j: nat, k: nat)
    requires j <= k <= |f.body|
    ensures Found(f, j) <= Found(f, k)
  {
    if j < k { FoundGrows(f, j, k - 1); }
  }

  lemma PrefixUnique(ops: seq<Op>, k: nat)
    requires UniqueIds(ops) && k < |ops|
    ensures Results(ops[k]) !! Defs(ops[..k])
  {
    var next := ops[..k + 1];
    assert next[..k] == ops[..k];
    LastIsNew(next);
  }

  /** Values defined among the first j ops are settled once those ops are processed. */
  lemma {:induction false} FoundSettled(f: Func, j: nat, k: nat, v: Value)
    requires UniqueIds(f.body) && j <= k <= |f.body| && v in Defs(f.body[..j])
    ensures v in Found(f, k) <==> v in Found(f, j)
  {
    if j < k {
      FoundSettled(f, j, k - 1, v);
      PrefixUnique(f.body, k - 1);
      assert f.body[..k - 1][..j] == f.body[..j];
      DefsMonotone(f.body[..k - 1], j);
    }
  }

  /** Looking at all the values found, rather than those found so far, changes no verdict. */
  lemma VerdictStands(f: Func, j: nat)
    requires WellFormed(f) && j < |f.body|
    ensures Candidate(f, Found(f, |f.body|), f.body[j]) <==> Candidate(f, Found(f, j), f.body[j])
  {
    assert InScope(ArgValues(f.args), f.body, j);
    forall v | v in f.body[j].operands
      ensures OperandConstEval(f, Found(f, |f.body|), v) <==> OperandConstEval(f, Found(f, j), v)
    {
      if v.Res? { FoundSettled(f, j, |f.body|, v); }
    }
  }

  ghost predicate Explained(f: Func, found: set<Value>, v: Value) {
    exists j :: 0 <= j < |f.body| && v in Results(f.body[j]) && Joins(f, found, f.body[j])
  }

  /** The values found are exactly those of the ops that are candidates given them. */
  ghost predicate Fixpoint(f: Func, found: set<Value>) {
    forall v :: v in found <==> Explained(f, found, v)
  }

  lemma {:induction false} FoundBy(f: Func, k: nat, v: Value) returns (j: nat)
    requires k <= |f.body| && v in Found(f, k)
    ensures j < k && v in Results(f.body[j]) && Joins(f, Found(f, j), f.body[j])
  {
    if v in Found(f, k - 1) { j := FoundBy(f, k - 1, v); } else { j := k - 1; }
  }

  lemma FoundIsFixpoint(f: Func)
    requires WellFormed(f)
    ensures Fixpoint(f, Found(f, |f.body|))
  {
    var all := Found(f, |f.body|);
    forall v ensures v in all <==> Explained(f, all, v) {
      if v in all {
        var j := FoundBy(f, |f.body|, v);
        VerdictStands(f, j);
      }
      if Explained(f, all, v) {
        var j :| 0 <= j < |f.body| && v in Results(f.body[j]) && Joins(f, all, f.body[j]);
        VerdictStands(f, j);
        FoundGrows(f, j + 1, |f.body|);
      }
    }
  }

  /** There is only one fixpoint. */
  lemma FixpointUnique(f: Func, found: set<Value>)
    requires WellFormed(f) && Fixpoint(f, found)
    ensures found == Found(f, |f.body|)
  {
    FixpointSettled(f, found, |f.body|);
    assert f.body[..|f.body|] == f.body;
    forall v | v in found ensures v in Found(f, |f.body|) {
      assert Explained(f, found, v);
      var j :| 0 <= j < |f.body| && v in Results(f.body[j]) && Joins(f, found, f.body[j]);
      DefsOf(f.body, f.body[j]);
    }
    FoundDefined(f, |f.body|);
  }

  lemma {:induction false} FixpointSettled(f: Func, found: set<Value>, k: nat)
    requires WellFormed(f) && Fixpoint(f, found) && k <= |f.body|
    ensures forall v :: v in Defs(f.body[..k]) ==> (v in found <==> v in Found(f, k))
  {
    if k > 0 {
      FixpointSettled(f, found, k - 1);
      assert f.body[..k][..k - 1] == f.body[..k - 1];
      SameVerdict(f, found, k - 1);
      PrefixUnique(f.body, k - 1);
      FoundDefined(f, k - 1);
      forall v | v in Results(f.body[k - 1]) ensures v in found <==> Joins(f, found, f.body[k - 1]) {
        ExplainedOnce(f, found, k - 1, v);
      }
    }
  }

  lemma SameVerdict(f: Func, found: set<Value>, j: nat)
    requires WellFormed(f) && j < |f.body| && forall v :: v in Defs(f.body[..j]) ==> (v in found <==> v in Found(f, j))
    ensures Joins(f, found, f.body[j]) <==> Joins(f, Found(f, j), f.body[j])
  {
    assert InScope(ArgValues(f.args), f.body, j);
    forall v | v in f.body[j].operands
      ensures OperandConstEval(f, found, v) <==> OperandConstEval(f, Found(f, j), v)
    { }
  }

  lemma ExplainedOnce(f: Func, found: set<Value>, j: nat, v: Value)
    requires UniqueIds(f.body) && j < |f.body| && v in Results(f.body[j])
    ensures Explained(f, found, v) <==> Joins(f, found, f.body[j])
  {
    forall i | 0 <= i < |f.body| && v in Results(f.body[i]) ensures i == j { }
  }

  /** The pass fails exactly when some candidate, judged against the fixpoint, is untagged in L1. */
  lemma FailsExactlyWhen(f: Func)
    requires WellFormed(f)
    ensures (exists k :: 0 <= k < |f.body| && FailsAt(f, k)) <==>
        (exists op :: op in f.body && Candidate(f, Found(f, |f.body|), op) && L1Untagged(op))
  {
    if k :| 0 <= k < |f.body| && FailsAt(f, k) {
      VerdictStands(f, k);
      assert f.body[k] in f.body;
    }
    if op :| op in f.body && Candidate(f, Found(f, |f.body|), op) && L1Untagged(op) {
      var k :| 0 <= k < |f.body| && f.body[k] == op;
      VerdictStands(f, k);
      assert FailsAt(f, k);
    }
  }
}
