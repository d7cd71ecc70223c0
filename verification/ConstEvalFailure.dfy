/** When the analysis fails, told by the fields of the ops: neither candidates nor the values found
    are mentioned. */
module ConstEvalFailure {
  import opened Ir
  import opened Rewrite
  import opened ConstEvalSubgraphs
  import opened ConstEvalAnalysis
  import opened ConstEvalAnalyzer
  import opened ConstEvalOutcome

  // ----- Fields only -----

  /** A const parameter, or a result of an op that is shared or among `ids`. */
  ghost predicate ConstGiven(f: Func, ids: set<nat>, v: Value) {
    if v.Arg? then v.id in f.constParams
    else exists e :: e in f.body && IsResultOf(v, e) && (e.shared || e.id in ids)
  }

  ghost predicate Movable(f: Func, ids: set<nat>, op: Op) {
    !MustStay(f, op) && (op.kind.LoadCached? || forall v :: v in op.operands ==> ConstGiven(f, ids, v))
  }

  /** `ids` are those of exactly the ops that are calls or use constants only, L1 or not. */
  ghost predicate MovableSet(f: Func, ids: set<nat>) {
    forall op :: op in f.body ==> (op.id in ids <==> Movable(f, ids, op))
  }

  ghost predicate UntaggedInL1(op: Op) {
    !op.tagged && exists i :: i in op.resident && i < op.numResults
  }

  ghost predicate HasUntaggedInL1(f: Func, ids: set<nat>) {
    exists op :: op in f.body && op.id in ids && UntaggedInL1(op)
  }

  // ----- There is such a set -----

  ghost function MovableIds(f: Func, k: nat): set<nat>
    requires k <= |f.body|
  {
    if k == 0 then {}
    else
      var before := MovableIds(f, k - 1);
      before + if Movable(f, before, f.body[k - 1]) then {f.body[k - 1].id} else {}
  }

  lemma {:induction false} IdsSettled(f: Func, j: nat, k: nat)
    requires UniqueIds(f.body) && j < |f.body| && k <= |f.body|
    ensures f.body[j].id in MovableIds(f, k) <==> j < k && Movable(f, MovableIds(f, j), f.body[j])
  {
    if k > 0 { IdsSettled(f, j, k - 1); }
  }

  /** The op defining an operand stands earlier. */
  lemma DefinedEarlier(f: Func, k: nat, v: Value) returns (j: nat)
    requires WellFormed(f) && k < |f.body| && v in f.body[k].operands && v.Res?
    ensures j < k && IsResultOf(v, f.body[j])
    ensures forall e :: e in f.body && IsResultOf(v, e) ==> e == f.body[j]
  {
    assert InScope(ArgValues(f.args), f.body, k);
    var d := DefiningOp(f.body[..k], v);
    j :| 0 <= j < k && f.body[j] == d;
    forall e | e in f.body && IsResultOf(v, e) ensures e == f.body[j] { SameId(f.body, e, f.body[j]); }
  }

  lemma EarlierIsGiven(f: Func, ids: set<nat>, k: nat, v: Value, j: nat)
    requires j < |f.body| && IsResultOf(v, f.body[j])
    requires forall e :: e in f.body && IsResultOf(v, e) ==> e == f.body[j]
    ensures ConstGiven(f, ids, v) <==> f.body[j].shared || f.body[j].id in ids
  {
    assert f.body[j] in f.body;
  }

  lemma MovableSetExists(f: Func)
    requires WellFormed(f)
    ensures MovableSet(f, MovableIds(f, |f.body|))
  {
    var ids := MovableIds(f, |f.body|);
    forall op | op in f.body ensures op.id in ids <==> Movable(f, ids, op) {
      var k :| 0 <= k < |f.body| && f.body[k] == op;
      IdsSettled(f, k, |f.body|);
      forall v | v in op.operands ensures ConstGiven(f, ids, v) <==> ConstGiven(f, MovableIds(f, k), v) {
        GivenStands(f, k, v);
      }
    }
  }

  lemma GivenStands(f: Func, k: nat, v: Value)
    requires WellFormed(f) && k < |f.body| && v in f.body[k].operands
    ensures ConstGiven(f, MovableIds(f, |f.body|), v) <==> ConstGiven(f, MovableIds(f, k), v)
  {
    if v.Res? {
      var j := DefinedEarlier(f, k, v);
      IdsSettled(f, j, |f.body|);
      IdsSettled(f, j, k);
      EarlierIsGiven(f, MovableIds(f, |f.body|), k, v, j);
      EarlierIsGiven(f, MovableIds(f, k), k, v, j);
    }
  }

  // ----- The analysis fails exactly if the set has an untagged op in L1 -----

  /** Up to its first failure the analysis finds the results of these ops. */
  ghost predicate FoundAre(f: Func, ids: set<nat>, k: nat)
    requires k <= |f.body|
  {
    forall j :: 0 <= j < k ==> (f.body[j].id in ids <==> Joins(f, Found(f, j), f.body[j]))
  }

  lemma FoundEarlier(f: Func, j: nat, k: nat, v: Value)
    requires UniqueIds(f.body) && j < k <= |f.body| && v in Results(f.body[j])
    ensures v in Found(f, k) <==> Joins(f, Found(f, j), f.body[j])
  {
    assert f.body[..j + 1][..j] == f.body[..j];
    FoundSettled(f, j + 1, k, v);
    PrefixUnique(f.body, j);
    FoundDefined(f, j);
  }

  lemma OperandSame(f: Func, ids: set<nat>, k: nat, v: Value)
    requires WellFormed(f) && k < |f.body| && FoundAre(f, ids, k) && v in f.body[k].operands
    ensures OperandConstEval(f, Found(f, k), v) <==> ConstGiven(f, ids, v)
  {
    if v.Res? {
      var j := DefinedEarlier(f, k, v);
      FoundEarlier(f, j, k, v);
      SharedMeansShared(f, f.body[j], v);
      EarlierIsGiven(f, ids, k, v, j);
    }
  }

  lemma CandidateSame(f: Func, ids: set<nat>, k: nat)
    requires WellFormed(f) && k < |f.body| && FoundAre(f, ids, k)
    ensures Candidate(f, Found(f, k), f.body[k]) <==> Movable(f, ids, f.body[k])
  {
    StayMeansIneligible(f, f.body[k]);
    forall v | v in f.body[k].operands
      ensures OperandConstEval(f, Found(f, k), v) <==> ConstGiven(f, ids, v)
    {
      OperandSame(f, ids, k, v);
    }
  }

  lemma FoundNext(f: Func, ids: set<nat>, k: nat)
    requires WellFormed(f) && MovableSet(f, ids) && k < |f.body| && FoundAre(f, ids, k) && !FailsAt(f, k)
    ensures FoundAre(f, ids, k + 1)
  {
    var op := f.body[k];
    CandidateSame(f, ids, k);
    assert op in f.body;
    assert op.id in ids <==> Joins(f, Found(f, k), op);
  }

  lemma {:induction false} FoundUpTo(f: Func, ids: set<nat>, k: nat)
    requires WellFormed(f) && MovableSet(f, ids) && k <= |f.body| && !Failed(f, k)
    ensures FoundAre(f, ids, k)
  {
    if k > 0 {
      FailedStep(f, k - 1);
      FoundUpTo(f, ids, k - 1);
      FoundNext(f, ids, k - 1);
    }
  }

  lemma {:induction false} FirstFailure(f: Func, k: nat) returns (j: nat)
    requires k <= |f.body| && Failed(f, k)
    ensures j < k && !Failed(f, j) && FailsAt(f, j)
  {
    FailedStep(f, k - 1);
    if Failed(f, k - 1) { j := FirstFailure(f, k - 1); } else { j := k - 1; }
  }

  /** The pass gives up on a function exactly if some op that could be moved has an untagged result
      in L1. */
  lemma FailsByFields(f: Func, ids: set<nat>)
    requires WellFormed(f) && MovableSet(f, ids)
    ensures Failed(f, |f.body|) <==> HasUntaggedInL1(f, ids)
  {
    if Failed(f, |f.body|) {
      var k := FirstFailure(f, |f.body|);
      FoundUpTo(f, ids, k);
      CandidateSame(f, ids, k);
      assert f.body[k] in f.body && UntaggedInL1(f.body[k]);
    } else {
      FoundUpTo(f, ids, |f.body|);
      forall op | op in f.body && op.id in ids ensures !UntaggedInL1(op) {
        var k :| 0 <= k < |f.body| && f.body[k] == op;
        assert Joins(f, Found(f, k), op);
      }
    }
  }
}
