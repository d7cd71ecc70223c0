/** What becomes of the ops of a function, told by the fields of its ops and by which of them are
    left: neither candidates nor the forest are mentioned. */
module ConstEvalOutcome {
  import opened Ir
  import opened Rewrite
  import opened ConstEvalSubgraphs
  import opened ConstEvalAnalysis
  import opened ConstEvalEligibility
  import opened ConstEvalAnalyzer

  // ----- Fields only -----

  /** Some op of the function writes a result of `op` in place. */
  ghost predicate WrittenSomewhere(f: Func, op: Op) {
    exists user, j :: user in f.body && j in user.writes && j < |user.operands| && IsResultOf(user.operands[j], op)
  }

  predicate IsResultOf(v: Value, op: Op) {
    v.Res? && v.op == op.id && v.index < op.numResults
  }

  ghost predicate MustStay(f: Func, op: Op) {
    op.nonCacheable || op.shared || WrittenSomewhere(f, op)
  }

  ghost predicate Gone(g: Func, op: Op) {
    forall e :: e in g.body ==> e.id != op.id
  }

  /** A const parameter, or a result of an op that is shared or gone. */
  ghost predicate FromConst(f: Func, g: Func, v: Value) {
    if v.Arg? then v.id in f.constParams
    else exists e :: e in f.body && IsResultOf(v, e) && (e.shared || Gone(g, e))
  }

  /** The op has results, nothing holds it back, and it is a call or uses constants only. */
  ghost predicate FreeToGo(f: Func, g: Func, op: Op) {
    && op.numResults > 0 && !MustStay(f, op)
    && (op.kind.LoadCached? || forall v :: v in op.operands ==> FromConst(f, g, v))
  }

  /** Ops that must stay are left. */
  ghost predicate KeepsItsOwn(f: Func, g: Func) {
    forall op :: op in f.body && MustStay(f, op) ==> !Gone(g, op)
  }

  /** Exactly the ops free to go are gone. */
  ghost predicate TakesTheRest(f: Func, g: Func) {
    forall op :: op in f.body ==> (Gone(g, op) <==> FreeToGo(f, g, op))
  }

  // ----- From what the analysis finds -----

  /** Of the ops a function had, exactly those to be hoisted are gone. */
  ghost predicate Cleaned(f: Func, g: Func) {
    forall op :: op in f.body ==> (op.id in Ids(g.body) <==> !ToHoist(f, op))
  }

  lemma GoneMeansHoisted(f: Func, g: Func, op: Op)
    requires Cleaned(f, g) && op in f.body
    ensures Gone(g, op) <==> ToHoist(f, op)
  {
  }

  lemma WrittenMeansWritten(f: Func, op: Op)
    ensures WrittenInPlace(f, op) <==> WrittenSomewhere(f, op)
  {
    if WrittenInPlace(f, op) {
      var i, user :| 0 <= i < op.numResults && user in f.body && WritesTo(user, Res(op.id, i));
      var j :| 0 <= j < |user.operands| && j in user.writes && user.operands[j] == Res(op.id, i);
      assert IsResultOf(user.operands[j], op);
    }
    if WrittenSomewhere(f, op) {
      var user, j :| user in f.body && j in user.writes && j < |user.operands| && IsResultOf(user.operands[j], op);
      assert WritesTo(user, Res(op.id, user.operands[j].index));
    }
  }

  lemma StayMeansIneligible(f: Func, op: Op)
    ensures MustStay(f, op) <==> !Eligible(f, op)
  {
    WrittenMeansWritten(f, op);
  }

  lemma OthersAreKept(f: Func, g: Func)
    requires Cleaned(f, g)
    ensures KeepsItsOwn(f, g)
  {
    forall op | op in f.body && MustStay(f, op) ensures !Gone(g, op) {
      StayMeansIneligible(f, op);
      GoneMeansHoisted(f, g, op);
    }
  }

  lemma SharedMeansShared(f: Func, e: Op, v: Value)
    requires WellFormed(f) && e in f.body && v in Results(e)
    ensures SharedValue(f, v) <==> e.shared
  {
    if !e.shared { NotShared(f.body, e); }
  }

  lemma FoundMeansGone(f: Func, g: Func, e: Op, v: Value)
    requires WellFormed(f) && Cleaned(f, g) && e in f.body && v in Results(e)
    ensures v in Found(f, |f.body|) <==> Gone(g, e)
  {
    FoundIsFixpoint(f);
    var j :| 0 <= j < |f.body| && f.body[j] == e;
    ExplainedOnce(f, Found(f, |f.body|), j, v);
    GoneMeansHoisted(f, g, e);
  }

  /** Const operands are those the analysis takes for const. */
  lemma ConstMeansConst(f: Func, g: Func, op: Op, v: Value)
    requires WellFormed(f) && Cleaned(f, g) && op in f.body && v in op.operands
    ensures OperandConstEval(f, Found(f, |f.body|), v) <==> FromConst(f, g, v)
  {
    if v.Res? {
      OperandsInScope(f, op);
      var e := DefiningOp(f.body, v);
      SharedMeansShared(f, e, v);
      FoundMeansGone(f, g, e, v);
      forall o | o in f.body && IsResultOf(v, o) ensures o == e { SameId(f.body, o, e); }
      assert IsResultOf(v, e);
    }
  }

  /** Unless the analysis fails, exactly the ops free to go are gone. */
  lemma RestIsTaken(f: Func, g: Func)
    requires WellFormed(f) && Cleaned(f, g) && !Failed(f, |f.body|)
    ensures TakesTheRest(f, g)
  {
    FailsExactlyWhen(f);
    forall op | op in f.body ensures Gone(g, op) <==> FreeToGo(f, g, op) {
      GoneMeansHoisted(f, g, op);
      StayMeansIneligible(f, op);
      forall v | v in op.operands ensures OperandConstEval(f, Found(f, |f.body|), v) <==> FromConst(f, g, v) {
        ConstMeansConst(f, g, op, v);
      }
    }
  }
}
