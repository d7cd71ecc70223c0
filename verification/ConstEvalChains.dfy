/** Which ops share a subgraph: those that a chain of uses among the joined ops connects. */
module ConstEvalChains {
  import opened Ir
  import opened Rewrite
  import opened ConstEvalSubgraphs
  import opened ConstEvalAnalysis
  import opened ConstEvalEligibility
  import opened ConstEvalLinks
  import opened ConstEvalAnalyzer
  import opened ConstEvalCount
  import opened ConstEvalOutcome

  ghost predicate JoinedOp(f: Func, op: Op) {
    op in f.body && Joins(f, Found(f, |f.body|), op)
  }

  /** `a` has a result of `b` for an operand, and `b` is not shared. */
  ghost predicate UsesOf(a: Op, b: Op) {
    !b.shared && exists v :: v in a.operands && IsResultOf(v, b)
  }

  ghost predicate Near(a: Op, b: Op) {
    a == b || UsesOf(a, b) || UsesOf(b, a)
  }

  /** Joined ops, each the same as the next or connected to it by a use. */
  ghost predicate UseChain(f: Func, path: seq<Op>) {
    && path != [] && (forall i :: 0 <= i < |path| ==> JoinedOp(f, path[i]))
    && (forall i :: 0 <= i < |path| - 1 ==> Near(path[i], path[i + 1]))
  }

  ghost predicate Connects(f: Func, path: seq<Op>, a: Op, b: Op) {
    UseChain(f, path) && path[0] == a && path[|path| - 1] == b
  }

  ghost predicate Connected(f: Func, a: Op, b: Op) {
    exists path :: Connects(f, path, a, b)
  }

  lemma ConnectedSelf(f: Func, a: Op)
    requires JoinedOp(f, a)
    ensures Connected(f, a, a)
  {
    assert Connects(f, [a], a, a);
  }

  lemma ConnectedOn(f: Func, a: Op, b: Op, c: Op)
    requires Connected(f, a, b) && JoinedOp(f, c) && Near(b, c)
    ensures Connected(f, a, c)
  {
    var path :| Connects(f, path, a, b);
    var longer := path + [c];
    forall i | 0 <= i < |longer| - 1 ensures Near(longer[i], longer[i + 1]) {
      if i < |path| - 1 { assert Near(path[i], path[i + 1]); }
    }
    assert Connects(f, longer, a, c);
  }

  // ----- The groups of the joined ops -----

  lemma GroupOfJoined(f: Func, op: Op)
    requires WellFormed(f) && JoinedOp(f, op)
    ensures GraphsToJoin(f, op) in Groups(f, |f.body|)
  {
    var j :| 0 <= j < |f.body| && f.body[j] == op;
    VerdictStands(f, j);
    GroupIn(f, |f.body|, j);
  }

  lemma GroupComesFrom(f: Func, g: set<Value>) returns (op: Op)
    requires WellFormed(f) && g in Groups(f, |f.body|)
    ensures JoinedOp(f, op) && g == GraphsToJoin(f, op)
  {
    var j := GroupOf(f, |f.body|, g);
    VerdictStands(f, j);
    op := f.body[j];
  }

  /** Different ops near each other have a value in common. */
  lemma SharedByNear(f: Func, a: Op, b: Op) returns (v: Value)
    requires WellFormed(f) && a in f.body && b in f.body && Near(a, b) && a != b
    ensures v in GraphsToJoin(f, a) && v in GraphsToJoin(f, b)
  {
    if UsesOf(a, b) {
      v :| v in a.operands && IsResultOf(v, b);
      NotShared(f.body, b);
    } else {
      v :| v in b.operands && IsResultOf(v, a);
      NotShared(f.body, a);
    }
  }

  lemma SameGroupLinked(f: Func, op: Op, u: Value, v: Value)
    requires WellFormed(f) && JoinedOp(f, op) && u in GraphsToJoin(f, op) && v in GraphsToJoin(f, op)
    ensures Linked(Groups(f, |f.body|), u, v)
  {
    GroupOfJoined(f, op);
    LinkedStep(Groups(f, |f.body|), u, v);
  }

  /** A chain of uses links whatever its two ends join. */
  lemma {:induction false} ChainLinks(f: Func, path: seq<Op>, u: Value, v: Value)
    requires WellFormed(f) && UseChain(f, path)
    requires u in GraphsToJoin(f, path[0]) && v in GraphsToJoin(f, path[|path| - 1])
    ensures Linked(Groups(f, |f.body|), u, v)
    decreases |path|
  {
    if |path| == 1 {
      SameGroupLinked(f, path[0], u, v);
    } else {
      var n := |path| - 1;
      var front := path[..n];
      assert front[|front| - 1] == path[n - 1] && Near(path[n - 1], path[n - 1 + 1]);
      if path[n - 1] == path[n] {
        ChainLinks(f, front, u, v);
      } else {
        var w := SharedByNear(f, path[n - 1], path[n]);
        ChainLinks(f, front, u, w);
        SameGroupLinked(f, path[n], w, v);
        LinkedTwice(Groups(f, |f.body|), u, w, v);
      }
    }
  }

  // ----- And back -----

  /** The op defining a value that some op joins is joined itself, and near that op. */
  lemma DefinerNear(f: Func, op: Op, v: Value) returns (e: Op)
    requires WellFormed(f) && CallsTakeArgs(f.body) && JoinedOp(f, op) && v in GraphsToJoin(f, op)
    ensures JoinedOp(f, e) && v in Results(e) && Near(op, e)
  {
    if v in Results(op) {
      e := op;
    } else {
      OperandsInScope(f, op);
      e := DefiningOp(f.body, v);
      JoinedOperand(f, op, v);
      FoundIsFixpoint(f);
      var j :| 0 <= j < |f.body| && f.body[j] == e;
      ExplainedOnce(f, Found(f, |f.body|), j, v);
      assert IsResultOf(v, e);
    }
  }

  lemma JoinedOperand(f: Func, op: Op, v: Value)
    requires WellFormed(f) && CallsTakeArgs(f.body) && JoinedOp(f, op)
    requires v in op.operands && v.Res? && !SharedValue(f, v)
    ensures v in Found(f, |f.body|)
  {
    assert OperandConstEval(f, Found(f, |f.body|), v);
  }

  lemma SameDefiner(f: Func, a: Op, b: Op, v: Value)
    requires WellFormed(f) && a in f.body && b in f.body && v in Results(a) && v in Results(b)
    ensures a == b
  {
    SameId(f.body, a, b);
  }

  /** Values that one group puts together are defined by connected ops. */
  lemma TogetherConnected(f: Func, a: Op, b: Op, c: Op, u: Value, v: Value)
    requires WellFormed(f) && CallsTakeArgs(f.body) && Connected(f, a, b) && JoinedOp(f, b) && JoinedOp(f, c)
    requires u in Results(b) && v in Results(c) && Together(Groups(f, |f.body|), u, v)
    ensures Connected(f, a, c)
  {
    var g :| g in Groups(f, |f.body|) && u in g && v in g;
    var op := GroupComesFrom(f, g);
    var d := DefinerNear(f, op, u);
    var e := DefinerNear(f, op, v);
    SameDefiner(f, b, d, u);
    SameDefiner(f, c, e, v);
    ConnectedOn(f, a, b, op);
    ConnectedOn(f, a, op, c);
  }

  lemma {:induction false} LinksConnect(f: Func, path: seq<Value>, a: Op, b: Op)
    requires WellFormed(f) && CallsTakeArgs(f.body) && JoinedOp(f, a) && JoinedOp(f, b)
    requires Chain(Groups(f, |f.body|), path) && path[0] in Results(a) && path[|path| - 1] in Results(b)
    ensures Connected(f, a, b)
    decreases |path|
  {
    if |path| == 1 {
      SameDefiner(f, a, b, path[0]);
      ConnectedSelf(f, a);
    } else {
      var n := |path| - 1;
      assert Together(Groups(f, |f.body|), path[n - 1], path[n - 1 + 1]);
      var e := ChainDefiner(f, path[n - 1], path[n]);
      LinksConnect(f, path[..n], a, e);
      TogetherConnected(f, a, e, b, path[n - 1], path[n]);
    }
  }

  lemma ChainDefiner(f: Func, u: Value, v: Value) returns (e: Op)
    requires WellFormed(f) && CallsTakeArgs(f.body) && Together(Groups(f, |f.body|), u, v)
    ensures JoinedOp(f, e) && u in Results(e)
  {
    var g :| g in Groups(f, |f.body|) && u in g && v in g;
    var op := GroupComesFrom(f, g);
    e := DefinerNear(f, op, u);
  }

  /** Two ops to be hoisted belong to one subgraph exactly when a chain of uses connects them. */
  lemma SameClassExactlyWhen(f: Func, a: Op, b: Op)
    requires WellFormed(f) && CallsTakeArgs(f.body) && a in f.body && b in f.body && ToHoist(f, a) && ToHoist(f, b)
    ensures SameClass(f, a, b) <==> Connected(f, a, b)
  {
    var u, v := Res(a.id, 0), Res(b.id, 0);
    if Connected(f, a, b) {
      var path :| Connects(f, path, a, b);
      ChainLinks(f, path, u, v);
    }
    if SameClass(f, a, b) {
      var path :| Joined(Groups(f, |f.body|), path, u, v);
      LinksConnect(f, path, a, b);
    }
  }

  /** On the subgraphs listed: two ops are in the same one exactly when a chain of uses connects
      them. */
  lemma SameSubgraphExactlyWhen(f: Func, root: map<Value, Value>, roots: seq<Value>, subgraphs: seq<Subgraph>,
                                a: Op, b: Op)
    requires WellFormed(f) && CallsTakeArgs(f.body) && Analyzed(f, |f.body|, root)
    requires Listed(f, root, roots, subgraphs) && a in f.body && b in f.body && ToHoist(f, a) && ToHoist(f, b)
    ensures (exists sg :: sg in subgraphs && a in Members(sg) && b in Members(sg)) <==> Connected(f, a, b)
  {
    SameClassExactlyWhen(f, a, b);
    ListedHold(f, root, roots, subgraphs, a);
    var sg :| sg in subgraphs && a in Members(sg);
    var i :| 0 <= i < |subgraphs| && subgraphs[i] == sg;
    ClassIsRoot(f, root, b, a, roots[i]);
    ClassIsRoot(f, root, a, a, roots[i]);
    BackAndForth(f, a, b);
    if o :| o in subgraphs && a in Members(o) && b in Members(o) {
      var k :| 0 <= k < |subgraphs| && subgraphs[k] == o;
      ClassIsRoot(f, root, b, a, roots[k]);
    }
  }

  lemma BackAndForth(f: Func, a: Op, b: Op)
    ensures SameClass(f, a, b) <==> SameClass(f, b, a)
  {
    if SameClass(f, a, b) { LinkedBack(Groups(f, |f.body|), Res(a.id, 0), Res(b.id, 0)); }
    if SameClass(f, b, a) { LinkedBack(Groups(f, |f.body|), Res(b.id, 0), Res(a.id, 0)); }
  }
}
