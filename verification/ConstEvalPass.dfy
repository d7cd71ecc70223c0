/** The pass over a module (ConstEvalHoistTransform): analyse each function, hoist its
    subgraphs one after the other. */
module ConstEvalPass {
  import opened Common
  import opened Ir
  import opened Rewrite
  import opened ConstEvalSubgraphs
  import opened ConstEvalGrow
  import opened ConstEvalReplace
  import opened ConstEvalModule
  import opened ConstEvalBuild
  import opened ConstEvalHoist
  import opened ConstEvalResidency
  import opened ConstEvalAnalyzer
  import opened ConstEvalCount
  import opened ConstEvalLeaving
  import opened ConstEvalOrigin
  import opened ConstEvalOutcome
  import opened ConstEvalFailure
  import opened ConstEvalRerun
  import Names = ConstEvalNames

  // ----- Names -----

  /** The first `count` new names of a function are not taken. */
  ghost predicate NamesFree(p: Program, maxima: map<string, nat>, name: string, from: nat, count: nat) {
    forall k :: from <= k < count ==> Names.NewName(maxima, name, k) !in p
  }

  ghost predicate NamesDistinct(maxima: map<string, nat>, name: string, count: nat) {
    forall k, l :: 0 <= k < l < count ==> Names.NewName(maxima, name, k) != Names.NewName(maxima, name, l)
  }

  /** Function names are old ones, or new names of the given function. */
  ghost predicate NamesKnown(before: set<string>, after: set<string>, maxima: map<string, nat>, name: string,
                             count: nat) {
    forall n :: n in after ==> n in before || exists k :: 0 <= k < count && n == Names.NewName(maxima, name, k)
  }

  // ----- What processing one function leaves alone -----

  /** The other ordinary functions are the very same. */
  ghost predicate OthersSame(p: Program, q: Program, name: string) {
    forall n :: n in p && !p[n].constEval && n != name ==> n in q && q[n] == p[n]
  }

  /** No ordinary function appears, and no const-eval function gains a non-cacheable op of a kind
      that none had. */
  ghost predicate NothingForeign(p: Program, q: Program) {
    && (forall n :: n in q && !q[n].constEval ==> n in p && !p[n].constEval)
    && UncacheableKinds(q) <= UncacheableKinds(p)
  }

  ghost predicate AllReady(f: Func, subgraphs: seq<Subgraph>) {
    forall sg :: sg in subgraphs ==> Ready(f, sg)
  }

  /** Everything known between two subgraphs of a function. */
  ghost predicate Between(p: Program, q: Program, nextId: nat, name: string, rest: seq<Subgraph>, sharedOps: seq<Op>) {
    && Sane(q, nextId) && name in q && !q[name].constEval && sharedOps == SharedOps(q[name].body)
    && AllReady(q[name], rest)
    && Preserved(p, q) && OthersSame(p, q, name) && NothingForeign(p, q)
  }

  lemma BetweenNext(p: Program, q: Program, r: Program, c: Change, nextId: nat, nextId': nat, rest: seq<Subgraph>,
                    rest': seq<Subgraph>, sharedOps: seq<Op>)
    requires Between(p, q, nextId, c.name, rest, sharedOps) && HoistStep(q, r, c, nextId, nextId')
    requires CalleeComputes(q, r, c)
    requires forall sg :: sg in rest' ==> sg in rest && Apart(c.sg, sg)
    requires forall n :: n in p && !p[n].constEval && n != c.name ==> n in q && !q[n].constEval
    ensures Between(p, r, nextId', c.name, rest', sharedOps)
  {
    StepSane(q, r, c, nextId, nextId');
    StepPreserves(q, r, c, nextId, nextId');
    PreservedTwice(p, q, r);
    CallerStays(q, r, c, nextId, nextId');
    SharedOpsUntouched(q, r, c, nextId, nextId');
    forall sg | sg in rest' ensures Ready(r[c.name], sg) { OthersStay(q, r, c, nextId, nextId', sg); }
    OthersSameNext(p, q, r, c);
    StepUncacheable(q, r, c, nextId, nextId');
    ForeignNext(p, q, r, c);
  }

  lemma CallerStays(q: Program, r: Program, c: Change, nextId: nat, nextId': nat)
    requires HoistStep(q, r, c, nextId, nextId')
    ensures c.name in r && !r[c.name].constEval
  {
  }

  lemma OthersSameNext(p: Program, q: Program, r: Program, c: Change)
    requires OthersSame(p, q, c.name) && Framed(q, r, c)
    requires forall n :: n in p && !p[n].constEval && n != c.name ==> n in q && !q[n].constEval
    ensures OthersSame(p, r, c.name)
  {
  }

  lemma ForeignNext(p: Program, q: Program, r: Program, c: Change)
    requires NothingForeign(p, q) && Framed(q, r, c) && c.name in q && !q[c.name].constEval && r[c.callee].constEval
    requires UncacheableKinds(r) <= UncacheableKinds(q)
    ensures NothingForeign(p, r)
  {
  }

  lemma StartBetween(p: Program, nextId: nat, name: string, subgraphs: seq<Subgraph>, sharedOps: seq<Op>)
    requires Sane(p, nextId) && name in p && !p[name].constEval && AllReady(p[name], subgraphs)
    requires sharedOps == SharedOps(p[name].body)
    ensures Between(p, p, nextId, name, subgraphs[0..], sharedOps)
  {
    assert subgraphs[0..] == subgraphs;
    forall n | n in p && !p[n].constEval ensures SameReturns(p, p, n) { }
  }

  lemma NextIsTarget(before: Program, p: Program, nextId: nat, name: string, subgraphs: seq<Subgraph>, i: nat,
                     sharedOps: seq<Op>)
    requires i < |subgraphs| && Between(before, p, nextId, name, subgraphs[i..], sharedOps)
    ensures Target(p, nextId, name, subgraphs[i])
  {
    assert subgraphs[i..][0] == subgraphs[i];
  }

  lemma BetweenAfter(before: Program, p: Program, q: Program, c: Change, nextId: nat, nextId': nat,
                     subgraphs: seq<Subgraph>, i: nat, sharedOps: seq<Op>)
    requires i < |subgraphs| && Between(before, p, nextId, c.name, subgraphs[i..], sharedOps) && c.sg == subgraphs[i]
    requires forall k, l :: 0 <= k < l < |subgraphs| ==> Apart(subgraphs[k], subgraphs[l])
    requires HoistStep(p, q, c, nextId, nextId') && CalleeComputes(p, q, c)
    ensures Between(before, q, nextId', c.name, subgraphs[i + 1..], sharedOps)
  {
    forall sg | sg in subgraphs[i + 1..] ensures sg in subgraphs[i..] && Apart(c.sg, sg) {
      var k :| 0 <= k < |subgraphs| - i - 1 && subgraphs[i + 1..][k] == sg;
      assert subgraphs[i..][k + 1] == sg == subgraphs[i + 1 + k];
    }
    BetweenNext(before, p, q, c, nextId, nextId', subgraphs[i..], subgraphs[i + 1..], sharedOps);
  }

  lemma OpsAfter(f: Func, p: Program, q: Program, c: Change, nextId: nat, nextId': nat, subgraphs: seq<Subgraph>,
                 i: nat, start: nat)
    requires HoistStep(p, q, c, nextId, nextId') && start <= nextId && i < |subgraphs| && c.sg == subgraphs[i]
    requires OpsLeft(f, p[c.name], subgraphs[..i], start)
    ensures OpsLeft(f, q[c.name], subgraphs[..i + 1], start) && start <= nextId'
  {
    OpsLeftNext(f, p, q, c, nextId, nextId', subgraphs[..i], start);
    OneMore(subgraphs, i);
  }

  lemma OneMore<T>(s: seq<T>, i: nat)
    requires i < |s|
    ensures s[..i + 1] == s[..i] + [s[i]]
  {
  }

  /** The names used so far are the first `index` new ones, one for each subgraph without calls. */
  ghost predicate NamesUsed(before: Program, p: Program, name: string, subgraphs: seq<Subgraph>, i: nat, index: nat,
                            maxima: map<string, nat>)
    requires i <= |subgraphs|
  {
    && index == Fresh(subgraphs[..i]) && NamesFree(p, maxima, name, index, Fresh(subgraphs))
    && NamesKnown(before.Keys, p.Keys, maxima, name, index)
  }

  /** How far the function itself has come from `f` to `g`. */
  ghost predicate CutSoFar(f: Func, g: Func, start: nat, subgraphs: seq<Subgraph>, i: nat)
    requires i <= |subgraphs|
  {
    OpsLeft(f, g, subgraphs[..i], start) && Settling(g, subgraphs[i..], L1Leaves(f))
  }

  /** Everything known after the first i subgraphs. */
  ghost predicate Progress(before: Program, p: Program, start: nat, nextId: nat, name: string,
                           subgraphs: seq<Subgraph>, i: nat, index: nat,
                           sharedOps: seq<Op>, maxima: map<string, nat>)
    requires name in before && i <= |subgraphs|
  {
    && Between(before, p, nextId, name, subgraphs[i..], sharedOps) && start <= nextId
    && NamesUsed(before, p, name, subgraphs, i, index, maxima)
    && CutSoFar(before[name], p[name], start, subgraphs, i)
  }

  lemma StartProgress(p: Program, nextId: nat, name: string, subgraphs: seq<Subgraph>, sharedOps: seq<Op>,
                      maxima: map<string, nat>)
    requires Sane(p, nextId) && name in p && !p[name].constEval && AllReady(p[name], subgraphs)
    requires sharedOps == SharedOps(p[name].body)
    requires NamesFree(p, maxima, name, 0, Fresh(subgraphs)) && Settling(p[name], subgraphs, L1Leaves(p[name]))
    ensures Progress(p, p, nextId, nextId, name, subgraphs, 0, 0, sharedOps, maxima)
  {
    StartBetween(p, nextId, name, subgraphs, sharedOps);
    assert subgraphs[0..] == subgraphs && Fresh(subgraphs[..0]) == 0;
  }

  lemma SettlingAfter(f: Func, c: Change, subgraphs: seq<Subgraph>, i: nat, fails: bool)
    requires i < |subgraphs| && c.sg == subgraphs[i] && Replaceable(f, c.sg, c.callId)
    requires AllReady(f, subgraphs[i..])
    requires forall k, l :: 0 <= k < l < |subgraphs| ==> Apart(subgraphs[k], subgraphs[l])
    requires Settling(f, subgraphs[i..], fails)
    ensures Settling(Carved(f, c.sg, c.callee, c.callId), subgraphs[i + 1..], fails)
  {
    var rest := subgraphs[i + 1..];
    assert subgraphs[i..] == [c.sg] + rest;
    forall other | other in rest ensures IsSubgraph(f, other) && Apart(c.sg, other) {
      var k :| 0 <= k < |rest| && rest[k] == other;
      assert subgraphs[i + 1 + k] == other && other in subgraphs[i..];
    }
    CutsOut(f, c.sg, c.callId, rest);
    SettlingNext(f, c.sg, c.callee, c.callId, rest, fails);
  }

  lemma CutsOut(f: Func, sg: Subgraph, callId: nat, rest: seq<Subgraph>)
    requires Replaceable(f, sg, callId)
    requires forall other :: other in rest ==> IsSubgraph(f, other) && Apart(sg, other)
    ensures Cuts(f, sg, callId, rest)
  {
  }

  lemma CutNext(f: Func, p: Program, q: Program, c: Change, start: nat, nextId: nat, nextId': nat,
                subgraphs: seq<Subgraph>, i: nat)
    requires i < |subgraphs| && c.sg == subgraphs[i] && HoistStep(p, q, c, nextId, nextId') && start <= nextId
    requires AllReady(p[c.name], subgraphs[i..]) && CutSoFar(f, p[c.name], start, subgraphs, i)
    requires forall k, l :: 0 <= k < l < |subgraphs| ==> Apart(subgraphs[k], subgraphs[l])
    ensures CutSoFar(f, q[c.name], start, subgraphs, i + 1)
  {
    StepReplaces(p, q, c, nextId, nextId');
    SettlingAfter(p[c.name], c, subgraphs, i, L1Leaves(f));
    OpsAfter(f, p, q, c, nextId, nextId', subgraphs, i, start);
  }

  /** A new function takes the next name, growing one takes none. */
  ghost predicate TakesName(p: Program, c: Change, maxima: map<string, nat>, index: nat, index': nat) {
    if c.sg.loadCachedOps == [] then index' == index + 1 && c.callee == Names.NewName(maxima, c.name, index)
    else index' == index && c.callee in p
  }

  lemma NamesNext(before: Program, p: Program, q: Program, c: Change, subgraphs: seq<Subgraph>, i: nat, index: nat,
                  index': nat, maxima: map<string, nat>)
    requires i < |subgraphs| && c.sg == subgraphs[i] && q.Keys == p.Keys - c.gone + {c.callee}
    requires NamesUsed(before, p, c.name, subgraphs, i, index, maxima)
    requires NamesDistinct(maxima, c.name, Fresh(subgraphs)) && TakesName(p, c, maxima, index, index')
    ensures NamesUsed(before, q, c.name, subgraphs, i + 1, index', maxima)
  {
    FreshStep(subgraphs, i);
    if c.sg.loadCachedOps == [] {
      NewNameTaken(before, p, q, c, maxima, index, Fresh(subgraphs));
    } else {
      NoNameTaken(before, p, q, c, maxima, index, Fresh(subgraphs));
    }
  }

  lemma NewNameTaken(before: Program, p: Program, q: Program, c: Change, maxima: map<string, nat>, index: nat,
                     count: nat)
    requires NamesFree(p, maxima, c.name, index, count) && NamesDistinct(maxima, c.name, count)
    requires NamesKnown(before.Keys, p.Keys, maxima, c.name, index)
    requires q.Keys == p.Keys - c.gone + {c.callee} && c.callee == Names.NewName(maxima, c.name, index)
    ensures NamesFree(q, maxima, c.name, index + 1, count)
    ensures NamesKnown(before.Keys, q.Keys, maxima, c.name, index + 1)
  {
  }

  lemma NoNameTaken(before: Program, p: Program, q: Program, c: Change, maxima: map<string, nat>, index: nat,
                    count: nat)
    requires NamesFree(p, maxima, c.name, index, count) && NamesKnown(before.Keys, p.Keys, maxima, c.name, index)
    requires q.Keys == p.Keys - c.gone + {c.callee} && c.callee in p
    ensures NamesFree(q, maxima, c.name, index, count) && NamesKnown(before.Keys, q.Keys, maxima, c.name, index)
  {
  }

  lemma ProgressStep(before: Program, p: Program, q: Program, c: Change, start: nat, nextId: nat, nextId': nat,
                     subgraphs: seq<Subgraph>, i: nat, index: nat, index': nat, sharedOps: seq<Op>,
                     maxima: map<string, nat>)
    requires c.name in before && i < |subgraphs| && c.sg == subgraphs[i]
    requires Progress(before, p, start, nextId, c.name, subgraphs, i, index, sharedOps, maxima)
    requires forall k, l :: 0 <= k < l < |subgraphs| ==> Apart(subgraphs[k], subgraphs[l])
    requires NamesDistinct(maxima, c.name, Fresh(subgraphs)) && TakesName(p, c, maxima, index, index')
    requires HoistStep(p, q, c, nextId, nextId') && CalleeComputes(p, q, c)
    ensures Progress(before, q, start, nextId', c.name, subgraphs, i + 1, index', sharedOps, maxima)
  {
    BetweenAfter(before, p, q, c, nextId, nextId', subgraphs, i, sharedOps);
    StepKeys(p, q, c, nextId, nextId');
    NamesNext(before, p, q, c, subgraphs, i, index, index', maxima);
    CutNext(before[c.name], p, q, c, start, nextId, nextId', subgraphs, i);
  }

  lemma StepKeys(p: Program, q: Program, c: Change, nextId: nat, nextId': nat)
    requires HoistStep(p, q, c, nextId, nextId')
    ensures q.Keys == p.Keys - c.gone + {c.callee} && nextId <= nextId'
  {
  }

  class ConstEvalHoistTransform {
    var functions: Program
    var nextId: nat

    constructor (functions: Program, nextId: nat)
      ensures this.functions == functions && this.nextId == nextId
    {
      this.functions, this.nextId := functions, nextId;
    }

    /** Hoists a subgraph without calls of its own into a function of the given name. */
    method CreateConstEvalFunction(name: string, sg: Subgraph, sharedOps: seq<Op>, newName: string) returns (c: Change)
      requires Target(functions, nextId, name, sg) && sg.loadCachedOps == []
      requires newName !in functions && sharedOps == SharedOps(functions[name].body)
      modifies this
      ensures c == Change(name, sg, newName, {}, c.callId)
      ensures HoistStep(old(functions), functions, c, old(nextId), nextId)
      ensures CalleeComputes(old(functions), functions, c)
    {
      var p, firstId := functions, nextId;
      var q, made;
      q, c, made := CreateInModule(p, firstId, name, sg, sharedOps, newName);
      functions, nextId := q, c.callId + 1;
      CreateIsStep(p, q, c, firstId, made);
    }

    /** Hoists a subgraph into the function its first call names, taking in those of its other
        calls. */
    method AddToExistingConstEvalFunction(name: string, sg: Subgraph, sharedOps: seq<Op>) returns (c: Change)
      requires Target(functions, nextId, name, sg) && sg.loadCachedOps != []
      requires sharedOps == SharedOps(functions[name].body)
      modifies this
      ensures sg.loadCachedOps[0].kind.LoadCached?
      ensures c == Change(name, sg, GrownCallee(sg), Callees(sg.loadCachedOps[1..]), c.callId)
      ensures c.callee in old(functions)
      ensures HoistStep(old(functions), functions, c, old(nextId), nextId)
      ensures CalleeComputes(old(functions), functions, c)
    {
      var p, firstId := functions, nextId;
      var q, made;
      q, c, made := GrowInModule(p, firstId, name, sg, sharedOps);
      functions, nextId := q, c.callId + 1;
      GrowIsStep(p, q, c, firstId, made);
    }

    /** Hoists one subgraph, into a new function of the given name or into an existing one. */
    method HoistSubgraph(name: string, sg: Subgraph, sharedOps: seq<Op>, newName: string) returns (c: Change)
      requires Target(functions, nextId, name, sg) && sharedOps == SharedOps(functions[name].body)
      requires sg.loadCachedOps == [] ==> newName !in functions
      modifies this
      ensures c.name == name && c.sg == sg && (sg.loadCachedOps == [] ==> c.callee == newName)
      ensures (sg.loadCachedOps != [] ==> c.callee in old(functions))
      ensures HoistStep(old(functions), functions, c, old(nextId), nextId)
      ensures CalleeComputes(old(functions), functions, c)
    {
      if sg.loadCachedOps == [] {
        c := CreateConstEvalFunction(name, sg, sharedOps, newName);
      } else {
        c := AddToExistingConstEvalFunction(name, sg, sharedOps);
      }
    }

    /** Hoists the subgraphs of one function, in the order given. Whatever that order is, no
        ordinary function returns anything else afterwards. */
    method ProcessSubgraphs(name: string, subgraphs: seq<Subgraph>, sharedOps: seq<Op>, maxima: map<string, nat>)
      requires Sane(functions, nextId) && name in functions && !functions[name].constEval
      requires Separate(functions[name], subgraphs) && sharedOps == SharedOps(functions[name].body)
      requires NamesFree(functions, maxima, name, 0, Fresh(subgraphs)) && NamesDistinct(maxima, name, Fresh(subgraphs))
      requires AllReady(functions[name], subgraphs)
      requires Settling(functions[name], subgraphs, L1Leaves(functions[name]))
      modifies this
      ensures Sane(functions, nextId) && Preserved(old(functions), functions)
      ensures OthersSame(old(functions), functions, name) && NothingForeign(old(functions), functions)
      ensures NamesKnown(old(functions).Keys, functions.Keys, maxima, name, Fresh(subgraphs))
      ensures name in functions && OpsLeft(old(functions)[name], functions[name], subgraphs, old(nextId))
      ensures old(nextId) <= nextId
      ensures Settling(functions[name], [], L1Leaves(old(functions)[name]))
    {
      var newFuncIndex := 0;
      ghost var before, start := functions, nextId;
      StartProgress(functions, nextId, name, subgraphs, sharedOps, maxima);
      for i := 0 to |subgraphs|
        invariant Progress(before, functions, start, nextId, name, subgraphs, i, newFuncIndex, sharedOps, maxima)
      {
        newFuncIndex := ProcessNextSubgraph(name, subgraphs, i, sharedOps, maxima, newFuncIndex, before, start);
      }
      AllProcessed(before, functions, start, nextId, name, subgraphs, newFuncIndex, sharedOps, maxima);
    }

    method ProcessNextSubgraph(name: string, subgraphs: seq<Subgraph>, i: nat, sharedOps: seq<Op>,
                               maxima: map<string, nat>, index: nat,
                               ghost before: Program, ghost start: nat) returns (newFuncIndex: nat)
      requires name in before && i < |subgraphs|
      requires Progress(before, functions, start, nextId, name, subgraphs, i, index, sharedOps, maxima)
      requires forall k, l :: 0 <= k < l < |subgraphs| ==> Apart(subgraphs[k], subgraphs[l])
      requires NamesDistinct(maxima, name, Fresh(subgraphs))
      modifies this
      ensures Progress(before, functions, start, nextId, name, subgraphs, i + 1, newFuncIndex, sharedOps, maxima)
    {
      ghost var p, id := functions, nextId;
      NextIsTarget(before, p, id, name, subgraphs, i, sharedOps);
      newFuncIndex := index;
      FreshStep(subgraphs, i);
      var newName := Names.NewName(maxima, name, newFuncIndex);
      var c := HoistSubgraph(name, subgraphs[i], sharedOps, newName);
      if subgraphs[i].loadCachedOps == [] { newFuncIndex := newFuncIndex + 1; }
      ProgressStep(before, p, functions, c, start, id, nextId, subgraphs, i, index, newFuncIndex, sharedOps, maxima);
    }

    /** Hoists what the analysis of a function finds, unless the analysis fails. */
    method ProcessFunction(name: string, maxima: map<string, nat>) returns (ok: bool)
      requires Sane(functions, nextId) && name in functions
      requires !functions[name].constEval ==> Processable(functions, name, maxima)
      modifies this
      ensures Sane(functions, nextId) && Preserved(old(functions), functions)
      ensures OthersSame(old(functions), functions, name) && NothingForeign(old(functions), functions)
      ensures NamesKnown(old(functions).Keys, functions.Keys, maxima, name, Needed(old(functions)[name]))
      ensures ok <==> old(functions)[name].constEval || !Failed(old(functions)[name], |old(functions)[name].body|)
      ensures !ok || old(functions)[name].constEval ==> functions == old(functions)
      ensures ok && !old(functions)[name].constEval ==>
              name in functions && Finished(old(functions)[name], functions[name])
    {
      PreservedSelf(functions);
      if functions[name].constEval { return true; }
      var f := functions[name];
      CallsTakeArguments(functions, nextId, name);
      var analyzer := new ConstEvalAnalyze(f);
      if analyzer.analysisFailed { return false; }
      ghost var roots;
      var subgraphs, sharedOps;
      subgraphs, sharedOps, roots := analyzer.GetAnalysisResults();
      ghost var root, start := analyzer.dsu.root, nextId;
      ListedCount(f, root, roots, subgraphs);
      ListedAreReady(f, root, roots, subgraphs);
      ProcessSubgraphs(name, subgraphs, sharedOps, maxima);
      LeftIsCleaned(f, functions[name], root, roots, subgraphs, start);
      WellFormedNow(functions, nextId, name);
      SettledNeedsNothing(functions[name], L1Leaves(f));
      return true;
    }

    /** The pass: every function in turn, under names offset past the existing const-eval
        functions. No ordinary function of the module returns anything else afterwards, and
        the result meets what the pass asks for: it can be run again. */
    method RunOnOperation(order: seq<string>) returns (failed: bool)
      requires Sane(functions, nextId) && Walkable(functions, order)
      modifies this
      ensures Sane(functions, nextId)
      ensures Preserved(old(functions), functions) && NothingForeign(old(functions), functions)
      ensures failed <==> SomeFails(old(functions), order, |order|)
      ensures failed <==> exists n :: UntaggedFound(old(functions), n)
      ensures FunctionsDone(old(functions), functions, order, |order|)
      ensures forall again :: ListsAll(again, functions) ==> Walkable(functions, again)
      ensures FailsAgain(old(functions), functions) && Outcomes(old(functions), functions)
    {
      ghost var before, firstId := functions, nextId;
      var maxima := Names.MaxSubgraphIndices(Symbols(order, functions));
      failed := false;
      StartRun(functions, nextId, order, maxima);
      for i := 0 to |order|
        invariant Sane(functions, nextId) && Running(before, functions, order, i, maxima, failed)
      {
        failed := ProcessNext(order, i, maxima, failed, before);
      }
      CanRunAgain(before, functions, order, maxima, failed);
      FailsAgainExactlyWhen(before, functions, order);
      AllOutcomes(before, functions, firstId, order);
      SomeFailsByFields(before, firstId, order);
    }

    /** One function of the walk, unless it was erased on the way. */
    method ProcessNext(order: seq<string>, i: nat, maxima: map<string, nat>, failedBefore: bool, ghost before: Program)
      returns (failed: bool)
      requires i < |order| && Walkable(before, order) && Offsets(before, order, maxima)
      requires Sane(functions, nextId) && Running(before, functions, order, i, maxima, failedBefore)
      modifies this
      ensures Sane(functions, nextId) && Running(before, functions, order, i + 1, maxima, failed)
    {
      failed := failedBefore;
      if order[i] in functions {
        ghost var p := functions;
        NextProcessable(before, p, order, i, maxima, failed);
        var ok := ProcessFunction(order[i], maxima);
        RunStep(before, p, functions, order, i, maxima, failed, ok);
        if !ok { failed := true; }
      } else {
        GoneStep(before, functions, order, i, maxima, failed);
      }
    }
  }

  /** A function whose analysis succeeds: exactly the ops to be hoisted are gone; a second
      analysis finds only calls, so that nothing is left to make a function for, and fails
      exactly when a hoisted value in L1 leaves its subgraph. */
  ghost predicate Finished(f: Func, g: Func) {
    Cleaned(f, g) && OnlyCallsLeft(g) && Needed(g) == 0 && (Failed(g, |g.body|) <==> L1Leaves(f))
  }

  /** A function is done: finished, or left alone when its analysis fails. */
  ghost predicate FunctionDone(before: Program, p: Program, n: string) {
    n in before && !before[n].constEval ==>
      n in p && if FailsFor(before, n) then p[n] == before[n] else Finished(before[n], p[n])
  }

  ghost predicate FunctionsDone(before: Program, p: Program, order: seq<string>, i: nat)
    requires i <= |order|
  {
    forall j :: 0 <= j < i ==> FunctionDone(before, p, order[j])
  }

  lemma DoneStep(before: Program, p: Program, q: Program, order: seq<string>, i: nat, maxima: map<string, nat>,
                 ok: bool)
    requires i < |order| && NoDuplicates(order) && FunctionsDone(before, p, order, i) && Preserved(before, p)
    requires order[i] in p && Processed(p, q, order[i], maxima, ok) && NothingForeign(before, p)
    requires order[i] in before && !before[order[i]].constEval ==> p[order[i]] == before[order[i]]
    ensures FunctionsDone(before, q, order, i + 1)
  {
    forall j | 0 <= j < i + 1 ensures FunctionDone(before, q, order[j]) {
      if j < i && order[j] in before && !before[order[j]].constEval {
        assert FunctionDone(before, p, order[j]) && SameReturns(before, p, order[j]);
      }
    }
  }

  /** Everything known after the first i functions. */
  ghost predicate Running(before: Program, p: Program, order: seq<string>, i: nat, maxima: map<string, nat>,
                          failed: bool)
    requires i <= |order|
  {
    && Preserved(before, p) && NothingForeign(before, p) && Walking(before, p, order, i, maxima)
    && (failed <==> SomeFails(before, order, i)) && FunctionsDone(before, p, order, i)
  }

  lemma StartRun(p: Program, nextId: nat, order: seq<string>, maxima: map<string, nat>)
    requires Sane(p, nextId) && Walkable(p, order) && Offsets(p, order, maxima)
    ensures Running(p, p, order, 0, maxima, false)
  {
    PreservedSelf(p);
    StartWalk(p, order, maxima);
  }

  /** What processing one function is known to do. */
  ghost predicate Processed(p: Program, q: Program, name: string, maxima: map<string, nat>, ok: bool)
    requires name in p
  {
    && Preserved(p, q) && OthersSame(p, q, name) && NothingForeign(p, q)
    && NamesKnown(p.Keys, q.Keys, maxima, name, Needed(p[name]))
    && (ok <==> p[name].constEval || !Failed(p[name], |p[name].body|))
    && (!ok || p[name].constEval ==> q == p)
    && (ok && !p[name].constEval ==> name in q && Finished(p[name], q[name]))
  }

  lemma RunStep(before: Program, p: Program, q: Program, order: seq<string>, i: nat, maxima: map<string, nat>,
                failed: bool, ok: bool)
    requires i < |order| && Walkable(before, order) && Offsets(before, order, maxima) && order[i] in p
    requires Running(before, p, order, i, maxima, failed) && Processed(p, q, order[i], maxima, ok)
    ensures Running(before, q, order, i + 1, maxima, failed || !ok)
  {
    PreservedTwice(before, p, q);
    WalkStep(before, p, q, order, i, maxima);
    assert order[i..][0] == order[i];
    assert ToCome(before, p, order[i], maxima);
    FailsNext(before, p, order, i, ok);
    DoneStep(before, p, q, order, i, maxima, ok);
  }

  /** Which analyses fail when the pass is run on its result `q`: those that failed, and those of
      functions in which a hoisted value in L1 left its subgraph. */
  ghost predicate FailsAgain(p: Program, q: Program) {
    forall n :: n in p && !p[n].constEval ==> (FailsFor(q, n) <==> FailsFor(p, n) || L1Leaves(p[n]))
  }

  lemma FailsAgainExactlyWhen(before: Program, p: Program, order: seq<string>)
    requires ListsAll(order, before) && Preserved(before, p) && FunctionsDone(before, p, order, |order|)
    ensures FailsAgain(before, p)
  {
    forall n | n in before && !before[n].constEval
      ensures FailsFor(p, n) <==> FailsFor(before, n) || L1Leaves(before[n])
    {
      var j :| 0 <= j < |order| && order[j] == n;
      assert FunctionDone(before, p, order[j]) && SameReturns(before, p, n);
    }
  }

  /** What became of every function: ops that must stay are left, and unless the analysis failed
      all others free to go are gone. */
  ghost predicate Outcome(p: Program, q: Program, n: string) {
    n in p && !p[n].constEval ==>
      n in q && KeepsItsOwn(p[n], q[n]) && (FailsFor(p, n) || TakesTheRest(p[n], q[n]))
  }

  ghost predicate Outcomes(p: Program, q: Program) {
    forall n :: n in p ==> Outcome(p, q, n)
  }

  /** Some op that could be moved out of the ordinary function has an untagged result in L1. */
  ghost predicate UntaggedFound(p: Program, n: string) {
    n in p && !p[n].constEval && exists ids :: MovableSet(p[n], ids) && HasUntaggedInL1(p[n], ids)
  }

  lemma FailsForByFields(p: Program, nextId: nat, n: string)
    requires Sane(p, nextId)
    ensures FailsFor(p, n) <==> UntaggedFound(p, n)
  {
    if n in p && !p[n].constEval {
      var f := p[n];
      assert GoodFunc(p, f, nextId);
      MovableSetExists(f);
      forall ids | MovableSet(f, ids) ensures Failed(f, |f.body|) <==> HasUntaggedInL1(f, ids) {
        FailsByFields(f, ids);
      }
    }
  }

  /** The pass fails exactly if that is so of some ordinary function. */
  lemma SomeFailsByFields(p: Program, nextId: nat, order: seq<string>)
    requires Sane(p, nextId) && ListsAll(order, p)
    ensures SomeFails(p, order, |order|) <==> exists n :: UntaggedFound(p, n)
  {
    if n :| UntaggedFound(p, n) {
      FailsForByFields(p, nextId, n);
      var j :| 0 <= j < |order| && order[j] == n;
    }
    if j :| 0 <= j < |order| && FailsFor(p, order[j]) {
      FailsForByFields(p, nextId, order[j]);
    }
  }

  lemma OutcomeOf(before: Program, p: Program, nextId: nat, n: string)
    requires Sane(before, nextId) && FunctionDone(before, p, n)
    ensures Outcome(before, p, n)
  {
    if n in before && !before[n].constEval {
      var f := before[n];
      assert GoodFunc(before, f, nextId);
      if FailsFor(before, n) {
        assert forall op :: op in f.body ==> !Gone(f, op);
      } else {
        OthersAreKept(f, p[n]);
        RestIsTaken(f, p[n]);
      }
    }
  }

  lemma AllOutcomes(before: Program, p: Program, nextId: nat, order: seq<string>)
    requires Sane(before, nextId) && ListsAll(order, before) && FunctionsDone(before, p, order, |order|)
    ensures Outcomes(before, p)
  {
    forall n | n in before ensures Outcome(before, p, n) {
      var j :| 0 <= j < |order| && order[j] == n;
      assert FunctionDone(before, p, order[j]);
      OutcomeOf(before, p, nextId, n);
    }
  }

  /** Every ordinary function was an ordinary one before, and is finished or left as it was:
      neither needs a name. */
  lemma CanRunAgain(before: Program, p: Program, order: seq<string>, maxima: map<string, nat>, failed: bool)
    requires Walkable(before, order) && Running(before, p, order, |order|, maxima, failed)
    ensures forall again :: ListsAll(again, p) ==> Walkable(p, again)
  {
    forall n | n in p && !p[n].constEval ensures CallsReady(p[n]) && Needed(p[n]) == 0 {
      assert n in before && !before[n].constEval && n in order;
      var j :| 0 <= j < |order| && order[j] == n;
      assert FunctionDone(before, p, order[j]);
      if !FailsFor(before, n) { OnlyCallsReady(p[n]); }
    }
    forall again | ListsAll(again, p) ensures Walkable(p, again) { NothingNeeded(p, again); }
  }

  lemma NothingNeeded(p: Program, order: seq<string>)
    requires ListsAll(order, p) && forall n :: n in p && !p[n].constEval ==> CallsReady(p[n]) && Needed(p[n]) == 0
    ensures Walkable(p, order)
  {
    forall n | n in p ensures Needed(p[n]) == 0 { }
  }

  // ----- Walking the module -----

  function Symbols(order: seq<string>, p: Program): (symbols: seq<Names.Symbol>)
    requires forall n :: n in order ==> n in p
    ensures |symbols| == |order|
    ensures forall i :: 0 <= i < |order| ==> symbols[i] == Names.Symbol(order[i], p[order[i]].constEval)
  {
    seq(|order|, i requires 0 <= i < |order| => Names.Symbol(order[i], p[order[i]].constEval))
  }

  function ClaimsOf(p: Program, order: seq<string>): seq<(string, nat)>
    requires forall n :: n in order ==> n in p
  {
    Names.Claims(Symbols(order, p), Names.Names(Symbols(order, p)))
  }

  /** The new names of one function fit: as many indices as functions are made for it are left
      below the end of the machine word, and no ordinary function has one of those names. */
  ghost predicate NamesFit(p: Program, order: seq<string>, f: string)
    requires (forall n :: n in order ==> n in p) && f in p
  {
    Needed(p[f]) > 0 ==>
      && f != [] && Names.FirstFree(ClaimsOf(p, order), f) + Needed(p[f]) <= Names.WORD_RANGE
      && Names.OrdinaryNamesAvoid(Symbols(order, p), f, Needed(p[f]))
  }

  ghost predicate ListsAll(order: seq<string>, p: Program) {
    NoDuplicates(order) && forall n :: n in order <==> n in p
  }

  /** Unless the analysis fails: the calls it finds take constants, and where a function grows,
      its call takes them in order. */
  ghost predicate CallsReady(f: Func) {
    !Failed(f, |f.body|) ==> CallsTakeConsts(f) && FirstCallsInOrder(f)
  }

  /** The functions in walking order, each with calls ready to be hoisted and with names for the
      functions made for it. */
  ghost predicate Walkable(p: Program, order: seq<string>) {
    && ListsAll(order, p) && (forall n :: n in p && !p[n].constEval ==> CallsReady(p[n]))
    && (forall n :: n in p ==> NamesFit(p, order, n))
  }

  ghost predicate FailsFor(p: Program, n: string) {
    n in p && !p[n].constEval && Failed(p[n], |p[n].body|)
  }

  ghost predicate SomeFails(p: Program, order: seq<string>, i: nat)
    requires i <= |order|
  {
    exists j :: 0 <= j < i && FailsFor(p, order[j])
  }

  /** A function still to come is as it was, and its new names are free. */
  ghost predicate ToCome(before: Program, p: Program, n: string, maxima: map<string, nat>) {
    n in before && !before[n].constEval ==>
      && n in p && p[n] == before[n]
      && NamesFree(p, maxima, n, 0, Needed(before[n])) && NamesDistinct(maxima, n, Needed(before[n]))
  }

  ghost predicate Walking(before: Program, p: Program, order: seq<string>, i: nat, maxima: map<string, nat>)
    requires i <= |order|
  {
    forall n :: n in order[i..] ==> ToCome(before, p, n, maxima)
  }

  ghost predicate Offsets(p: Program, order: seq<string>, maxima: map<string, nat>)
    requires forall n :: n in order ==> n in p
  {
    Names.Largest(maxima, ClaimsOf(p, order))
  }

  lemma InNames(order: seq<string>, p: Program)
    requires ListsAll(order, p)
    ensures Names.Names(Symbols(order, p)) == p.Keys
  {
    var symbols := Symbols(order, p);
    forall n | n in p ensures n in Names.Names(symbols) {
      var i :| 0 <= i < |order| && order[i] == n;
      assert symbols[i] in symbols;
    }
    forall n | n in Names.Names(symbols) ensures n in p {
      var s :| s in symbols && s.name == n;
      var i :| 0 <= i < |symbols| && symbols[i] == s;
      assert order[i] in order;
    }
  }

  lemma RoomForNeeded(p: Program, order: seq<string>, maxima: map<string, nat>, f: string)
    requires Walkable(p, order) && Offsets(p, order, maxima) && f in p && Needed(p[f]) > 0
    ensures f != [] && Names.RoomFor(maxima, f, Needed(p[f]))
  {
    assert NamesFit(p, order, f);
    Names.OffsetIsFirstFree(maxima, ClaimsOf(p, order), f);
  }

  /** The names the pass will give are free exactly when no ordinary function has one. */
  lemma NamesFreeExactlyWhen(p: Program, order: seq<string>, maxima: map<string, nat>, f: string, count: nat)
    requires ListsAll(order, p) && Offsets(p, order, maxima) && f in p && f != [] && Names.RoomFor(maxima, f, count)
    ensures NamesFree(p, maxima, f, 0, count) <==> Names.OrdinaryNamesAvoid(Symbols(order, p), f, count)
  {
    InNames(order, p);
    Names.NewNamesFreeExactlyWhen(maxima, Symbols(order, p), f, count);
    assert NamesFree(p, maxima, f, 0, count) <==> Names.NewNamesFree(maxima, Symbols(order, p), f, count);
  }

  lemma NewNamesApart(p: Program, order: seq<string>, maxima: map<string, nat>, f: string, k: nat, g: string, l: nat)
    requires Walkable(p, order) && Offsets(p, order, maxima) && f in p && g in p && (f != g || k != l)
    requires k < Needed(p[f]) && l < Needed(p[g])
    ensures Names.NewName(maxima, f, k) != Names.NewName(maxima, g, l)
  {
    RoomForNeeded(p, order, maxima, f);
    RoomForNeeded(p, order, maxima, g);
    Names.NewNamesDiffer(maxima, f, k, Needed(p[f]), g, l, Needed(p[g]));
  }

  lemma StartWalk(p: Program, order: seq<string>, maxima: map<string, nat>)
    requires Walkable(p, order) && Offsets(p, order, maxima)
    ensures Walking(p, p, order, 0, maxima)
  {
    assert order[0..] == order;
    forall n | n in order ensures ToCome(p, p, n, maxima) {
      forall k, l | 0 <= k < l < Needed(p[n]) ensures Names.NewName(maxima, n, k) != Names.NewName(maxima, n, l) {
        NewNamesApart(p, order, maxima, n, k, n, l);
      }
      if Needed(p[n]) > 0 {
        RoomForNeeded(p, order, maxima, n);
        assert NamesFit(p, order, n);
        NamesFreeExactlyWhen(p, order, maxima, n, Needed(p[n]));
      }
    }
  }

  lemma NextProcessable(before: Program, p: Program, order: seq<string>, i: nat, maxima: map<string, nat>, failed: bool)
    requires i < |order| && Walkable(before, order) && Running(before, p, order, i, maxima, failed)
    requires order[i] in p
    ensures !p[order[i]].constEval ==> Processable(p, order[i], maxima)
  {
    assert order[i..][0] == order[i];
    assert ToCome(before, p, order[i], maxima);
  }

  /** New names of one function are none of another's. */
  lemma WalkStep(before: Program, p: Program, q: Program, order: seq<string>, i: nat, maxima: map<string, nat>)
    requires i < |order| && Walkable(before, order) && Offsets(before, order, maxima)
    requires Walking(before, p, order, i, maxima)
    requires order[i] in p && OthersSame(p, q, order[i])
    requires NamesKnown(p.Keys, q.Keys, maxima, order[i], Needed(p[order[i]]))
    requires NothingForeign(before, p) && (p[order[i]].constEval ==> q == p)
    ensures Walking(before, q, order, i + 1, maxima)
  {
    assert order[i..][0] == order[i];
    assert ToCome(before, p, order[i], maxima);
    forall n | n in order[i + 1..] ensures ToCome(before, q, n, maxima) {
      var k :| 0 <= k < |order| - i - 1 && order[i + 1..][k] == n;
      assert order[i..][k + 1] == n == order[i + 1 + k];
      assert n in order[i..] && n != order[i] && ToCome(before, p, n, maxima);
      if n in before && !before[n].constEval && !p[order[i]].constEval {
        StillFree(before, p, q, order, order[i], maxima, n);
      }
    }
  }

  lemma StillFree(before: Program, p: Program, q: Program, order: seq<string>, done: string, maxima: map<string, nat>,
                  n: string)
    requires Walkable(before, order) && Offsets(before, order, maxima)
    requires done in p && done in before && p[done] == before[done]
    requires n in before && n != done && NamesFree(p, maxima, n, 0, Needed(before[n]))
    requires NamesKnown(p.Keys, q.Keys, maxima, done, Needed(p[done]))
    ensures NamesFree(q, maxima, n, 0, Needed(before[n]))
  {
    forall k | 0 <= k < Needed(before[n]) ensures Names.NewName(maxima, n, k) !in q {
      forall l | 0 <= l < Needed(p[done]) ensures Names.NewName(maxima, n, k) != Names.NewName(maxima, done, l) {
        NewNamesApart(before, order, maxima, n, k, done, l);
      }
    }
  }

  lemma FailsNext(before: Program, p: Program, order: seq<string>, i: nat, ok: bool)
    requires i < |order| && order[i] in p && NothingForeign(before, p)
    requires !p[order[i]].constEval ==> p[order[i]] == before[order[i]]
    requires ok <==> p[order[i]].constEval || !Failed(p[order[i]], |p[order[i]].body|)
    requires order[i] in before && (!before[order[i]].constEval ==> p[order[i]] == before[order[i]])
    ensures SomeFails(before, order, i + 1) <==> SomeFails(before, order, i) || !ok
  {
    assert FailsFor(before, order[i]) <==> !ok;
    if SomeFails(before, order, i) {
      var j :| 0 <= j < i && FailsFor(before, order[j]);
    }
  }

  lemma GoneStep(before: Program, p: Program, order: seq<string>, i: nat, maxima: map<string, nat>, failed: bool)
    requires i < |order| && Running(before, p, order, i, maxima, failed) && order[i] !in p
    ensures Running(before, p, order, i + 1, maxima, failed)
  {
    assert order[i..][0] == order[i];
    assert ToCome(before, p, order[i], maxima);
    assert order[i + 1..] == order[i..][1..];
    assert !FailsFor(before, order[i]);
    if SomeFails(before, order, i) {
      var j :| 0 <= j < i && FailsFor(before, order[j]);
    }
  }

  lemma LeftIsCleaned(f: Func, g: Func, root: map<Value, Value>, roots: seq<Value>, subgraphs: seq<Subgraph>,
                      start: nat)
    requires WellFormed(f) && ConstEvalAnalyzer.Analyzed(f, |f.body|, root) && Listed(f, root, roots, subgraphs)
    requires Separate(f, subgraphs)
    requires OpsLeft(f, g, subgraphs, start) && ConstEvalClone.Below(f.body, start)
    ensures Cleaned(f, g)
  {
    forall op | op in f.body ensures InSome(subgraphs, op.id) <==> ToHoist(f, op) {
      ListedHold(f, root, roots, subgraphs, op);
      InSomeMember(f, subgraphs, op);
    }
  }

  lemma InSomeMember(f: Func, subgraphs: seq<Subgraph>, op: Op)
    requires WellFormed(f) && Separate(f, subgraphs) && op in f.body
    ensures InSome(subgraphs, op.id) <==> exists sg :: sg in subgraphs && op in Members(sg)
  {
    if InSome(subgraphs, op.id) {
      var sg :| sg in subgraphs && op.id in Ids(Members(sg));
      MemberOfId(f, sg, op);
    }
  }

  /** What the analysis lists is ready to be hoisted. */
  lemma ListedAreReady(f: Func, root: map<Value, Value>, roots: seq<Value>, subgraphs: seq<Subgraph>)
    requires WellFormed(f) && AllLegal(f.body) && CallsReady(f) && !Failed(f, |f.body|)
    requires ConstEvalAnalyzer.Analyzed(f, |f.body|, root) && Listed(f, root, roots, subgraphs)
    ensures Separate(f, subgraphs) && AllReady(f, subgraphs) && Settling(f, subgraphs, L1Leaves(f))
  {
    ListedAreSeparate(f, root, roots, subgraphs);
    AnalyzedIsTame(f, root, roots, subgraphs);
    AnalyzedIsSettling(f, root, roots, subgraphs);
    forall sg | sg in subgraphs ensures Ready(f, sg) {
      var i :| 0 <= i < |subgraphs| && subgraphs[i] == sg;
      ClassFirstInOrder(f, root, roots[i]);
      assert Passed(f, sg);
    }
  }

  lemma AllProcessed(before: Program, p: Program, start: nat, nextId: nat, name: string, subgraphs: seq<Subgraph>,
                     index: nat,
                     sharedOps: seq<Op>, maxima: map<string, nat>)
    requires name in before
    requires Progress(before, p, start, nextId, name, subgraphs, |subgraphs|, index, sharedOps, maxima)
    ensures Sane(p, nextId) && Preserved(before, p) && OthersSame(before, p, name) && NothingForeign(before, p)
    ensures start <= nextId
    ensures NamesKnown(before.Keys, p.Keys, maxima, name, Fresh(subgraphs))
    ensures name in p && OpsLeft(before[name], p[name], subgraphs, start)
    ensures Settling(p[name], [], L1Leaves(before[name]))
  {
    assert subgraphs[..|subgraphs|] == subgraphs && subgraphs[|subgraphs|..] == [];
  }

  lemma WellFormedNow(p: Program, nextId: nat, name: string)
    requires Sane(p, nextId) && name in p
    ensures WellFormed(p[name])
  {
    assert GoodFunc(p, p[name], nextId);
  }

  lemma PreservedSelf(p: Program)
    ensures Preserved(p, p)
  {
    forall n | n in p && !p[n].constEval ensures SameReturns(p, p, n) { }
  }

  lemma CallsTakeArguments(p: Program, nextId: nat, name: string)
    requires Sane(p, nextId) && name in p
    ensures WellFormed(p[name]) && AllLegal(p[name].body) && CallsTakeArgs(p[name].body)
  {
    assert GoodFunc(p, p[name], nextId);
    forall op, v | op in p[name].body && op.kind.LoadCached? && v in op.operands ensures v.Arg? { assert Legal(op); }
  }

  /** What processing a function needs: its calls are ready, and its new names are free. */
  ghost predicate Processable(p: Program, name: string, maxima: map<string, nat>)
    requires name in p
  {
    && CallsReady(p[name])
    && NamesFree(p, maxima, name, 0, Needed(p[name])) && NamesDistinct(maxima, name, Needed(p[name]))
  }

  /** A const-eval function made for a subgraph: its arguments and ids, and what it is. */
  datatype Made = Made(args: seq<nat>, bodyId: nat, func: Func)

  method CreateInModule(p: Program, nextId: nat, name: string, sg: Subgraph, sharedOps: seq<Op>, newName: string)
    returns (q: Program, c: Change, made: Made)
    requires Target(p, nextId, name, sg) && sg.loadCachedOps == [] && sharedOps == SharedOps(p[name].body)
    ensures c == Change(name, sg, newName, {}, c.callId)
    ensures NewFrom(p[name], sg, made.args, nextId, made.bodyId, made.func, c.callId)
    ensures q == Created(p, name, sg, newName, made.func, c.callId)
  {
    var newFunc, replaced, args, bodyId, callId;
    newFunc, replaced, args, bodyId, callId := CreateAndCutOut(p, nextId, name, sg, sharedOps, newName);
    q := p[newName := newFunc][name := replaced];
    made := Made(args, bodyId, newFunc);
    c := Change(name, sg, newName, {}, callId);
  }

  method CreateAndCutOut(p: Program, nextId: nat, name: string, sg: Subgraph, sharedOps: seq<Op>, newName: string)
    returns (newFunc: Func, replaced: Func, args: seq<nat>, bodyId: nat, callId: nat)
    requires Target(p, nextId, name, sg) && sg.loadCachedOps == [] && sharedOps == SharedOps(p[name].body)
    ensures NewFrom(p[name], sg, args, nextId, bodyId, newFunc, callId)
    ensures replaced == Carved(p[name], sg, newName, callId)
  {
    var f := p[name];
    TargetGood(p, nextId, name, sg);
    var inputs, outputs := CollectSubgraphBoundary(f, sg);
    newFunc, args, bodyId, callId := BuildNewFunction(f, sg, sharedOps, inputs, outputs, nextId);
    BelowGives(f, nextId, callId);
    replaced := ReplaceOpsWithCall(f, newName, sg, inputs, outputs, callId);
    CarvedWithoutCalls(f, sg, newName, callId);
  }

  lemma CreateIsStep(p: Program, q: Program, c: Change, nextId: nat, made: Made)
    requires Target(p, nextId, c.name, c.sg) && c.sg.loadCachedOps == [] && c.callee !in p && c.gone == {}
    requires NewFrom(p[c.name], c.sg, made.args, nextId, made.bodyId, made.func, c.callId)
    requires q == Created(p, c.name, c.sg, c.callee, made.func, c.callId)
    ensures HoistStep(p, q, c, nextId, c.callId + 1) && CalleeComputes(p, q, c)
  {
    assert c == Change(c.name, c.sg, c.callee, {}, c.callId);
    CreateStep(p, nextId, c.name, c.sg, c.callee, made.args, made.bodyId, made.func, c.callId);
    CreateComputes(p, nextId, c.name, c.sg, c.callee, made.args, made.bodyId, made.func, c.callId);
  }

  method GrowInModule(p: Program, nextId: nat, name: string, sg: Subgraph, sharedOps: seq<Op>)
    returns (q: Program, c: Change, made: Made)
    requires Target(p, nextId, name, sg) && sg.loadCachedOps != [] && sharedOps == SharedOps(p[name].body)
    ensures sg.loadCachedOps[0].kind.LoadCached?
    ensures c == Change(name, sg, GrownCallee(sg), Callees(sg.loadCachedOps[1..]), c.callId) && c.callee != name
    ensures GrownFrom(p, p[name], sg, made.args, nextId, made.bodyId, made.func, c.callId)
    ensures q == Grown(p, name, sg, made.func, c.callId)
  {
    var callee, grown, replaced, args, bodyId, callId;
    callee, grown, replaced, args, bodyId, callId := GrowAndCutOut(p, nextId, name, sg, sharedOps);
    q := WithGrown(p, sg.loadCachedOps[1..], callee, grown, name, replaced);
    made := Made(args, bodyId, grown);
    c := Change(name, sg, callee, Callees(sg.loadCachedOps[1..]), callId);
  }

  /** The other callees go, the first one grows, and the caller is replaced. */
  method WithGrown(p: Program, others: seq<Op>, callee: string, grown: Func, name: string, replaced: Func)
    returns (q: Program)
    ensures q == (p - Callees(others))[callee := grown][name := replaced]
  {
    q := EraseCallees(p, others);
    q := q[callee := grown][name := replaced];
  }

  method GrowAndCutOut(p: Program, nextId: nat, name: string, sg: Subgraph, sharedOps: seq<Op>)
    returns (callee: string, grown: Func, replaced: Func, args: seq<nat>, bodyId: nat, callId: nat)
    requires Target(p, nextId, name, sg) && sg.loadCachedOps != [] && sharedOps == SharedOps(p[name].body)
    ensures GrownFrom(p, p[name], sg, args, nextId, bodyId, grown, callId)
    ensures sg.loadCachedOps[0].kind.LoadCached? && callee == GrownCallee(sg) && callee != name
    ensures replaced == Carved(p[name], sg, callee, callId)
  {
    var f := p[name];
    callee := FirstCallee(p, nextId, name, sg);
    var inputs, outputs := CollectSubgraphBoundary(f, sg);
    grown, args, bodyId, callId := GrowFirstCallee(p, nextId, name, sg, sharedOps, inputs, outputs);
    replaced := CutOutCaller(p, nextId, name, callee, sg, inputs, outputs, callId);
  }

  lemma GrowIsStep(p: Program, q: Program, c: Change, nextId: nat, made: Made)
    requires Target(p, nextId, c.name, c.sg) && c.sg.loadCachedOps != [] && c.sg.loadCachedOps[0].kind.LoadCached?
    requires GrownCallee(c.sg) != c.name
    requires GrownFrom(p, p[c.name], c.sg, made.args, nextId, made.bodyId, made.func, c.callId)
    requires c == Change(c.name, c.sg, GrownCallee(c.sg), Callees(c.sg.loadCachedOps[1..]), c.callId)
    requires q == Grown(p, c.name, c.sg, made.func, c.callId)
    ensures c.callee in p && HoistStep(p, q, c, nextId, c.callId + 1) && CalleeComputes(p, q, c)
  {
    assert Resolves(p, c.sg.loadCachedOps[0]);
    GrowStep(p, nextId, c.name, c.sg, made.args, made.bodyId, made.func, c.callId);
    GrowComputes(p, nextId, c.name, c.sg, made.args, made.bodyId, made.func, c.callId);
  }

  method CutOutCaller(p: Program, nextId: nat, name: string, callee: string, sg: Subgraph, inputs: seq<Value>,
                      outputs: seq<Value>, callId: nat)
    returns (r: Func)
    requires Target(p, nextId, name, sg) && nextId <= callId
    requires inputs == BoundaryInputs(p[name], sg) && outputs == BoundaryOutputs(p[name], sg)
    ensures r == Carved(p[name], sg, callee, callId)
  {
    TargetGood(p, nextId, name, sg);
    BelowGives(p[name], nextId, callId);
    r := CutOut(p[name], callee, sg, inputs, outputs, callId);
  }

  function FirstCallee(p: Program, nextId: nat, name: string, sg: Subgraph): (callee: string)
    requires Target(p, nextId, name, sg) && sg.loadCachedOps != []
    ensures sg.loadCachedOps[0].kind.LoadCached? && callee == GrownCallee(sg) && callee != name
  {
    CalleesOwned(p, nextId, name, sg);
    sg.loadCachedOps[0].kind.callee
  }

  method GrowFirstCallee(p: Program, nextId: nat, name: string, sg: Subgraph, sharedOps: seq<Op>, inputs: seq<Value>,
                         outputs: seq<Value>)
    returns (grown: Func, args: seq<nat>, bodyId: nat, callId: nat)
    requires Target(p, nextId, name, sg) && sg.loadCachedOps != [] && sharedOps == SharedOps(p[name].body)
    requires inputs == BoundaryInputs(p[name], sg) && outputs == BoundaryOutputs(p[name], sg)
    ensures GrownFrom(p, p[name], sg, args, nextId, bodyId, grown, callId)
  {
    TargetGood(p, nextId, name, sg);
    GrowReady(p, nextId, name, sg);
    grown, args, bodyId, callId := BuildGrownFunction(p, p[name], sg, sharedOps, inputs, outputs, nextId);
  }

  /** The ops replaced by a call, then the subgraph's own calls erased. */
  method CutOut(f: Func, callee: string, sg: Subgraph, inputs: seq<Value>, outputs: seq<Value>, callId: nat)
    returns (r: Func)
    requires Replaceable(f, sg, callId) && inputs == BoundaryInputs(f, sg) && outputs == BoundaryOutputs(f, sg)
    ensures r == Carved(f, sg, callee, callId)
  {
    r := ReplaceOpsWithCall(f, callee, sg, inputs, outputs, callId);
    r := EraseLoadCachedOps(f, sg, callee, callId, r, CallUsed(f, sg, callee, callId));
  }

  method EraseCallees(p: Program, calls: seq<Op>) returns (r: Program)
    ensures r == p - Callees(calls)
  {
    r := p;
    for k := 0 to |calls|
      invariant r == p - Callees(calls[..k])
    {
      assert Callees(calls[..k + 1]) == Callees(calls[..k]) + Callees([calls[k]]) by {
        assert calls[..k + 1] == calls[..k] + [calls[k]];
      }
      if calls[k].kind.LoadCached? {
        assert Callees([calls[k]]) == {calls[k].kind.callee} by { assert calls[k] in [calls[k]]; }
        r := r - {calls[k].kind.callee};
      }
    }
    assert calls[..|calls|] == calls;
  }

  lemma GrowReady(p: Program, nextId: nat, name: string, sg: Subgraph)
    requires Target(p, nextId, name, sg) && sg.loadCachedOps != []
    ensures AllResolve(p, sg.loadCachedOps)
    ensures ConstEvalArguments.AllBelow(Callee(p, sg).args, nextId) && ConstEvalClone.Below(Callee(p, sg).body, nextId)
  {
    TargetResolves(p, nextId, name, sg);
    assert sg.loadCachedOps[0] in sg.loadCachedOps;
  }
}
