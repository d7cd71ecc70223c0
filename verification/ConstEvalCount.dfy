/** How many const-eval functions the pass makes for a function: one for each class of
    const-eval ops that holds no call of an existing one. In the other classes the function that
    the first call names grows. */
module ConstEvalCount {
  import opened Common
  import opened Ir
  import opened ConstEvalSubgraphs
  import opened ConstEvalArguments
  import opened ConstEvalAnalysis
  import opened ConstEvalLinks
  import opened ConstEvalAnalyzer

  ghost predicate SameClass(f: Func, a: Op, b: Op) {
    Linked(Groups(f, |f.body|), Res(a.id, 0), Res(b.id, 0))
  }

  /** The j-th op is to be hoisted, and no earlier one belongs to its class. */
  ghost predicate Leads(f: Func, j: nat) {
    && j < |f.body| && ToHoist(f, f.body[j])
    && forall i :: 0 <= i < j && ToHoist(f, f.body[i]) ==> !SameClass(f, f.body[i], f.body[j])
  }

  ghost predicate CallFree(f: Func, op: Op) {
    forall o :: o in f.body && ToHoist(f, o) && SameClass(f, o, op) ==> o.kind.Plain?
  }

  /** The places of the first ops of the classes without calls. */
  ghost function NewLeaders(f: Func): set<nat> {
    set j | 0 <= j < |f.body| && Leads(f, j) && CallFree(f, f.body[j])
  }

  /** The functions made for `f`: none for a const-eval function, and none when the analysis
      fails. */
  ghost function Needed(f: Func): nat {
    if f.constEval || Failed(f, |f.body|) then 0 else |NewLeaders(f)|
  }

  // ----- First calls -----

  /** The j-th op is the first call of its class. */
  ghost predicate FirstCall(f: Func, j: nat) {
    && j < |f.body| && ToHoist(f, f.body[j]) && f.body[j].kind.LoadCached?
    && forall i :: 0 <= i < j && ToHoist(f, f.body[i]) && SameClass(f, f.body[i], f.body[j]) ==> f.body[i].kind.Plain?
  }

  /** The first call of every class takes its inputs in order. */
  ghost predicate FirstCallsInOrder(f: Func) {
    forall j :: 0 <= j < |f.body| && FirstCall(f, j) ==> TakesInOrder(f.args, f.body[j])
  }

  lemma {:induction false} FirstMember(ops: seq<Op>, root: map<Value, Value>, r: Value) returns (j: nat)
    requires ClassMembers(ops, root, r, true) != []
    ensures j < |ops| && ops[j] == ClassMembers(ops, root, r, true)[0]
    ensures HasRoot(root, ops[j], r) && ops[j].kind.LoadCached?
    ensures forall i :: 0 <= i < j && HasRoot(root, ops[i], r) ==> ops[i].kind.Plain?
  {
    var n := |ops| - 1;
    assert ops == ops[..n] + [ops[n]];
    if ClassMembers(ops[..n], root, r, true) != [] {
      j := FirstMember(ops[..n], root, r);
    } else {
      j := n;
      NoCalls(ops[..n], root, r);
    }
  }

  lemma NoCalls(ops: seq<Op>, root: map<Value, Value>, r: Value)
    requires ClassMembers(ops, root, r, true) == []
    ensures forall i :: 0 <= i < |ops| && HasRoot(root, ops[i], r) ==> ops[i].kind.Plain?
  {
    forall op | op in ops && HasRoot(root, op, r) ensures op.kind.Plain? {
      assert op !in ClassMembers(ops, root, r, true);
    }
  }

  /** The subgraph of a class grows the function of a call that takes its inputs in order. */
  lemma ClassFirstInOrder(f: Func, root: map<Value, Value>, r: Value)
    requires WellFormed(f) && Analyzed(f, |f.body|, root) && FirstCallsInOrder(f)
    ensures FirstInOrder(f.args, ClassSubgraph(f.body, root, r))
  {
    if ClassMembers(f.body, root, r, true) != [] {
      var j := FirstMember(f.body, root, r);
      assert f.body[j] in f.body;
      forall i | 0 <= i < j && ToHoist(f, f.body[i]) && SameClass(f, f.body[i], f.body[j])
        ensures f.body[i].kind.Plain?
      {
        assert f.body[i] in f.body;
        ClassIsRoot(f, root, f.body[i], f.body[j], r);
      }
      ClassIsRoot(f, root, f.body[j], f.body[j], r);
      assert FirstCall(f, j);
    }
  }

  // ----- As many as there are subgraphs without calls -----

  function Fresh(subgraphs: seq<Subgraph>): nat {
    if subgraphs == [] then 0
    else
      var n := |subgraphs| - 1;
      Fresh(subgraphs[..n]) + if subgraphs[n].loadCachedOps == [] then 1 else 0
  }

  lemma FreshStep(subgraphs: seq<Subgraph>, i: nat)
    requires i < |subgraphs|
    ensures Fresh(subgraphs[..i + 1]) == Fresh(subgraphs[..i]) + if subgraphs[i].loadCachedOps == [] then 1 else 0
    ensures Fresh(subgraphs[..i + 1]) <= Fresh(subgraphs)
  {
    assert subgraphs[..i + 1][..i] == subgraphs[..i];
    FreshGrows(subgraphs, i + 1);
  }

  lemma {:induction false} FreshGrows(subgraphs: seq<Subgraph>, i: nat)
    requires i <= |subgraphs|
    ensures Fresh(subgraphs[..i]) <= Fresh(subgraphs)
    decreases |subgraphs|
  {
    if i == |subgraphs| {
      assert subgraphs[..i] == subgraphs;
    } else {
      FreshGrows(subgraphs[..|subgraphs| - 1], i);
      assert subgraphs[..|subgraphs| - 1][..i] == subgraphs[..i];
    }
  }

  function FreshPlaces(subgraphs: seq<Subgraph>): (r: set<nat>)
    ensures forall i :: i in r <==> 0 <= i < |subgraphs| && subgraphs[i].loadCachedOps == []
  {
    set i | 0 <= i < |subgraphs| && subgraphs[i].loadCachedOps == []
  }

  lemma {:induction false} FreshIsPlaces(subgraphs: seq<Subgraph>)
    ensures Fresh(subgraphs) == |FreshPlaces(subgraphs)|
  {
    if subgraphs == [] {
      assert FreshPlaces(subgraphs) == {};
    } else {
      var n := |subgraphs| - 1;
      var front := subgraphs[..n];
      FreshIsPlaces(front);
      assert FreshPlaces(subgraphs) == FreshPlaces(front) + if subgraphs[n].loadCachedOps == [] then {n} else {};
    }
  }

  lemma {:induction false} SameSize(a: set<nat>, b: set<nat>, m: map<nat, nat>)
    requires m.Keys == a && m.Values == b && forall i, j :: i in m && j in m && m[i] == m[j] ==> i == j
    ensures |a| == |b|
    decreases a
  {
    if a == {} {
      assert b == {};
    } else {
      var i :| i in a;
      var rest := m - {i};
      assert rest.Values == b - {m[i]} by {
        forall y | y in b && y != m[i] ensures y in rest.Values {
          var j :| j in m && m[j] == y;
          assert j in rest && rest[j] == y;
        }
      }
      SameSize(a - {i}, b - {m[i]}, rest);
    }
  }

  /** The first op of a class. */
  function FirstWith(ops: seq<Op>, root: map<Value, Value>, r: Value): (j: nat)
    requires exists op :: op in ops && HasRoot(root, op, r)
    ensures j < |ops| && HasRoot(root, ops[j], r) && forall i :: 0 <= i < j ==> !HasRoot(root, ops[i], r)
  {
    if HasRoot(root, ops[0], r) then 0
    else
      assert ops == [ops[0]] + ops[1..];
      1 + FirstWith(ops[1..], root, r)
  }

  /** Class and root tell the same ops apart. */
  lemma ClassIsRoot(f: Func, root: map<Value, Value>, a: Op, b: Op, r: Value)
    requires WellFormed(f) && Analyzed(f, |f.body|, root) && a in f.body && b in f.body && HasRoot(root, b, r)
    ensures ToHoist(f, b) && (HasRoot(root, a, r) <==> ToHoist(f, a) && SameClass(f, a, b))
  {
    ToHoistHasRoot(f, root, a);
    ToHoistHasRoot(f, root, b);
    if ToHoist(f, a) { RootsTellLinks(f, root, Res(a.id, 0), Res(b.id, 0)); }
  }

  lemma FirstLeads(f: Func, root: map<Value, Value>, r: Value)
    requires WellFormed(f) && Analyzed(f, |f.body|, root) && Inhabited(f, root, r)
    ensures Leads(f, FirstWith(f.body, root, r))
    ensures ClassMembers(f.body, root, r, true) == [] <==> CallFree(f, f.body[FirstWith(f.body, root, r)])
  {
    var j := FirstWith(f.body, root, r);
    var op := f.body[j];
    assert op in f.body;
    ClassIsRoot(f, root, op, op, r);
    forall i | 0 <= i < j && ToHoist(f, f.body[i]) ensures !SameClass(f, f.body[i], op) {
      assert f.body[i] in f.body;
      ClassIsRoot(f, root, f.body[i], op, r);
    }
    var calls := ClassMembers(f.body, root, r, true);
    forall o | o in f.body ensures o in calls <==> ToHoist(f, o) && SameClass(f, o, op) && o.kind.LoadCached? {
      ClassIsRoot(f, root, o, op, r);
    }
    Occurs(calls);
  }

  /** A leader is the first op of its root. */
  lemma LeaderIsFirst(f: Func, root: map<Value, Value>, j: nat) returns (r: Value)
    requires WellFormed(f) && Analyzed(f, |f.body|, root) && Leads(f, j)
    ensures HasRoot(root, f.body[j], r) && Inhabited(f, root, r) && FirstWith(f.body, root, r) == j
  {
    var op := f.body[j];
    assert op in f.body;
    ToHoistHasRoot(f, root, op);
    r := root[Res(op.id, 0)];
    assert HasRoot(root, op, r);
    var i := FirstWith(f.body, root, r);
    assert f.body[i] in f.body;
    ClassIsRoot(f, root, f.body[i], op, r);
  }

  ghost function LeaderOf(f: Func, root: map<Value, Value>, roots: seq<Value>, i: nat): nat
    requires i < |roots| && AllInhabited(f, root, roots)
  {
    assert roots[i] in roots && Inhabited(f, root, roots[i]);
    FirstWith(f.body, root, roots[i])
  }

  lemma PlaceLeads(f: Func, root: map<Value, Value>, roots: seq<Value>, subgraphs: seq<Subgraph>, i: nat)
    requires WellFormed(f) && Analyzed(f, |f.body|, root) && Listed(f, root, roots, subgraphs) && i < |roots|
    ensures i in FreshPlaces(subgraphs) <==> LeaderOf(f, root, roots, i) in NewLeaders(f)
    ensures HasRoot(root, f.body[LeaderOf(f, root, roots, i)], roots[i])
  {
    assert roots[i] in roots && Inhabited(f, root, roots[i]);
    FirstLeads(f, root, roots[i]);
  }

  lemma LeaderHasPlace(f: Func, root: map<Value, Value>, roots: seq<Value>, subgraphs: seq<Subgraph>, j: nat)
    returns (i: nat)
    requires WellFormed(f) && Analyzed(f, |f.body|, root) && Listed(f, root, roots, subgraphs) && j in NewLeaders(f)
    ensures i < |roots| && LeaderOf(f, root, roots, i) == j && i in FreshPlaces(subgraphs)
  {
    var r := LeaderIsFirst(f, root, j);
    assert f.body[j] in f.body;
    i :| 0 <= i < |roots| && roots[i] == r;
    PlaceLeads(f, root, roots, subgraphs, i);
  }

  /** The subgraphs without calls are as many as the classes without calls. */
  lemma ListedCount(f: Func, root: map<Value, Value>, roots: seq<Value>, subgraphs: seq<Subgraph>)
    requires WellFormed(f) && Analyzed(f, |f.body|, root) && Listed(f, root, roots, subgraphs)
    ensures Fresh(subgraphs) == |NewLeaders(f)|
  {
    var places := FreshPlaces(subgraphs);
    var m := map i | i in places :: LeaderOf(f, root, roots, i);
    forall i | i in places ensures m[i] in NewLeaders(f) { PlaceLeads(f, root, roots, subgraphs, i); }
    forall j | j in NewLeaders(f) ensures j in m.Values {
      var i := LeaderHasPlace(f, root, roots, subgraphs, j);
      assert m[i] == j;
    }
    forall i, k | i in m && k in m && m[i] == m[k] ensures i == k {
      PlaceLeads(f, root, roots, subgraphs, i);
      PlaceLeads(f, root, roots, subgraphs, k);
      assert roots[i] == roots[k];
    }
    SameSize(places, NewLeaders(f), m);
    FreshIsPlaces(subgraphs);
  }
}
