/** Backward reachability over operands (getUseDefChain). Values are numbered; a value
    maps to the operands of its defining op, and a block argument maps to nothing. */
module UseDefChain {
  import opened Common
  type Graph = map<nat, seq<nat>>

  predicate Edge(g: Graph, user: nat, operand: nat) {
    user in g && operand in g[user]
  }

  /** A chain of operand edges leading from the first value to the last. */
  ghost predicate IsPath(g: Graph, p: seq<nat>) {
    p != [] && forall k :: 0 <= k < |p| - 1 ==> Edge(g, p[k], p[k + 1])
  }

  ghost predicate Reaches(g: Graph, start: nat, v: nat) {
    exists p :: IsPath(g, p) && p[0] == start && p[|p| - 1] == v
  }

  ghost function Values(g: Graph): set<nat> {
    g.Keys + set u, v | u in g && v in g[u] :: v
  }

  lemma ReachesSelf(g: Graph, v: nat)
    ensures Reaches(g, v, v)
  {
    assert IsPath(g, [v]) && [v][0] == v;
  }

  lemma ReachesOperand(g: Graph, start: nat, u: nat, v: nat)
    requires Reaches(g, start, u) && Edge(g, u, v)
    ensures Reaches(g, start, v)
  {
    var p :| IsPath(g, p) && p[0] == start && p[|p| - 1] == u;
    var q := p + [v];
    assert forall k :: 0 <= k < |p| ==> q[k] == p[k];
    assert IsPath(g, q) && q[0] == start && q[|q| - 1] == v;
  }

  /** A set holding the first value of a path and closed under operands holds the last. */
  lemma {:induction false} ClosedUnderPaths(g: Graph, s: set<nat>, p: seq<nat>)
    requires IsPath(g, p) && p[0] in s
    requires forall u, v :: u in s && Edge(g, u, v) ==> v in s
    ensures p[|p| - 1] in s
    decreases |p|
  {
    if |p| > 1 {
      assert Edge(g, p[0], p[1]);
      var q := p[1..];
      forall k | 0 <= k < |q| - 1 ensures Edge(g, q[k], q[k + 1]) {
        assert Edge(g, p[k + 1], p[k + 1 + 1]);
      }
      ClosedUnderPaths(g, s, q);
    }
  }

  method GetUseDefChain(g: Graph, start: nat) returns (chain: seq<nat>)
    ensures NoDuplicates(chain)
    ensures forall v :: v in chain <==> Reaches(g, start, v)
  {
    chain := [];
    var worklist := [start];
    var visited: set<nat> := {};
    ReachesSelf(g, start);
    while worklist != []
      invariant NoDuplicates(chain)
      invariant visited <= Values(g)
      invariant start in chain || start in worklist
      invariant forall v :: v in chain || v in worklist || v in visited ==> Reaches(g, start, v)
      invariant forall v :: v in visited ==> v in chain || v in worklist
      invariant forall u, v :: u in chain && Edge(g, u, v) ==> v in visited
      decreases Values(g) - visited, |worklist|
    {
      var value := worklist[|worklist| - 1];
      assert forall v :: v in worklist ==> v == value || v in worklist[..|worklist| - 1];
      worklist := worklist[..|worklist| - 1];
      if value !in chain {
        chain := chain + [value];
      }
      if value !in g { continue; }
      var operands, i := g[value], 0;
      ghost var visitedBefore, worklistBefore := visited, worklist;
      while i < |operands|
        invariant 0 <= i <= |operands|
        invariant visitedBefore <= visited <= Values(g)
        invariant visited == visitedBefore ==> worklist == worklistBefore
        invariant start in chain || start in worklist
        invariant forall v :: v in chain || v in worklist || v in visited ==> Reaches(g, start, v)
        invariant forall v :: v in visited ==> v in chain || v in worklist
        invariant forall k :: 0 <= k < i ==> operands[k] in visited
      {
        var operand := operands[i];
        if operand !in visited {
          assert Edge(g, value, operand);
          ReachesOperand(g, start, value, operand);
          visited := visited + {operand};
          worklist := worklist + [operand];
        }
        i := i + 1;
      }
      assert forall v :: Edge(g, value, v) ==> v in visited;
    }
    forall v | Reaches(g, start, v) ensures v in chain {
      var p :| IsPath(g, p) && p[0] == start && p[|p| - 1] == v;
      ClosedUnderPaths(g, (set u | u in chain), p);
    }
  }
}
