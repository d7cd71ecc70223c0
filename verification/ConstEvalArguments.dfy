/** Giving an existing const-eval function the arguments of a grown subgraph: its own
    arguments stay, and new ones are inserted where the sorted inputs want them. */
module ConstEvalArguments {
  import opened Common
  import opened Ir
  import opened ConstEvalSubgraphs
  import opened ConstEvalCreate

  /** Where each old input stands among the new ones. */
  ghost predicate Positions(at: seq<nat>, olds: seq<Value>, inputs: seq<Value>) {
    && |at| == |olds|
    && (forall m :: 0 <= m < |at| ==> at[m] < |inputs| && inputs[at[m]] == olds[m])
    && (forall m, n :: 0 <= m < n < |at| ==> at[m] < at[n])
  }

  ghost predicate Subsequence(olds: seq<Value>, inputs: seq<Value>) {
    exists at :: Positions(at, olds, inputs)
  }

  /** Old argument m still stands for old input m. */
  ghost predicate Stands(m: map<Value, Value>, oldArgs: seq<nat>, oldInputs: seq<Value>) {
    |oldArgs| == |oldInputs| && forall k :: 0 <= k < |oldInputs| ==>
      oldInputs[k] in m && m[oldInputs[k]] == Arg(oldArgs[k])
  }

  ghost predicate AllBelow(ids: seq<nat>, bound: nat) {
    forall i :: i in ids ==> i < bound
  }

  lemma InputMapStep(inputs: seq<Value>, args: seq<nat>, i: nat)
    requires i < |inputs| && i < |args| && NoDuplicates(inputs)
    ensures InputMap(inputs[..i + 1], args[..i + 1]) == InputMap(inputs[..i], args[..i])[inputs[i] := Arg(args[i])]
    ensures inputs[i] !in InputMap(inputs[..i], args[..i])
  {
    assert inputs[..i + 1][..i] == inputs[..i] && args[..i + 1][..i] == args[..i];
  }

  /** The state of the loop before input i, old input j: the arguments left are the old ones
      from j on, and the old inputs passed stand at `at`. */
  ghost predicate Aligning(oldArgs: seq<nat>, oldInputs: seq<Value>, inputs: seq<Value>, args: seq<nat>, i: nat,
                           j: nat, at: seq<nat>)
  {
    && i <= |inputs| && j <= |oldInputs| == |oldArgs| && i <= |args| && args[i..] == oldArgs[j..]
    && Positions(at, oldInputs[..j], inputs[..i])
    && forall k :: 0 <= k < j ==> args[at[k]] == oldArgs[k]
  }

  lemma KeepStep(oldArgs: seq<nat>, oldInputs: seq<Value>, inputs: seq<Value>, args: seq<nat>, i: nat, j: nat,
                 at: seq<nat>)
    requires Aligning(oldArgs, oldInputs, inputs, args, i, j, at) && i < |inputs| && j < |oldInputs|
    requires oldInputs[j] == inputs[i]
    ensures i < |args| && Aligning(oldArgs, oldInputs, inputs, args, i + 1, j + 1, at + [i])
  {
    assert args[i..][0] == args[i] && oldArgs[j..][0] == oldArgs[j];
    assert args[i + 1..] == args[i..][1..] && oldArgs[j + 1..] == oldArgs[j..][1..];
    forall m | 0 <= m <= j ensures (at + [i])[m] < i + 1 && inputs[..i + 1][(at + [i])[m]] == oldInputs[..j + 1][m] {
      if m < j { assert inputs[..i][at[m]] == oldInputs[..j][m]; }
    }
  }

  lemma InsertStep(oldArgs: seq<nat>, oldInputs: seq<Value>, inputs: seq<Value>, args: seq<nat>, i: nat, j: nat,
                   at: seq<nat>, id: nat)
    requires Aligning(oldArgs, oldInputs, inputs, args, i, j, at) && i < |inputs|
    ensures Aligning(oldArgs, oldInputs, inputs, args[..i] + [id] + args[i..], i + 1, j, at)
  {
    var args' := args[..i] + [id] + args[i..];
    assert args'[i + 1..] == args[i..];
    forall m | 0 <= m < j
      ensures at[m] < i + 1 && inputs[..i + 1][at[m]] == oldInputs[..j][m] && args'[at[m]] == oldArgs[m]
    {
      assert inputs[..i][at[m]] == oldInputs[..j][m];
    }
  }

  /** The greedy match falls behind no other match. */
  ghost predicate Ahead(pos: seq<nat>, oldInputs: seq<Value>, inputs: seq<Value>, i: nat, j: nat) {
    Positions(pos, oldInputs, inputs) ==> forall m :: j <= m < |pos| ==> i <= pos[m]
  }

  lemma AheadStep(pos: seq<nat>, oldInputs: seq<Value>, inputs: seq<Value>, i: nat, j: nat)
    requires NoDuplicates(inputs) && i < |inputs| && j <= |oldInputs| && Ahead(pos, oldInputs, inputs, i, j)
    ensures Ahead(pos, oldInputs, inputs, i + 1, if j < |oldInputs| && oldInputs[j] == inputs[i] then j + 1 else j)
  {
    if Positions(pos, oldInputs, inputs) && j < |pos| {
      assert inputs[pos[j]] == oldInputs[j];
      if oldInputs[j] == inputs[i] { assert pos[j] == i; } else { assert pos[j] != i; }
    }
  }

  ghost predicate FreshBelow(args: seq<nat>, nextId: nat) {
    NoDuplicates(args) && AllBelow(args, nextId)
  }

  /** The loop invariant. */
  ghost predicate Inserting(oldArgs: seq<nat>, oldInputs: seq<Value>, inputs: seq<Value>, args: seq<nat>,
                            valueMap: map<Value, Value>,
                            nextId: nat, i: nat, j: nat, at: seq<nat>, pos: seq<nat>)
  {
    && Aligning(oldArgs, oldInputs, inputs, args, i, j, at) && Ahead(pos, oldInputs, inputs, i, j)
    && valueMap == InputMap(inputs[..i], args[..i]) && FreshBelow(args, nextId)
  }

  lemma KeepArgument(oldArgs: seq<nat>, oldInputs: seq<Value>, inputs: seq<Value>, args: seq<nat>,
                     valueMap: map<Value, Value>,
                     nextId: nat, i: nat, j: nat, at: seq<nat>, pos: seq<nat>)
    requires Inserting(oldArgs, oldInputs, inputs, args, valueMap, nextId, i, j, at, pos)
    requires NoDuplicates(inputs) && i < |inputs| && j < |oldInputs| && oldInputs[j] == inputs[i]
    ensures i < |args|
    ensures Inserting(oldArgs, oldInputs, inputs, args, valueMap[inputs[i] := Arg(args[i])], nextId,
      i + 1, j + 1, at + [i], pos)
  {
    KeepStep(oldArgs, oldInputs, inputs, args, i, j, at);
    AheadStep(pos, oldInputs, inputs, i, j);
    InputMapStep(inputs, args, i);
  }

  lemma InsertArgument(oldArgs: seq<nat>, oldInputs: seq<Value>, inputs: seq<Value>, args: seq<nat>,
                       valueMap: map<Value, Value>,
                       nextId: nat, i: nat, j: nat, at: seq<nat>, pos: seq<nat>)
    requires Inserting(oldArgs, oldInputs, inputs, args, valueMap, nextId, i, j, at, pos)
    requires NoDuplicates(inputs) && i < |inputs| && !(j < |oldInputs| && oldInputs[j] == inputs[i])
    ensures var args' := args[..i] + [nextId] + args[i..];
      Inserting(oldArgs, oldInputs, inputs, args', valueMap[inputs[i] := Arg(nextId)], nextId + 1, i + 1, j, at, pos)
  {
    var args' := args[..i] + [nextId] + args[i..];
    InsertStep(oldArgs, oldInputs, inputs, args, i, j, at, nextId);
    AheadStep(pos, oldInputs, inputs, i, j);
    assert args'[..i] == args[..i];
    InputMapStep(inputs, args', i);
    InsertFresh(args, i, nextId);
  }

  lemma InsertFresh(args: seq<nat>, i: nat, id: nat)
    requires i <= |args| && FreshBelow(args, id)
    ensures FreshBelow(args[..i] + [id] + args[i..], id + 1)
  {
    var r := args[..i] + [id] + args[i..];
    forall m | 0 <= m < |r| && m != i ensures r[m] in args { assert r[m] == args[if m < i then m else m - 1]; }
    forall x | x in r ensures x < id + 1 {
      var m :| 0 <= m < |r| && r[m] == x;
      assert m != i ==> x in args;
    }
    forall m, n | 0 <= m < n < |r| ensures r[m] != r[n] {
      if m != i { assert r[m] in args; }
      if n != i { assert r[n] in args; }
    }
  }

  /** Old arguments are kept, and each new input gets one. The arguments end up matching the
      inputs exactly when the old inputs are a subsequence of the new ones. */
  method InsertArguments(oldArgs: seq<nat>, oldInputs: seq<Value>, inputs: seq<Value>, firstId: nat)
    returns (args: seq<nat>, valueMap: map<Value, Value>, nextId: nat)
    requires |oldArgs| == |oldInputs| && NoDuplicates(inputs) && FreshBelow(oldArgs, firstId)
    ensures |args| >= |inputs| && (|args| == |inputs| <==> Subsequence(oldInputs, inputs))
    ensures valueMap == InputMap(inputs, args[..|inputs|])
    ensures |args| == |inputs| ==> Stands(valueMap, oldArgs, oldInputs)
    ensures FreshBelow(args, nextId) && firstId <= nextId
  {
    args, valueMap, nextId := oldArgs, map[], firstId;
    var oldIt := 0;
    ghost var at: seq<nat> := [];
    ghost var pos: seq<nat> :| Subsequence(oldInputs, inputs) ==> Positions(pos, oldInputs, inputs);
    for i := 0 to |inputs|
      invariant Inserting(oldArgs, oldInputs, inputs, args, valueMap, nextId, i, oldIt, at, pos) && firstId <= nextId
    {
      if oldIt < |oldInputs| && oldInputs[oldIt] == inputs[i] {
        KeepArgument(oldArgs, oldInputs, inputs, args, valueMap, nextId, i, oldIt, at, pos);
        valueMap := valueMap[inputs[i] := Arg(args[i])];
        at := at + [i];
        oldIt := oldIt + 1;
      } else {
        InsertArgument(oldArgs, oldInputs, inputs, args, valueMap, nextId, i, oldIt, at, pos);
        args := args[..i] + [nextId] + args[i..];
        valueMap := valueMap[inputs[i] := Arg(args[i])];
        nextId := nextId + 1;
      }
    }
    InsertedAll(oldArgs, oldInputs, inputs, args, valueMap, nextId, oldIt, at, pos);
  }

  lemma InsertedAll(oldArgs: seq<nat>, oldInputs: seq<Value>, inputs: seq<Value>, args: seq<nat>,
                    valueMap: map<Value, Value>,
                    nextId: nat, j: nat, at: seq<nat>, pos: seq<nat>)
    requires Inserting(oldArgs, oldInputs, inputs, args, valueMap, nextId, |inputs|, j, at, pos) && NoDuplicates(inputs)
    requires Subsequence(oldInputs, inputs) ==> Positions(pos, oldInputs, inputs)
    ensures |args| >= |inputs| && (|args| == |inputs| <==> Subsequence(oldInputs, inputs))
    ensures valueMap == InputMap(inputs, args[..|inputs|])
    ensures |args| == |inputs| ==> Stands(valueMap, oldArgs, oldInputs)
  {
    assert inputs[..|inputs|] == inputs;
    AllMatched(oldArgs, oldInputs, inputs, args, j, at, pos);
    if |args| == |inputs| {
      assert args[..|inputs|] == args;
      MatchedStand(oldArgs, oldInputs, inputs, args, j, at);
    }
  }

  lemma AllMatched(oldArgs: seq<nat>, oldInputs: seq<Value>, inputs: seq<Value>, args: seq<nat>, j: nat, at: seq<nat>,
                   pos: seq<nat>)
    requires Aligning(oldArgs, oldInputs, inputs, args, |inputs|, j, at) && Ahead(pos, oldInputs, inputs, |inputs|, j)
    requires Subsequence(oldInputs, inputs) ==> Positions(pos, oldInputs, inputs)
    ensures |args| == |inputs| <==> j == |oldInputs|
    ensures |args| == |inputs| <==> Subsequence(oldInputs, inputs)
  {
    assert |args[|inputs|..]| == |oldArgs[j..]|;
    assert inputs[..|inputs|] == inputs;
    if j == |oldInputs| {
      assert oldInputs[..j] == oldInputs;
      assert Positions(at, oldInputs, inputs);
    } else {
      FellBehind(pos, oldInputs, inputs, j);
    }
  }

  lemma FellBehind(pos: seq<nat>, oldInputs: seq<Value>, inputs: seq<Value>, j: nat)
    requires j < |oldInputs| && Ahead(pos, oldInputs, inputs, |inputs|, j)
    ensures !Positions(pos, oldInputs, inputs)
  {
    if j < |pos| && pos[j] < |inputs| { assert !Positions(pos, oldInputs, inputs); }
  }

  lemma MatchedStand(oldArgs: seq<nat>, oldInputs: seq<Value>, inputs: seq<Value>, args: seq<nat>, j: nat, at: seq<nat>)
    requires Aligning(oldArgs, oldInputs, inputs, args, |inputs|, j, at) && |args| == |inputs| && NoDuplicates(inputs)
    ensures Stands(InputMap(inputs, args), oldArgs, oldInputs)
  {
    assert |args[|inputs|..]| == |oldArgs[j..]|;
    assert inputs[..|inputs|] == inputs && oldInputs[..j] == oldInputs;
    forall k | 0 <= k < |oldInputs|
      ensures oldInputs[k] in inputs && InputMap(inputs, args)[oldInputs[k]] == Arg(oldArgs[k])
    {
      InputMapAt(inputs, args, at[k]);
    }
  }

  /** Two old inputs in descending order are no subsequence of the ascending ones, so the loop
      leaves more arguments than inputs. */
  lemma DescendingInputsMisalign()
    ensures !Subsequence([Arg(1), Arg(0)], [Arg(0), Arg(1)])
  {
    forall at: seq<nat> ensures !Positions(at, [Arg(1), Arg(0)], [Arg(0), Arg(1)]) {
      if |at| == 2 && at[0] < at[1] < 2 { assert at[0] == 0; }
    }
  }

  lemma {:induction false} InputMapAt(inputs: seq<Value>, args: seq<nat>, k: nat)
    requires |inputs| == |args| && NoDuplicates(inputs) && k < |inputs|
    ensures inputs[k] in inputs && InputMap(inputs, args)[inputs[k]] == Arg(args[k])
  {
    var n := |inputs| - 1;
    if k < n { InputMapAt(inputs[..n], args[..n], k); }
  }

  // ----- The inputs of an earlier subgraph are a subsequence -----

  function Params(inputs: seq<Value>): (r: set<nat>)
    ensures forall i :: i in r ==> Arg(i) in inputs
  {
    set v | v in inputs && v.Arg? :: v.id
  }

  /** The inputs of a call are block arguments, each once, by ascending argument number. */
  ghost predicate TakesInOrder(args: seq<nat>, call: Op) {
    call.operands == Inputs(args, Params(call.operands))
  }

  /** The first call of a subgraph, whose function grows, takes its inputs in order. */
  ghost predicate FirstInOrder(args: seq<nat>, sg: Subgraph) {
    sg.loadCachedOps != [] ==> TakesInOrder(args, sg.loadCachedOps[0])
  }

  lemma {:induction false} SortedSubsequence(args: seq<nat>, some: set<nat>, more: set<nat>) returns (at: seq<nat>)
    requires some <= more
    ensures Positions(at, Inputs(args, some), Inputs(args, more))
  {
    if args == [] {
      at := [];
    } else {
      var n := |args| - 1;
      at := SortedSubsequence(args[..n], some, more);
      if args[n] in some { at := at + [|Inputs(args[..n], more)|]; }
    }
  }
}
