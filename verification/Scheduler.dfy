/** The op scheduler: dependency graph, ready list and schedule (mlir::tt::scheduler). */
module Scheduler {
  import opened Common

  /** An op of the function body: whether it is a TT op to schedule, and the ops that
      define its operands (block arguments left out). */
  datatype BlockOp = BlockOp(id: nat, schedulable: bool, producers: seq<nat>)

  /** Straight-line SSA: ids are unique and definitions come before uses. */
  ghost predicate DefBeforeUse(block: seq<BlockOp>) {
    && (forall i, j :: 0 <= i < j < |block| ==> block[i].id != block[j].id)
    && (forall i, d :: 0 <= i < |block| && d in block[i].producers ==> DefinedBefore(block, d, i))
  }

  ghost predicate DefinedBefore(block: seq<BlockOp>, id: nat, i: nat)
    requires i <= |block|
  {
    exists j :: 0 <= j < i && block[j].id == id
  }

  type Dependencies = map<nat, seq<nat>>

  // ----- Readiness -----

  predicate DependenciesMet(deps: Dependencies, scheduled: set<nat>, op: nat) {
    op in deps ==> forall d :: d in deps[op] ==> d in scheduled
  }

  predicate Ready(deps: Dependencies, scheduled: set<nat>, op: nat) {
    op !in scheduled && DependenciesMet(deps, scheduled, op)
  }

  /** The ready ops in block order. */
  function ReadyOps(ops: seq<nat>, deps: Dependencies, scheduled: set<nat>): (r: seq<nat>)
    ensures forall x :: x in r <==> x in ops && Ready(deps, scheduled, x)
    ensures r == [] <==> forall x :: x in ops ==> !Ready(deps, scheduled, x)
  {
    if ops == [] then []
    else
      var n := |ops| - 1;
      var front := ReadyOps(ops[..n], deps, scheduled);
      assert ops == ops[..n] + [ops[n]];
      if Ready(deps, scheduled, ops[n]) then front + [ops[n]] else front
  }

  /** Some successor waits for another op besides `op`. */
  predicate HasBlockedSuccessor(ops: seq<nat>, deps: Dependencies, scheduled: set<nat>, op: nat) {
    exists i :: 0 <= i < |ops| && BlocksAt(ops[i], deps, scheduled, op)
  }

  predicate BlocksAt(succ: nat, deps: Dependencies, scheduled: set<nat>, op: nat) {
    succ != op && succ in deps && op in deps[succ] &&
    exists d :: d in deps[succ] && d != op && d !in scheduled
  }

  /** The sublist whose blocked-successor flag is `flag`, order kept. */
  function Select(list: seq<nat>, ops: seq<nat>, deps: Dependencies, scheduled: set<nat>, flag: bool): (r: seq<nat>)
    ensures forall x :: x in r <==> x in list && HasBlockedSuccessor(ops, deps, scheduled, x) == flag
  {
    if list == [] then []
    else
      var n := |list| - 1;
      var front := Select(list[..n], ops, deps, scheduled, flag);
      assert list == list[..n] + [list[n]];
      if HasBlockedSuccessor(ops, deps, scheduled, list[n]) == flag then front + [list[n]] else front
  }

  /** Ops with a still-blocked successor first, each group in its old order. */
  function Prioritized(list: seq<nat>, ops: seq<nat>, deps: Dependencies, scheduled: set<nat>): seq<nat> {
    Select(list, ops, deps, scheduled, true) + Select(list, ops, deps, scheduled, false)
  }

  /** Prioritising only reorders. */
  lemma {:induction false} PrioritizedPermutes(list: seq<nat>, ops: seq<nat>, deps: Dependencies, scheduled: set<nat>)
    ensures multiset(Prioritized(list, ops, deps, scheduled)) == multiset(list)
  {
    if list != [] {
      var n := |list| - 1;
      PrioritizedPermutes(list[..n], ops, deps, scheduled);
      assert list == list[..n] + [list[n]];
    }
  }

  lemma PrioritizedKeepsLength(list: seq<nat>, ops: seq<nat>, deps: Dependencies, scheduled: set<nat>)
    ensures |Prioritized(list, ops, deps, scheduled)| == |list|
  {
    PrioritizedPermutes(list, ops, deps, scheduled);
    assert |multiset(Prioritized(list, ops, deps, scheduled))| == |multiset(list)|;
  }

  // ----- Which ready ops come first -----

  /** Once `op` is scheduled, some other listed op that depends on it still waits for a further
      unscheduled one. */
  ghost predicate LeavesWaiting(ops: seq<nat>, deps: Dependencies, scheduled: set<nat>, op: nat) {
    exists succ, d :: succ in ops && succ != op && succ in deps && op in deps[succ] &&
      d in deps[succ] && d != op && d !in scheduled
  }

  /** The ops that leave another one waiting come before those that do not. */
  ghost predicate WaitersFirst(list: seq<nat>, ops: seq<nat>, deps: Dependencies, scheduled: set<nat>) {
    forall i, j :: 0 <= i < j < |list| && LeavesWaiting(ops, deps, scheduled, list[j]) ==>
      LeavesWaiting(ops, deps, scheduled, list[i])
  }

  /** `a` stands before `b` in the list. */
  ghost predicate Precedes(list: seq<nat>, a: nat, b: nat) {
    exists p, q :: 0 <= p < q < |list| && list[p] == a && list[q] == b
  }

  /** Of two ops of the same kind the one that stood first still does. */
  ghost predicate KindsInOrder(list: seq<nat>, before: seq<nat>, ops: seq<nat>, deps: Dependencies,
                               scheduled: set<nat>) {
    forall i, j :: 0 <= i < j < |list| && SameKind(ops, deps, scheduled, list[i], list[j]) ==>
      Precedes(before, list[i], list[j])
  }

  ghost predicate SameKind(ops: seq<nat>, deps: Dependencies, scheduled: set<nat>, a: nat, b: nat) {
    LeavesWaiting(ops, deps, scheduled, a) <==> LeavesWaiting(ops, deps, scheduled, b)
  }

  lemma BlockedMeansWaiting(ops: seq<nat>, deps: Dependencies, scheduled: set<nat>, op: nat)
    ensures HasBlockedSuccessor(ops, deps, scheduled, op) <==> LeavesWaiting(ops, deps, scheduled, op)
  {
    if HasBlockedSuccessor(ops, deps, scheduled, op) {
      var i :| 0 <= i < |ops| && BlocksAt(ops[i], deps, scheduled, op);
      assert ops[i] in ops;
    }
    if LeavesWaiting(ops, deps, scheduled, op) {
      var succ, d :| succ in ops && succ != op && succ in deps && op in deps[succ] &&
        d in deps[succ] && d != op && d !in scheduled;
      var i :| 0 <= i < |ops| && ops[i] == succ;
      assert BlocksAt(ops[i], deps, scheduled, op);
    }
  }

  /** Where the entries of a sublist stand in the whole list. */
  ghost predicate StandAt(part: seq<nat>, list: seq<nat>, at: seq<nat>) {
    && |at| == |part| && (forall i :: 0 <= i < |at| ==> at[i] < |list| && list[at[i]] == part[i])
    && (forall i, j :: 0 <= i < j < |at| ==> at[i] < at[j])
  }

  lemma {:induction false} SelectStands(list: seq<nat>, ops: seq<nat>, deps: Dependencies, scheduled: set<nat>,
                                        flag: bool) returns (at: seq<nat>)
    ensures StandAt(Select(list, ops, deps, scheduled, flag), list, at)
  {
    if list == [] {
      at := [];
    } else {
      var n := |list| - 1;
      at := SelectStands(list[..n], ops, deps, scheduled, flag);
      if HasBlockedSuccessor(ops, deps, scheduled, list[n]) == flag { at := at + [n]; }
    }
  }

  lemma {:induction false} ReadyStands(ops: seq<nat>, deps: Dependencies, scheduled: set<nat>) returns (at: seq<nat>)
    ensures StandAt(ReadyOps(ops, deps, scheduled), ops, at)
  {
    if ops == [] {
      at := [];
    } else {
      var n := |ops| - 1;
      at := ReadyStands(ops[..n], deps, scheduled);
      if Ready(deps, scheduled, ops[n]) { at := at + [n]; }
    }
  }

  lemma StandsInOrder(part: seq<nat>, list: seq<nat>, at: seq<nat>, i: nat, j: nat)
    requires StandAt(part, list, at) && i < j < |part|
    ensures Precedes(list, part[i], part[j])
  {
    assert list[at[i]] == part[i] && list[at[j]] == part[j];
  }

  /** The prioritised list has the ops that leave another one waiting in front, and is stable. */
  lemma PrioritizedInOrder(list: seq<nat>, ops: seq<nat>, deps: Dependencies, scheduled: set<nat>)
    ensures var sorted := Prioritized(list, ops, deps, scheduled);
      WaitersFirst(sorted, ops, deps, scheduled) && KindsInOrder(sorted, list, ops, deps, scheduled)
  {
    var sorted := Prioritized(list, ops, deps, scheduled);
    var first, second := Select(list, ops, deps, scheduled, true), Select(list, ops, deps, scheduled, false);
    forall i | 0 <= i < |sorted| ensures LeavesWaiting(ops, deps, scheduled, sorted[i]) <==> i < |first| {
      assert sorted[i] == if i < |first| then first[i] else second[i - |first|];
      assert i < |first| ==> first[i] in first;
      assert i >= |first| ==> second[i - |first|] in second;
      BlockedMeansWaiting(ops, deps, scheduled, sorted[i]);
    }
    var at := SelectStands(list, ops, deps, scheduled, true);
    var at' := SelectStands(list, ops, deps, scheduled, false);
    forall i, j | 0 <= i < j < |sorted| && (i < |first| <==> j < |first|)
      ensures Precedes(list, sorted[i], sorted[j])
    {
      if j < |first| {
        StandsInOrder(first, list, at, i, j);
      } else {
        StandsInOrder(second, list, at', i - |first|, j - |first|);
      }
    }
  }

  /** What stands in order among the ready ops stands in order in the block. */
  lemma ReadyPrecede(ops: seq<nat>, deps: Dependencies, scheduled: set<nat>, a: nat, b: nat)
    requires Precedes(ReadyOps(ops, deps, scheduled), a, b)
    ensures Precedes(ops, a, b)
  {
    var ready := ReadyOps(ops, deps, scheduled);
    var p, q :| 0 <= p < q < |ready| && ready[p] == a && ready[q] == b;
    var at := ReadyStands(ops, deps, scheduled);
    StandsInOrder(ready, ops, at, p, q);
  }

  lemma ReadyInOrder(ops: seq<nat>, deps: Dependencies, scheduled: set<nat>)
    ensures var sorted := Prioritized(ReadyOps(ops, deps, scheduled), ops, deps, scheduled);
      WaitersFirst(sorted, ops, deps, scheduled) && KindsInOrder(sorted, ops, ops, deps, scheduled)
  {
    var ready := ReadyOps(ops, deps, scheduled);
    var sorted := Prioritized(ready, ops, deps, scheduled);
    PrioritizedInOrder(ready, ops, deps, scheduled);
    forall i, j | 0 <= i < j < |sorted| && Precedes(ready, sorted[i], sorted[j])
      ensures Precedes(ops, sorted[i], sorted[j])
    {
      ReadyPrecede(ops, deps, scheduled, sorted[i], sorted[j]);
    }
  }

  // ----- The scheduler object -----

  function SchedulableIds(block: seq<BlockOp>): (r: seq<nat>)
    ensures |r| <= |block|
  {
    if block == [] then []
    else
      var n := |block| - 1;
      SchedulableIds(block[..n]) + (if block[n].schedulable then [block[n].id] else [])
  }

  /** The uses of an op's results: one entry per using operand. */
  function Users(block: seq<BlockOp>, id: nat): (r: seq<BlockOp>)
    ensures forall u :: u in r <==> u in block && id in u.producers
  {
    if block == [] then []
    else
      var n := |block| - 1;
      assert block == block[..n] + [block[n]];
      Users(block[..n], id) + UsesIn(block[n], block[n].producers, id)
  }

  function UsesIn(user: BlockOp, producers: seq<nat>, id: nat): (r: seq<BlockOp>)
    ensures forall u :: u in r <==> u == user && id in producers
  {
    if producers == [] then []
    else
      var n := |producers| - 1;
      assert producers == producers[..n] + [producers[n]];
      UsesIn(user, producers[..n], id) + (if producers[n] == id then [user] else [])
  }

  ghost predicate IsSchedulable(block: seq<BlockOp>, id: nat) {
    exists k :: 0 <= k < |block| && block[k].id == id && block[k].schedulable
  }

  /** Op `x` has an operand defined by op `d`. */
  ghost predicate Reads(block: seq<BlockOp>, x: nat, d: nat) {
    exists k :: 0 <= k < |block| && block[k].id == x && d in block[k].producers
  }

  /** The graph over the schedulable ops: an op depends on exactly the ops it reads from,
      counting only producers among the first `upTo` ops of the block. */
  ghost predicate GraphOf(deps: Dependencies, block: seq<BlockOp>, upTo: nat)
    requires upTo <= |block|
  {
    && (forall id :: id in deps <==> IsSchedulable(block, id))
    && (forall x, d :: x in deps ==>
          (d in deps[x] <==> Reads(block, x, d) && IsSchedulable(block[..upTo], d)))
  }

  lemma SchedulableStep(block: seq<BlockOp>, i: nat, id: nat)
    requires i < |block|
    ensures IsSchedulable(block[..i + 1], id) <==>
      IsSchedulable(block[..i], id) || (block[i].id == id && block[i].schedulable)
  {
    if IsSchedulable(block[..i], id) {
      var k :| 0 <= k < i && block[..i][k].id == id && block[..i][k].schedulable;
      assert block[..i + 1][k].id == id;
    }
    if IsSchedulable(block[..i + 1], id) {
      var k :| 0 <= k < i + 1 && block[..i + 1][k].id == id && block[..i + 1][k].schedulable;
      if k < i { assert block[..i][k].id == id; }
    }
    if block[i].id == id && block[i].schedulable { assert block[..i + 1][i].id == id; }
  }

  /** The users of an op are the ops that read from it, none of them the op itself. */
  lemma UsersRead(block: seq<BlockOp>, i: nat, x: nat)
    requires DefBeforeUse(block) && i < |block|
    ensures IsSchedulable(Users(block, block[i].id), x) <==> IsSchedulable(block, x) && Reads(block, x, block[i].id)
  {
    var id, users := block[i].id, Users(block, block[i].id);
    if IsSchedulable(users, x) {
      var k :| 0 <= k < |users| && users[k].id == x && users[k].schedulable;
      assert users[k] in block && id in users[k].producers;
      var j :| 0 <= j < |block| && block[j] == users[k];
      assert IsSchedulable(block, x) && Reads(block, x, id);
    }
    if IsSchedulable(block, x) && Reads(block, x, id) {
      var j :| 0 <= j < |block| && block[j].id == x && block[j].schedulable;
      var k :| 0 <= k < |block| && block[k].id == x && id in block[k].producers;
      assert j == k;
      assert block[k] in users;
      var u :| 0 <= u < |users| && users[u] == block[k];
      assert users[u].id == x;
    }
  }

  lemma NoSelfUse(block: seq<BlockOp>, i: nat, u: BlockOp)
    requires DefBeforeUse(block) && i < |block| && u in Users(block, block[i].id)
    ensures u.id != block[i].id
  {
    var k :| 0 <= k < |block| && block[k] == u;
    assert DefinedBefore(block, block[i].id, k);
    var j :| 0 <= j < k && block[j].id == block[i].id;
  }

  class Scheduler {
    var scheduledOps: set<nat>
    var schedule: seq<nat>
    var opsWithinFunc: seq<nat>
    var dependencies: Dependencies

    /** Nothing is scheduled yet; the graph is the def-use graph of the schedulable ops. */
    constructor (block: seq<BlockOp>)
      requires DefBeforeUse(block)
      ensures scheduledOps == {} && schedule == []
      ensures opsWithinFunc == SchedulableIds(block)
      ensures GraphOf(dependencies, block, |block|)
    {
      scheduledOps, schedule := {}, [];
      opsWithinFunc, dependencies := [], map[];
      new;
      CollectOps(block);
      var i := 0;
      while i < |block|
        invariant 0 <= i <= |block|
        invariant scheduledOps == {} && schedule == []
        invariant opsWithinFunc == SchedulableIds(block)
        invariant GraphOf(dependencies, block, i)
      {
        if block[i].schedulable {
          AddUses(block, i);
        } else {
          GraphSkips(dependencies, block, i);
        }
        i := i + 1;
      }
    }

    /** List the schedulable ops, each with no dependency so far. */
    method CollectOps(block: seq<BlockOp>)
      requires opsWithinFunc == [] && dependencies == map[]
      modifies this`opsWithinFunc, this`dependencies
      ensures opsWithinFunc == SchedulableIds(block)
      ensures GraphOf(dependencies, block, 0)
    {
      var i := 0;
      while i < |block|
        invariant 0 <= i <= |block|
        invariant opsWithinFunc == SchedulableIds(block[..i])
        invariant forall id :: id in dependencies <==> IsSchedulable(block[..i], id)
        invariant forall id :: id in dependencies ==> dependencies[id] == []
      {
        assert block[..i + 1][..i] == block[..i];
        forall id
          ensures IsSchedulable(block[..i + 1], id) <==>
            IsSchedulable(block[..i], id) || (block[i].id == id && block[i].schedulable)
        {
          SchedulableStep(block, i, id);
        }
        if block[i].schedulable {
          dependencies := dependencies[block[i].id := []];
          opsWithinFunc := opsWithinFunc + [block[i].id];
        }
        i := i + 1;
      }
      assert block[..|block|] == block;
    }

    /** Record the op as a dependency of every schedulable user. */
    method AddUses(block: seq<BlockOp>, i: nat)
      requires DefBeforeUse(block) && i < |block| && block[i].schedulable
      requires GraphOf(dependencies, block, i)
      modifies this`dependencies
      ensures GraphOf(dependencies, block, i + 1)
    {
      ghost var before := dependencies;
      UsersKnown(block, i);
      AppendTo(Users(block, block[i].id), block[i].id);
      GraphGrows(before, dependencies, block, i, Users(block, block[i].id));
    }

    method AppendTo(users: seq<BlockOp>, id: nat)
      requires forall u :: u in users ==> u.id != id && (u.schedulable ==> u.id in dependencies)
      modifies this`dependencies
      ensures Added(old(dependencies), dependencies, users, id)
    {
      ghost var before := dependencies;
      var u := 0;
      while u < |users|
        invariant 0 <= u <= |users|
        invariant Added(before, dependencies, users[..u], id)
      {
        AddOne(before, dependencies, users, u, id);
        var use := users[u];
        if use.schedulable && use.id != id {
          dependencies := dependencies[use.id := dependencies[use.id] + [id]];
        }
        u := u + 1;
      }
      assert users[..|users|] == users;
    }

    /** Looking up an unknown op gives it an empty dependency list. */
    method CanSchedule(op: nat) returns (can: bool)
      modifies this`dependencies
      ensures can <==> DependenciesMet(old(dependencies), scheduledOps, op)
      ensures dependencies == if op in old(dependencies) then old(dependencies) else old(dependencies)[op := []]
    {
      if op !in dependencies {
        dependencies := dependencies[op := []];
      }
      var i := 0;
      while i < |dependencies[op]|
        invariant 0 <= i <= |dependencies[op]|
        invariant forall k :: 0 <= k < i ==> dependencies[op][k] in scheduledOps
      {
        if dependencies[op][i] !in scheduledOps { return false; }
        i := i + 1;
      }
      return true;
    }

    /** Exactly the ready ops, those with a still-blocked successor first. */
    method GetSchedulableOps() returns (schedulableOps: seq<nat>)
      requires forall x :: x in opsWithinFunc ==> x in dependencies
      modifies this`dependencies
      ensures dependencies == old(dependencies)
      ensures schedulableOps ==
        Prioritized(ReadyOps(opsWithinFunc, dependencies, scheduledOps), opsWithinFunc, dependencies, scheduledOps)
      ensures forall x :: x in schedulableOps <==>
        x in opsWithinFunc && x !in scheduledOps && forall d :: d in dependencies[x] ==> d in scheduledOps
      ensures WaitersFirst(schedulableOps, opsWithinFunc, dependencies, scheduledOps)
      ensures KindsInOrder(schedulableOps, opsWithinFunc, opsWithinFunc, dependencies, scheduledOps)
    {
      schedulableOps := CollectReady();
      ReadyInOrder(opsWithinFunc, dependencies, scheduledOps);
      if |schedulableOps| <= 1 {
        SingletonPrioritized(schedulableOps, opsWithinFunc, dependencies, scheduledOps);
      } else {
        schedulableOps := StableSort(schedulableOps);
      }
    }

    method CollectReady() returns (schedulableOps: seq<nat>)
      requires forall x :: x in opsWithinFunc ==> x in dependencies
      modifies this`dependencies
      ensures dependencies == old(dependencies)
      ensures schedulableOps == ReadyOps(opsWithinFunc, dependencies, scheduledOps)
    {
      schedulableOps := [];
      ghost var deps := dependencies;
      var i := 0;
      while i < |opsWithinFunc|
        invariant 0 <= i <= |opsWithinFunc|
        invariant dependencies == deps
        invariant schedulableOps == ReadyOps(opsWithinFunc[..i], deps, scheduledOps)
      {
        assert opsWithinFunc[..i + 1][..i] == opsWithinFunc[..i];
        var op := opsWithinFunc[i];
        if op !in scheduledOps {
          var can := CanSchedule(op);
          if can { schedulableOps := schedulableOps + [op]; }
        }
        i := i + 1;
      }
      assert opsWithinFunc[..|opsWithinFunc|] == opsWithinFunc;
    }

    /** Whether scheduling `op` would leave some successor waiting for another op. */
    method HasBlocked(op: nat) returns (blocked: bool)
      ensures blocked <==> HasBlockedSuccessor(opsWithinFunc, dependencies, scheduledOps, op)
    {
      var i := 0;
      while i < |opsWithinFunc|
        invariant 0 <= i <= |opsWithinFunc|
        invariant forall k :: 0 <= k < i ==> !BlocksAt(opsWithinFunc[k], dependencies, scheduledOps, op)
      {
        var succ := opsWithinFunc[i];
        if succ != op && succ in dependencies && op in dependencies[succ] {
          var succDeps, j := dependencies[succ], 0;
          while j < |succDeps|
            invariant 0 <= j <= |succDeps|
            invariant forall k :: 0 <= k < j ==> succDeps[k] == op || succDeps[k] in scheduledOps
          {
            if succDeps[j] != op && succDeps[j] !in scheduledOps {
              assert BlocksAt(succ, dependencies, scheduledOps, op);
              return true;
            }
            j := j + 1;
          }
        }
        i := i + 1;
      }
      return false;
    }

    /** A stable sort by the two-valued key: insert each op behind the last one that must
        stay before it. */
    method StableSort(list: seq<nat>) returns (sorted: seq<nat>)
      ensures sorted == Prioritized(list, opsWithinFunc, dependencies, scheduledOps)
      ensures WaitersFirst(sorted, opsWithinFunc, dependencies, scheduledOps)
      ensures KindsInOrder(sorted, list, opsWithinFunc, dependencies, scheduledOps)
    {
      sorted := [];
      var front := 0;
      var i := 0;
      while i < |list|
        invariant 0 <= i <= |list|
        invariant sorted == Prioritized(list[..i], opsWithinFunc, dependencies, scheduledOps)
        invariant front == |Select(list[..i], opsWithinFunc, dependencies, scheduledOps, true)|
      {
        assert list[..i + 1][..i] == list[..i];
        var blocked := HasBlocked(list[i]);
        if blocked {
          sorted := sorted[..front] + [list[i]] + sorted[front..];
          front := front + 1;
        } else {
          sorted := sorted + [list[i]];
        }
        i := i + 1;
      }
      assert list[..|list|] == list;
      PrioritizedInOrder(list, opsWithinFunc, dependencies, scheduledOps);
    }

    method ScheduleOp(op: nat)
      requires op !in scheduledOps
      modifies this`scheduledOps, this`schedule
      ensures scheduledOps == old(scheduledOps) + {op}
      ensures schedule == old(schedule) + [op]
    {
      scheduledOps := scheduledOps + {op};
      schedule := schedule + [op];
    }

    /** Counting tells whether an op is left, as long as only ops of the function, each
        listed once, are scheduled. */
    method HasUnscheduledOps() returns (r: bool)
      ensures NoDuplicates(opsWithinFunc) && scheduledOps <= ToSet(opsWithinFunc) ==>
        (r <==> exists op :: op in opsWithinFunc && op !in scheduledOps)
      ensures r <==> |scheduledOps| < |opsWithinFunc|
    {
      r := |scheduledOps| < |opsWithinFunc|;
      if NoDuplicates(opsWithinFunc) && scheduledOps <= ToSet(opsWithinFunc) {
        FewerThanListed(scheduledOps, opsWithinFunc);
      }
    }

    constructor Copy(scheduler: Scheduler)
      ensures scheduledOps == scheduler.scheduledOps && schedule == scheduler.schedule
      ensures opsWithinFunc == scheduler.opsWithinFunc && dependencies == scheduler.dependencies
    {
      scheduledOps, schedule := scheduler.scheduledOps, scheduler.schedule;
      opsWithinFunc, dependencies := scheduler.opsWithinFunc, scheduler.dependencies;
    }

    /** A new scheduler in the same state; later steps of either leave the other alone. */
    method Snapshot() returns (copy: Scheduler)
      ensures fresh(copy)
      ensures copy.scheduledOps == scheduledOps && copy.schedule == schedule
      ensures copy.opsWithinFunc == opsWithinFunc && copy.dependencies == dependencies
    {
      copy := new Scheduler.Copy(this);
    }
  }

  lemma FewerThanListed(scheduled: set<nat>, ops: seq<nat>)
    requires NoDuplicates(ops) && scheduled <= ToSet(ops)
    ensures |scheduled| < |ops| <==> exists op :: op in ops && op !in scheduled
  {
    MembersSize(ops);
    SubsetSize(scheduled, ToSet(ops));
    if op :| op in ops && op !in scheduled { assert op in ToSet(ops); }
    if |scheduled| < |ops| {
      assert scheduled != ToSet(ops);
      var op :| op in ToSet(ops) && op !in scheduled;
      assert op in ops;
    }
  }

  lemma SingletonPrioritized(list: seq<nat>, ops: seq<nat>, deps: Dependencies, scheduled: set<nat>)
    requires |list| <= 1
    ensures Prioritized(list, ops, deps, scheduled) == list
  {
    assert Select([], ops, deps, scheduled, true) == [] == Select([], ops, deps, scheduled, false);
    if list != [] { assert list[..|list| - 1] == []; }
  }

  // ----- Every run -----

  /** Dependencies of an op stand before it in the op list. */
  ghost predicate DependenciesEarlier(ops: seq<nat>, deps: Dependencies) {
    forall i, d :: 0 <= i < |ops| && ops[i] in deps && d in deps[ops[i]] ==> d in ops[..i]
  }

  /** A sequence of choices, each taken from the list of ready ops at its time. */
  ghost predicate IsRun(ops: seq<nat>, deps: Dependencies, schedule: seq<nat>) {
    forall i :: 0 <= i < |schedule| ==> schedule[i] in ReadyOps(ops, deps, ToSet(schedule[..i]))
  }

  /** Every dependency of a scheduled op was scheduled before it. */
  ghost predicate Topological(deps: Dependencies, schedule: seq<nat>) {
    forall i, d :: 0 <= i < |schedule| && schedule[i] in deps && d in deps[schedule[i]] ==> d in schedule[..i]
  }

  lemma {:induction false} MembersSize(s: seq<nat>)
    requires NoDuplicates(s)
    ensures |ToSet(s)| == |s|
  {
    if s != [] {
      var n := |s| - 1;
      MembersSize(s[..n]);
      assert s == s[..n] + [s[n]];
      assert ToSet(s) == ToSet(s[..n]) + {s[n]};
      assert s[n] !in ToSet(s[..n]);
    }
  }

  /** Every run is free of duplicates, topological, and never longer than the op list. */
  lemma RunIsTopological(ops: seq<nat>, deps: Dependencies, schedule: seq<nat>)
    requires NoDuplicates(ops) && IsRun(ops, deps, schedule)
    ensures NoDuplicates(schedule) && Topological(deps, schedule)
    ensures ToSet(schedule) <= ToSet(ops) && |schedule| <= |ops|
  {
    forall i, j | 0 <= i < j < |schedule| ensures schedule[i] != schedule[j] {
      assert schedule[..j][i] == schedule[i];
    }
    forall i, d | 0 <= i < |schedule| && schedule[i] in deps && d in deps[schedule[i]] ensures d in schedule[..i] {
      assert d in ToSet(schedule[..i]);
    }
    MembersSize(schedule);
    MembersSize(ops);
    SubsetSize(ToSet(schedule), ToSet(ops));
  }

  /** While an op is missing there is a ready one: the first missing op in block order. */
  lemma ReadyWhileUnscheduled(ops: seq<nat>, deps: Dependencies, scheduled: set<nat>, i: nat)
    requires DependenciesEarlier(ops, deps) && i < |ops|
    requires ops[i] !in scheduled && forall k :: 0 <= k < i ==> ops[k] in scheduled
    ensures ops[i] in ReadyOps(ops, deps, scheduled)
  {
  }

  lemma {:induction false} FirstMissing(ops: seq<nat>, scheduled: set<nat>, from: nat) returns (i: nat)
    requires from <= |ops| && (forall k :: 0 <= k < from ==> ops[k] in scheduled)
    requires exists k :: 0 <= k < |ops| && ops[k] !in scheduled
    ensures i < |ops| && ops[i] !in scheduled && forall k :: 0 <= k < i ==> ops[k] in scheduled
    decreases |ops| - from
  {
    if ops[from] !in scheduled { i := from; } else { i := FirstMissing(ops, scheduled, from + 1); }
  }

  /** A run never gets stuck: it can be continued as long as ops are left, and when none is
      left it holds every op exactly once. */
  lemma RunProgresses(ops: seq<nat>, deps: Dependencies, schedule: seq<nat>)
    requires NoDuplicates(ops) && DependenciesEarlier(ops, deps) && IsRun(ops, deps, schedule)
    ensures |ToSet(schedule)| < |ops| <==> ReadyOps(ops, deps, ToSet(schedule)) != []
    ensures |ToSet(schedule)| == |ops| <==> multiset(schedule) == multiset(ops)
  {
    RunIsTopological(ops, deps, schedule);
    MembersSize(schedule);
    MembersSize(ops);
    SubsetSize(ToSet(schedule), ToSet(ops));
    if |ToSet(schedule)| < |ops| {
      if forall k :: 0 <= k < |ops| ==> ops[k] in ToSet(schedule) {
        SubsetSize(ToSet(ops), ToSet(schedule));
        assert false;
      }
      var i := FirstMissing(ops, ToSet(schedule), 0);
      ReadyWhileUnscheduled(ops, deps, ToSet(schedule), i);
      assert |multiset(schedule)| != |multiset(ops)|;
    } else {
      SameMembers(schedule, ops);
      assert forall x :: x in ops ==> x in ToSet(ops);
    }
  }

  lemma {:induction false} SameMembers(a: seq<nat>, b: seq<nat>)
    requires NoDuplicates(a) && NoDuplicates(b) && ToSet(a) == ToSet(b)
    ensures multiset(a) == multiset(b)
  {
    MultiplicityOne(a);
    MultiplicityOne(b);
    forall x ensures multiset(a)[x] == multiset(b)[x] {
      assert x in a <==> x in ToSet(a);
      assert x in b <==> x in ToSet(b);
    }
  }

  lemma {:induction false} MultiplicityOne(s: seq<nat>)
    requires NoDuplicates(s)
    ensures forall x :: multiset(s)[x] == if x in s then 1 else 0
  {
    if s != [] {
      var n := |s| - 1;
      MultiplicityOne(s[..n]);
      assert s == s[..n] + [s[n]];
      assert s[n] !in s[..n];
    }
  }

  /** A ready op stays ready until it is scheduled itself. */
  lemma StaysReady(ops: seq<nat>, deps: Dependencies, scheduled: set<nat>, op: nat, chosen: nat)
    requires op in ReadyOps(ops, deps, scheduled) && chosen in ReadyOps(ops, deps, scheduled) && op != chosen
    ensures op in ReadyOps(ops, deps, scheduled + {chosen})
  {
  }

  /** A run extended by any ready op is a run. */
  lemma RunExtends(ops: seq<nat>, deps: Dependencies, schedule: seq<nat>, op: nat)
    requires IsRun(ops, deps, schedule) && op in ReadyOps(ops, deps, ToSet(schedule))
    ensures IsRun(ops, deps, schedule + [op])
    ensures ToSet(schedule + [op]) == ToSet(schedule) + {op}
  {
    forall i | 0 <= i < |schedule| + 1
      ensures (schedule + [op])[i] in ReadyOps(ops, deps, ToSet((schedule + [op])[..i]))
    {
      assert (schedule + [op])[..i] == schedule[..i];
      if i == |schedule| { assert schedule[..i] == schedule; }
    }
  }

  /** The schedulable ids up to `n`: exactly the schedulable ops, once each, readers after
      what they read. */
  ghost predicate OrderedUpTo(block: seq<BlockOp>, n: nat)
    requires n <= |block|
  {
    var ids := SchedulableIds(block[..n]);
    && (forall x :: x in ids <==> IsSchedulable(block[..n], x))
    && NoDuplicates(ids)
    && (forall i, d :: 0 <= i < |ids| && Reads(block, ids[i], d) && IsSchedulable(block, d) ==> d in ids[..i])
  }

  lemma ProducerEarlier(block: seq<BlockOp>, n: nat, d: nat)
    requires DefBeforeUse(block) && n < |block| && Reads(block, block[n].id, d) && IsSchedulable(block, d)
    ensures IsSchedulable(block[..n], d)
  {
    var k :| 0 <= k < |block| && block[k].id == block[n].id && d in block[k].producers;
    assert k == n;
    assert DefinedBefore(block, d, n);
    var j :| 0 <= j < n && block[j].id == d;
    var l :| 0 <= l < |block| && block[l].id == d && block[l].schedulable;
    assert l == j;
    assert block[..n][j].id == d;
  }

  lemma OrderedStep(block: seq<BlockOp>, n: nat)
    requires DefBeforeUse(block) && n < |block| && OrderedUpTo(block, n)
    ensures OrderedUpTo(block, n + 1)
  {
    var ids := SchedulableIds(block[..n]);
    assert block[..n + 1][..n] == block[..n];
    var longer := SchedulableIds(block[..n + 1]);
    forall x ensures x in longer <==> IsSchedulable(block[..n + 1], x) { SchedulableStep(block, n, x); }
    if !block[n].schedulable { assert longer == ids; }
    if block[n].schedulable {
      assert longer == ids + [block[n].id];
      assert !IsSchedulable(block[..n], block[n].id) by {
        assert forall k :: 0 <= k < n ==> block[..n][k].id != block[n].id;
      }
      forall i, d | 0 <= i < |longer| && Reads(block, longer[i], d) && IsSchedulable(block, d)
        ensures d in longer[..i]
      {
        assert longer[..i] == ids[..i];
        if i == |ids| {
          ProducerEarlier(block, n, d);
          assert ids[..i] == ids;
        }
      }
    }
  }

  lemma {:induction false} OrderedAll(block: seq<BlockOp>, n: nat)
    requires DefBeforeUse(block) && n <= |block|
    ensures OrderedUpTo(block, n)
  {
    if n > 0 {
      OrderedAll(block, n - 1);
      OrderedStep(block, n - 1);
    }
  }

  /** The graph of a block in def-before-use order meets what the run lemmas ask for. */
  lemma BlockIsOrdered(block: seq<BlockOp>, deps: Dependencies)
    requires DefBeforeUse(block) && GraphOf(deps, block, |block|)
    ensures NoDuplicates(SchedulableIds(block))
    ensures DependenciesEarlier(SchedulableIds(block), deps)
    ensures forall x :: x in SchedulableIds(block) ==> x in deps
  {
    OrderedAll(block, |block|);
    assert block[..|block|] == block;
    var ids := SchedulableIds(block);
    forall i, d | 0 <= i < |ids| && ids[i] in deps && d in deps[ids[i]] ensures d in ids[..i] {
      assert Reads(block, ids[i], d) && IsSchedulable(block[..|block|], d);
    }
  }

  /** Every op stands after the schedulable ops it reads from. */
  ghost predicate RespectsReads(block: seq<BlockOp>, schedule: seq<nat>) {
    forall i, d :: 0 <= i < |schedule| && Reads(block, schedule[i], d) && IsSchedulable(block, d) ==> d in schedule[..i]
  }

  lemma TopologicalReads(block: seq<BlockOp>, deps: Dependencies, schedule: seq<nat>)
    requires GraphOf(deps, block, |block|) && Topological(deps, schedule)
    requires forall x :: x in schedule ==> x in deps
    ensures RespectsReads(block, schedule)
  {
    assert block[..|block|] == block;
    forall i, d | 0 <= i < |schedule| && Reads(block, schedule[i], d) && IsSchedulable(block, d)
      ensures d in schedule[..i]
    {
      assert schedule[i] in schedule;
      assert d in deps[schedule[i]];
    }
  }

  /** A finished run holds every schedulable op once, in an order that respects all reads. */
  lemma FinishedRun(block: seq<BlockOp>, ops: seq<nat>, deps: Dependencies, schedule: seq<nat>)
    requires DefBeforeUse(block) && GraphOf(deps, block, |block|) && ops == SchedulableIds(block)
    requires IsRun(ops, deps, schedule) && |ToSet(schedule)| >= |ops|
    ensures multiset(schedule) == multiset(ops) && RespectsReads(block, schedule)
  {
    BlockIsOrdered(block, deps);
    RunIsTopological(ops, deps, schedule);
    MembersSize(schedule);
    RunProgresses(ops, deps, schedule);
    forall x | x in schedule ensures x in deps { assert x in ToSet(schedule); }
    TopologicalReads(block, deps, schedule);
  }

  lemma RunStep(ops: seq<nat>, deps: Dependencies, schedule: seq<nat>, op: nat)
    requires NoDuplicates(ops) && IsRun(ops, deps, schedule) && op in ReadyOps(ops, deps, ToSet(schedule))
    ensures IsRun(ops, deps, schedule + [op]) && ToSet(schedule + [op]) == ToSet(schedule) + {op}
    ensures |schedule| + 1 <= |ops|
  {
    RunExtends(ops, deps, schedule, op);
    RunIsTopological(ops, deps, schedule + [op]);
  }

  /** Schedule one of the offered ops, whichever. */
  method ScheduleAny(s: Scheduler) returns (op: nat)
    requires forall x :: x in s.opsWithinFunc ==> x in s.dependencies
    requires ReadyOps(s.opsWithinFunc, s.dependencies, s.scheduledOps) != []
    modifies s
    ensures s.opsWithinFunc == old(s.opsWithinFunc) && s.dependencies == old(s.dependencies)
    ensures op in ReadyOps(s.opsWithinFunc, s.dependencies, old(s.scheduledOps))
    ensures s.scheduledOps == old(s.scheduledOps) + {op} && s.schedule == old(s.schedule) + [op]
  {
    var offered := s.GetSchedulableOps();
    PrioritizedKeepsLength(ReadyOps(s.opsWithinFunc, s.dependencies, s.scheduledOps), s.opsWithinFunc,
                           s.dependencies, s.scheduledOps);
    var k: nat :| k < |offered|;
    op := offered[k];
    assert op in offered;
    s.ScheduleOp(op);
  }

  /** Keep scheduling any offered op until nothing is left. */
  method RunToEnd(s: Scheduler) returns (steps: nat)
    requires s.scheduledOps == {} && s.schedule == []
    requires NoDuplicates(s.opsWithinFunc) && DependenciesEarlier(s.opsWithinFunc, s.dependencies)
    requires forall x :: x in s.opsWithinFunc ==> x in s.dependencies
    modifies s
    ensures s.opsWithinFunc == old(s.opsWithinFunc) && s.dependencies == old(s.dependencies)
    ensures IsRun(s.opsWithinFunc, s.dependencies, s.schedule)
    ensures |ToSet(s.schedule)| >= |s.opsWithinFunc|
    ensures steps == |s.schedule|
  {
    ghost var ops, deps := s.opsWithinFunc, s.dependencies;
    steps := 0;
    var more := s.HasUnscheduledOps();
    while more
      invariant s.opsWithinFunc == ops && s.dependencies == deps
      invariant s.scheduledOps == ToSet(s.schedule) && IsRun(ops, deps, s.schedule)
      invariant more <==> |ToSet(s.schedule)| < |ops|
      invariant steps == |s.schedule| <= |ops|
      decreases |ops| - steps
    {
      RunProgresses(ops, deps, s.schedule);
      ghost var before := s.schedule;
      var op := ScheduleAny(s);
      RunStep(ops, deps, before, op);
      steps := steps + 1;
      more := s.HasUnscheduledOps();
    }
  }

  /** Scheduling a whole function gives every schedulable op once, in |ops| steps, each after
      what it reads. */
  method ScheduleAll(block: seq<BlockOp>) returns (schedule: seq<nat>, steps: nat)
    requires DefBeforeUse(block)
    ensures multiset(schedule) == multiset(SchedulableIds(block)) && RespectsReads(block, schedule)
    ensures steps == |SchedulableIds(block)|
  {
    var s := new Scheduler(block);
    BlockIsOrdered(block, s.dependencies);
    steps := RunToEnd(s);
    schedule := s.schedule;
    FinishedRun(block, s.opsWithinFunc, s.dependencies, schedule);
    assert |multiset(schedule)| == |schedule| && |multiset(SchedulableIds(block))| == |SchedulableIds(block)|;
  }

  lemma GraphSkips(deps: Dependencies, block: seq<BlockOp>, i: nat)
    requires i < |block| && !block[i].schedulable && GraphOf(deps, block, i)
    ensures GraphOf(deps, block, i + 1)
  {
    forall x, d | x in deps
      ensures d in deps[x] <==> Reads(block, x, d) && IsSchedulable(block[..i + 1], d)
    {
      SchedulableStep(block, i, d);
    }
  }

  /** `after` is `before` with `id` added for every schedulable user. */
  ghost predicate Added(before: Dependencies, after: Dependencies, users: seq<BlockOp>, id: nat) {
    && after.Keys == before.Keys
    && forall x, d :: x in before ==> (d in after[x] <==> d in before[x] || (d == id && IsSchedulable(users, x)))
  }

  lemma AddOne(before: Dependencies, now: Dependencies, users: seq<BlockOp>, u: nat, id: nat)
    requires u < |users| && Added(before, now, users[..u], id)
    requires users[u].schedulable ==> users[u].id in before
    ensures !users[u].schedulable ==> Added(before, now, users[..u + 1], id)
    ensures users[u].schedulable ==>
      Added(before, now[users[u].id := now[users[u].id] + [id]], users[..u + 1], id)
  {
    var after := if users[u].schedulable then now[users[u].id := now[users[u].id] + [id]] else now;
    forall x, d | x in before
      ensures d in after[x] <==> d in before[x] || (d == id && IsSchedulable(users[..u + 1], x))
    {
      SchedulableStep(users, u, x);
      assert d in now[x] <==> d in before[x] || (d == id && IsSchedulable(users[..u], x));
    }
  }

  /** The schedulable users of op `i` are the schedulable ops that read from it. */
  ghost predicate AreUsers(users: seq<BlockOp>, block: seq<BlockOp>, id: nat) {
    forall x :: IsSchedulable(users, x) <==> IsSchedulable(block, x) && Reads(block, x, id)
  }

  lemma UsersKnown(block: seq<BlockOp>, i: nat)
    requires DefBeforeUse(block) && i < |block|
    ensures AreUsers(Users(block, block[i].id), block, block[i].id)
    ensures forall u :: u in Users(block, block[i].id) ==>
      u.id != block[i].id && (u.schedulable ==> IsSchedulable(block, u.id))
  {
    forall x
      ensures IsSchedulable(Users(block, block[i].id), x) <==> IsSchedulable(block, x) && Reads(block, x, block[i].id)
    {
      UsersRead(block, i, x);
    }
    forall u | u in Users(block, block[i].id)
      ensures u.id != block[i].id && (u.schedulable ==> IsSchedulable(block, u.id))
    {
      NoSelfUse(block, i, u);
      assert u in block;
    }
  }

  lemma GraphGrows(before: Dependencies, after: Dependencies, block: seq<BlockOp>, i: nat, users: seq<BlockOp>)
    requires i < |block| && block[i].schedulable && GraphOf(before, block, i)
    requires AreUsers(users, block, block[i].id) && Added(before, after, users, block[i].id)
    ensures GraphOf(after, block, i + 1)
  {
    forall x, d | x in after
      ensures d in after[x] <==> Reads(block, x, d) && IsSchedulable(block[..i + 1], d)
    {
      SchedulableStep(block, i, d);
      assert d in before[x] <==> Reads(block, x, d) && IsSchedulable(block[..i], d);
      assert d in after[x] <==> d in before[x] || (d == block[i].id && IsSchedulable(users, x));
    }
  }
}
