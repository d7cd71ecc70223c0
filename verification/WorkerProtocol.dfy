/** The two-party queue protocol between ProcessManager and its persistent worker, as a
    state machine whose steps interleave freely. Tasks are numbered by submission; a task's
    result carries its number. */
module WorkerProtocol {
  import opened Common

  datatype Message = Work(task: nat) | Exit

  /** Busy: executing a task, whose result is posted or not yet. Gone: no live process. */
  datatype Worker = Idle | Busy(task: nat, posted: bool) | Gone

  /** Where the parent stands: between calls, inside run() for a call, or inside stop(),
      which a timed-out call or a caller of its own may have entered. */
  datatype Parent =
    | Ready
    | Submitting
    | Waiting(call: nat)
    | GotResult(call: nat, answer: nat)
    | NoResult(call: nat)
    | InStop(caller: Option<nat>)
    | Joining(caller: Option<nat>)

  datatype Event =
    | Returned(call: nat, answer: nat)   // run() hands the answer back (as value or error)
    | Discarded(call: nat, answer: nat)  // an answer came, but the worker was gone
    | LiveTimeout(call: nat)             // no answer in time, worker alive: stop it
    | Crashed(call: nat)                 // no answer in time, worker gone

  datatype State = State(next: nat, tasks: seq<Message>, results: seq<nat>, worker: Worker, parent: Parent,
                         log: seq<Event>)

  predicate Init(s: State) {
    s == State(0, [], [], Gone, Ready, [])
  }

  predicate Alive(s: State) {
    !s.worker.Gone?
  }

  // ----- Parent steps -----

  /** _ensure_process_is_alive: a new worker if there is none. */
  predicate EnsureAlive(s: State, s': State) {
    s.parent.Ready? && s' == s.(parent := Submitting, worker := if Alive(s) then s.worker else Idle)
  }

  predicate Submit(s: State, s': State) {
    s.parent.Submitting? && s' == s.(parent := Waiting(s.next), tasks := s.tasks + [Work(s.next)], next := s.next + 1)
  }

  predicate TakeResult(s: State, s': State) {
    s.parent.Waiting? && s.results != [] &&
    s' == s.(parent := GotResult(s.parent.call, s.results[0]), results := s.results[1..])
  }

  predicate GiveUp(s: State, s': State) {
    s.parent.Waiting? && s.results == [] && s' == s.(parent := NoResult(s.parent.call))
  }

  predicate CheckAfterResult(s: State, s': State) {
    s.parent.GotResult? &&
    s' == s.(parent := Ready, log := s.log + [if Alive(s) then Returned(s.parent.call, s.parent.answer)
                                              else Discarded(s.parent.call, s.parent.answer)])
  }

  predicate CheckAfterTimeout(s: State, s': State) {
    s.parent.NoResult? &&
    s' == if Alive(s) then s.(parent := InStop(Some(s.parent.call)), log := s.log + [LiveTimeout(s.parent.call)])
          else s.(parent := Ready, log := s.log + [Crashed(s.parent.call)])
  }

  predicate CallStop(s: State, s': State) {
    s.parent.Ready? && s' == s.(parent := InStop(None))
  }

  predicate SendExit(s: State, s': State) {
    s.parent.InStop? &&
    s' == if Alive(s) then s.(parent := Joining(s.parent.caller), tasks := s.tasks + [Exit])
          else s.(parent := Ready)
  }

  predicate Join(s: State, s': State) {
    s.parent.Joining? && !Alive(s) && s' == s.(parent := Ready)
  }

  predicate ParentStep(s: State, s': State) {
    || EnsureAlive(s, s') || Submit(s, s') || TakeResult(s, s') || GiveUp(s, s') || CheckAfterResult(s, s')
    || CheckAfterTimeout(s, s') || CallStop(s, s') || SendExit(s, s') || Join(s, s')
  }

  // ----- Worker steps -----

  predicate TakeTask(s: State, s': State) {
    s.worker.Idle? && s.tasks != [] &&
    s' == s.(tasks := s.tasks[1..], worker := if s.tasks[0].Exit? then Gone else Busy(s.tasks[0].task, false))
  }

  predicate Post(s: State, s': State) {
    s.worker.Busy? && !s.worker.posted
      && s' == s.(results := s.results + [s.worker.task], worker := Busy(s.worker.task, true))
  }

  predicate Finish(s: State, s': State) {
    s.worker.Busy? && s.worker.posted && s' == s.(worker := Idle)
  }

  predicate WorkerStep(s: State, s': State) {
    TakeTask(s, s') || Post(s, s') || Finish(s, s')
  }

  /** The worker is killed by the task it executes, before the result is out. */
  predicate DieExecuting(s: State, s': State) {
    s.worker.Busy? && !s.worker.posted && s' == s.(worker := Gone)
  }

  /** The worker is killed at any moment whatever. */
  predicate DieAnytime(s: State, s': State) {
    Alive(s) && s' == s.(worker := Gone)
  }

  predicate Next(s: State, s': State) {
    ParentStep(s, s') || WorkerStep(s, s') || DieAnytime(s, s')
  }

  predicate NextExecuting(s: State, s': State) {
    ParentStep(s, s') || WorkerStep(s, s') || DieExecuting(s, s')
  }

  ghost predicate IsRun(run: seq<State>) {
    run != [] && Init(run[0]) && forall i :: 0 <= i < |run| - 1 ==> Next(run[i], run[i + 1])
  }

  ghost predicate IsRunExecuting(run: seq<State>) {
    run != [] && Init(run[0]) && forall i :: 0 <= i < |run| - 1 ==> NextExecuting(run[i], run[i + 1])
  }

  // ----- Order, uniqueness, and no answers from the future -----

  function WorkOf(m: Message): seq<nat> {
    if m.Work? then [m.task] else []
  }

  function WorksIn(tasks: seq<Message>): seq<nat> {
    if tasks == [] then [] else WorkOf(tasks[0]) + WorksIn(tasks[1..])
  }

  lemma {:induction false} WorksInConcat(a: seq<Message>, b: seq<Message>)
    ensures WorksIn(a + b) == WorksIn(a) + WorksIn(b)
  {
    if a == [] {
      assert a + b == b;
    } else {
      WorksInConcat(a[1..], b);
      assert (a + b)[0] == a[0] && (a + b)[1..] == a[1..] + b;
      Reassociate(WorkOf(a[0]), WorksIn(a[1..]), WorksIn(b));
    }
  }

  lemma Reassociate(x: seq<nat>, y: seq<nat>, z: seq<nat>)
    ensures x + (y + z) == (x + y) + z
  {
  }

  /** Unanswered and undelivered task numbers, oldest first: held by the parent, posted,
      being executed, queued. */
  function Held(s: State): seq<nat> { if s.parent.GotResult? then [s.parent.answer] else [] }

  function Executing(s: State): seq<nat> { if s.worker.Busy? && !s.worker.posted then [s.worker.task] else [] }

  function Pipeline(s: State): seq<nat> {
    Held(s) + s.results + (Executing(s) + WorksIn(s.tasks))
  }

  ghost predicate Increasing(q: seq<nat>) {
    forall i, j :: 0 <= i < j < |q| ==> q[i] < q[j]
  }

  /** Answers handed back so far, in order. */
  function Answers(log: seq<Event>): (r: seq<nat>)
    ensures forall x :: x in r <==>
            exists i :: 0 <= i < |log| && (log[i].Returned? || log[i].Discarded?) && log[i].answer == x
  {
    if log == [] then []
    else
      var n := |log| - 1;
      var front := Answers(log[..n]);
      assert log == log[..n] + [log[n]];
      if log[n].Returned? || log[n].Discarded? then front + [log[n].answer] else front
  }

  predicate CallKnown(s: State) {
    match s.parent
    case Waiting(k) => s.next == k + 1
    case GotResult(k, _) => s.next == k + 1
    case NoResult(k) => s.next == k + 1
    case _ => true
  }

  /** Delivered and undelivered numbers together ascend and belong to submitted tasks. */
  ghost predicate Orderly(s: State) {
    && CallKnown(s)
    && Increasing(Answers(s.log) + Pipeline(s) + [s.next])
    && AnswersBounded(s.log, s.next)
  }

  /** No call was handed the answer to a task submitted after it. */
  ghost predicate AnswersBounded(log: seq<Event>, next: nat) {
    forall i :: 0 <= i < |log| && log[i].Returned? ==> log[i].answer <= log[i].call < next
  }

  lemma DropMiddle(x: seq<nat>, m: seq<nat>, y: seq<nat>)
    requires Increasing(x + (m + y))
    ensures Increasing(x + y)
  {
    var whole, part := x + (m + y), x + y;
    forall i, j | 0 <= i < j < |part| ensures part[i] < part[j] {
      var i' := if i < |x| then i else i + |m|;
      var j' := if j < |x| then j else j + |m|;
      assert whole[i'] == part[i] && whole[j'] == part[j];
    }
  }

  /** Everything in order of submission: handed back, pending, and the next number. */
  function Everything(s: State): seq<nat> {
    Answers(s.log) + Pipeline(s) + [s.next]
  }

  lemma WorkerStepKeepsOrder(s: State, s': State)
    requires WorkerStep(s, s')
    ensures Everything(s') == Everything(s)
  {
    if TakeTask(s, s') {
      assert Executing(s') + WorksIn(s'.tasks) == Executing(s) + WorksIn(s.tasks);
    } else if Post(s, s') {
      assert s'.results + (Executing(s') + WorksIn(s'.tasks)) == s.results + (Executing(s) + WorksIn(s.tasks));
      assert Pipeline(s') == Held(s) + (s.results + (Executing(s) + WorksIn(s.tasks))) == Pipeline(s);
    } else {
      assert Pipeline(s') == Pipeline(s);
    }
  }

  lemma AnswersAppend(log: seq<Event>, e: Event)
    ensures Answers(log + [e]) == Answers(log) + (if e.Returned? || e.Discarded? then [e.answer] else [])
  {
    assert (log + [e])[..|log|] == log;
  }

  lemma SubmittedPipeline(s: State, s': State)
    requires Submit(s, s')
    ensures Pipeline(s') == Pipeline(s) + [s.next]
  {
    WorksInConcat(s.tasks, [Work(s.next)]);
    assert [Work(s.next)][1..] == [];
    assert WorksIn([Work(s.next)]) == [s.next] + [];
  }

  lemma SubmitAppends(s: State, s': State)
    requires Submit(s, s')
    ensures Everything(s') == Everything(s) + [s'.next]
  {
    SubmittedPipeline(s, s');
    Reassociate(Answers(s.log), Pipeline(s), [s.next]);
  }

  lemma TakeResultKeepsOrder(s: State, s': State)
    requires TakeResult(s, s')
    ensures Everything(s') == Everything(s)
  {
    assert Held(s') + s'.results == Held(s) + s.results;
    assert Pipeline(s') == Pipeline(s);
  }

  lemma CheckKeepsOrder(s: State, s': State)
    requires CheckAfterResult(s, s')
    ensures Everything(s') == Everything(s)
  {
    AnswersAppend(s.log, s'.log[|s.log|]);
    assert Pipeline(s) == Held(s) + Pipeline(s');
    assert Answers(s'.log) + Pipeline(s') == Answers(s.log) + Pipeline(s);
  }

  lemma OtherStepsKeepOrder(s: State, s': State)
    requires EnsureAlive(s, s') || GiveUp(s, s') || CheckAfterTimeout(s, s') || CallStop(s, s')
      || SendExit(s, s') || Join(s, s')
    ensures Everything(s') == Everything(s)
  {
    if CheckAfterTimeout(s, s') {
      AnswersAppend(s.log, s'.log[|s.log|]);
    } else if SendExit(s, s') {
      WorksInConcat(s.tasks, [Exit]);
      assert [Exit][1..] == [];
    }
    assert Pipeline(s') == Pipeline(s);
  }

  lemma EverythingSplit(s: State)
    ensures Everything(s) ==
      (Answers(s.log) + Held(s) + s.results) + (Executing(s) + (WorksIn(s.tasks) + [s.next]))
  {
  }

  lemma DeathKeepsOrder(s: State, s': State)
    requires DieAnytime(s, s') && Increasing(Everything(s))
    ensures Increasing(Everything(s'))
  {
    EverythingSplit(s);
    EverythingSplit(s');
    var front, back := Answers(s.log) + Held(s) + s.results, WorksIn(s.tasks) + [s.next];
    DropMiddle(front, Executing(s), back);
    assert Executing(s') + back == back;
  }

  lemma ExtendIncreasing(q: seq<nat>, n: nat)
    requires Increasing(q) && (q == [] || q[|q| - 1] < n)
    ensures Increasing(q + [n])
  {
  }

  lemma OrderStep(s: State, s': State)
    requires Increasing(Everything(s)) && Next(s, s')
    ensures Increasing(Everything(s'))
  {
    if Submit(s, s') {
      SubmitAppends(s, s');
      ExtendIncreasing(Everything(s), s'.next);
    } else if TakeResult(s, s') {
      TakeResultKeepsOrder(s, s');
    } else if CheckAfterResult(s, s') {
      CheckKeepsOrder(s, s');
    } else if ParentStep(s, s') {
      OtherStepsKeepOrder(s, s');
    } else if WorkerStep(s, s') {
      WorkerStepKeepsOrder(s, s');
    } else {
      DeathKeepsOrder(s, s');
    }
  }

  lemma OrderlyStep(s: State, s': State)
    requires Orderly(s) && Next(s, s')
    ensures Orderly(s')
  {
    OrderStep(s, s');
    if s.parent.GotResult? { AnswerInOrder(s); }
    BoundedStep(s, s');
  }

  lemma BoundedStep(s: State, s': State)
    requires CallKnown(s) && AnswersBounded(s.log, s.next) && Next(s, s')
    requires s.parent.GotResult? ==> s.parent.answer < s.next
    ensures CallKnown(s') && AnswersBounded(s'.log, s'.next)
  {
  }

  lemma AnswerInOrder(s: State)
    requires Orderly(s) && s.parent.GotResult?
    ensures s.parent.answer < s.next
  {
    var all, i := Everything(s), |Answers(s.log)|;
    assert all[i] == s.parent.answer && all[|all| - 1] == s.next;
  }

  lemma {:induction false} RunOrderly(run: seq<State>, n: nat)
    requires IsRun(run) && n < |run|
    ensures Orderly(run[n])
    decreases n
  {
    if n == 0 {
      assert Answers([]) == [] && Everything(run[0]) == [0];
    } else {
      RunOrderly(run, n - 1);
      assert Next(run[n - 1], run[n - 1 + 1]);
      OrderlyStep(run[n - 1], run[n]);
    }
  }

  /** In every run, whenever workers die: answers come back in submission order, none twice,
      and no call's answer, the last and the only one included, is from a task submitted
      after it. */
  lemma AnswersInOrder(run: seq<State>, n: nat, i: nat, j: nat)
    requires IsRun(run) && n < |run| && i <= j < |run[n].log|
    requires run[n].log[i].Returned? && run[n].log[j].Returned?
    ensures i < j ==> run[n].log[i].answer < run[n].log[j].answer
    ensures run[n].log[i].answer <= run[n].log[i].call && run[n].log[j].answer <= run[n].log[j].call
  {
    RunOrderly(run, n);
    if i < j {
      var s := run[n];
      AnswerPlace(s.log, i);
      AnswerPlace(s.log, j);
      LaterPlace(s.log, i, j);
      assert Answers(s.log) <= Everything(s);
    }
  }

  /** An answer's place among all answers is the number of answers before it. */
  lemma AnswerPlace(log: seq<Event>, i: nat)
    requires i < |log| && log[i].Returned?
    ensures var a := |Answers(log[..i])|; a < |Answers(log)| && Answers(log)[a] == log[i].answer
  {
    AnswersOfPrefix(log, i + 1);
    AnswersAppend(log[..i], log[i]);
    assert log[..i] + [log[i]] == log[..i + 1];
  }

  lemma LaterPlace(log: seq<Event>, i: nat, j: nat)
    requires i < j < |log| && log[i].Returned?
    ensures |Answers(log[..i])| < |Answers(log[..j])|
  {
    AnswerPlace(log[..j], i);
    assert log[..j][..i] == log[..i];
  }

  lemma {:induction false} AnswersOfPrefix(log: seq<Event>, n: nat)
    requires n <= |log|
    ensures Answers(log[..n]) <= Answers(log)
    decreases |log|
  {
    if n == |log| {
      assert log[..n] == log;
    } else {
      AnswersOfPrefix(log[..|log| - 1], n);
      assert log[..|log| - 1][..n] == log[..n];
    }
  }

  // ----- A call's own answer, exactly -----

  /** The answers call `k` was handed are its own exactly when `empty`. */
  predicate Answered(log: seq<Event>, k: nat, empty: bool) {
    forall i :: 0 <= i < |log| && log[i].Returned? && log[i].call == k ==> (log[i].answer == k <==> empty)
  }

  /** What call `k` waits for. Submitted to an empty pipeline, it can only meet its own task;
      otherwise another task's number stands first, or nobody is left to answer. */
  predicate Awaits(s: State, k: nat, empty: bool) {
    if empty then forall x :: x in Pipeline(s) ==> x == k
    else (Pipeline(s) != [] && Pipeline(s)[0] != k) || (!Alive(s) && s.results == [])
  }

  /** What holds of call `k` from its submission on. */
  predicate Fated(s: State, k: nat, empty: bool) {
    && k < s.next && Answered(s.log, k, empty)
    && (s.parent == Waiting(k) ==> Awaits(s, k, empty))
    && (s.parent.GotResult? && s.parent.call == k ==> (s.parent.answer == k <==> empty))
  }

  lemma SubmittedFate(s: State, s': State)
    requires Orderly(s) && Submit(s, s')
    ensures Fated(s', s.next, Pipeline(s) == [])
  {
    SubmittedPipeline(s, s');
    if Pipeline(s) != [] {
      var all, i := Everything(s), |Answers(s.log)|;
      assert all[i] == Pipeline(s)[0] && all[|all| - 1] == s.next;
    }
  }

  lemma AnsweredAppend(log: seq<Event>, e: Event, k: nat, empty: bool)
    requires Answered(log, k, empty)
    requires e.Returned? && e.call == k ==> (e.answer == k <==> empty)
    ensures Answered(log + [e], k, empty)
  {
  }

  /** Whatever a live worker does, and whenever it dies, the call still waits for the same. */
  lemma WorkerKeepsAwaiting(s: State, s': State, k: nat, empty: bool)
    requires (WorkerStep(s, s') || DieAnytime(s, s')) && s.parent == Waiting(k) && Awaits(s, k, empty)
    ensures Awaits(s', k, empty)
  {
    if WorkerStep(s, s') {
      WorkerStepKeepsOrder(s, s');
      PipelineKept(s, s');
    } else {
      assert Pipeline(s) == s.results + (Executing(s) + WorksIn(s.tasks));
      assert Pipeline(s') == s.results + WorksIn(s.tasks);
      forall x | x in Pipeline(s') ensures x in Pipeline(s) { }
    }
  }

  lemma PipelineKept(s: State, s': State)
    requires Everything(s') == Everything(s) && s'.log == s.log && s'.next == s.next
    ensures Pipeline(s') == Pipeline(s)
  {
    var a := |Answers(s.log)|;
    assert Everything(s)[a..|Everything(s)| - 1] == Pipeline(s);
    assert Everything(s')[a..|Everything(s')| - 1] == Pipeline(s');
  }

  lemma TakenFate(s: State, s': State, k: nat, empty: bool)
    requires TakeResult(s, s') && s.parent == Waiting(k) && Awaits(s, k, empty)
    ensures s'.parent.answer == k <==> empty
  {
    assert Pipeline(s)[0] == s.results[0] && Pipeline(s)[0] in Pipeline(s);
  }

  lemma FateStep(s: State, s': State, k: nat, empty: bool)
    requires Next(s, s') && Fated(s, k, empty)
    ensures Fated(s', k, empty)
  {
    if CheckAfterResult(s, s') || CheckAfterTimeout(s, s') {
      AnsweredAppend(s.log, s'.log[|s.log|], k, empty);
      assert s'.log == s.log + [s'.log[|s.log|]];
    } else if s.parent == Waiting(k) {
      if TakeResult(s, s') { TakenFate(s, s', k, empty); }
      else if WorkerStep(s, s') || DieAnytime(s, s') { WorkerKeepsAwaiting(s, s', k, empty); }
    }
  }

  lemma FateStepOfRun(run: seq<State>, n: nat, k: nat, empty: bool)
    requires IsRun(run) && 0 < n < |run| && Fated(run[n - 1], k, empty)
    ensures Fated(run[n], k, empty)
  {
    var i := n - 1;
    assert Next(run[i], run[i + 1]);
    FateStep(run[i], run[n], k, empty);
  }

  lemma {:induction false} RunFated(run: seq<State>, m: nat, n: nat)
    requires IsRun(run) && m + 1 <= n < |run| && Submit(run[m], run[m + 1])
    ensures Fated(run[n], run[m].next, Pipeline(run[m]) == [])
    decreases n
  {
    if n == m + 1 {
      RunOrderly(run, m);
      SubmittedFate(run[m], run[m + 1]);
    } else {
      RunFated(run, m, n - 1);
      FateStepOfRun(run, n, run[m].next, Pipeline(run[m]) == []);
    }
  }

  /** In every run, whenever workers die: a call's answer is its own exactly when nothing was
      pending at its submission, neither posted nor executing nor queued. */
  lemma OwnAnswerExactlyWhen(run: seq<State>, m: nat, n: nat, i: nat)
    requires IsRun(run) && m + 1 <= n < |run| && Submit(run[m], run[m + 1])
    requires i < |run[n].log| && run[n].log[i].Returned? && run[n].log[i].call == run[m].next
    ensures run[n].log[i].answer == run[n].log[i].call <==> Pipeline(run[m]) == []
  {
    RunFated(run, m, n);
  }

  /** Every call known to the parent was submitted at some step. */
  lemma {:induction false} SubmittedAt(run: seq<State>, n: nat, k: nat) returns (m: nat)
    requires IsRun(run) && n < |run| && k < run[n].next
    ensures m < n && Submit(run[m], run[m + 1]) && run[m].next == k
    decreases n
  {
    assert Next(run[n - 1], run[n - 1 + 1]);
    if k < run[n - 1].next { m := SubmittedAt(run, n - 1, k); } else { m := n - 1; }
  }

  lemma {:induction false} LogGrows(run: seq<State>, m: nat, n: nat)
    requires IsRun(run) && m <= n < |run|
    ensures run[m].log <= run[n].log
    decreases n
  {
    if m < n {
      LogGrows(run, m, n - 1);
      assert Next(run[n - 1], run[n - 1 + 1]);
    }
  }

  // ----- When nothing is pending -----

  predicate NoLiveTimeout(log: seq<Event>) {
    forall i :: 0 <= i < |log| ==> !log[i].LiveTimeout?
  }

  predicate Empty(s: State) {
    s.tasks == [] && s.results == [] && Executing(s) == []
  }

  /** The current call's task is queued, running or answered under a live worker, or it
      took the worker down with it. */
  predicate OwnTaskOnly(s: State, k: nat) {
    || (Alive(s) && Executing(s) == [] && s.tasks == [Work(k)] && s.results == [])
    || (Executing(s) == [k] && s.tasks == [] && s.results == [])
    || (Alive(s) && Executing(s) == [] && s.tasks == [] && s.results == [k])
    || (!Alive(s) && Empty(s))
  }

  /** Nothing pending except the current call's own task. */
  predicate Clean(s: State) {
    && CallKnown(s)
    && match s.parent
       case Ready => Empty(s)
       case Submitting => Empty(s) && Alive(s)
       case Waiting(k) => OwnTaskOnly(s, k)
       case NoResult(k) => OwnTaskOnly(s, k)
       case GotResult(k, r) => r == k && Empty(s)
       case InStop(c) => c == None && Empty(s)
       case Joining(c) =>
         c == None && s.results == [] && Executing(s) == [] && s.tasks == (if Alive(s) then [Exit] else [])
  }

  lemma CleanStep(s: State, s': State)
    requires NextExecuting(s, s') && Clean(s)
    ensures Clean(s') || (CheckAfterTimeout(s, s') && Alive(s))
  {
  }

  lemma ExecutingIsRun(run: seq<State>)
    requires IsRunExecuting(run)
    ensures IsRun(run)
  {
    forall i | 0 <= i < |run| - 1 ensures Next(run[i], run[i + 1]) { assert NextExecuting(run[i], run[i + 1]); }
  }

  lemma {:induction false} RunClean(run: seq<State>, n: nat)
    requires IsRunExecuting(run) && n < |run| && NoLiveTimeout(run[n].log)
    ensures Clean(run[n])
    decreases n
  {
    if n > 0 {
      ExecutingIsRun(run);
      LogGrows(run, n - 1, n);
      var s, s' := run[n - 1], run[n - 1 + 1];
      assert NextExecuting(s, s');
      assert forall i :: 0 <= i < |s.log| ==> s'.log[i] == s.log[i];
      RunClean(run, n - 1);
      CleanStep(s, s');
      if CheckAfterTimeout(s, s') && Alive(s) { assert !s'.log[|s.log|].LiveTimeout?; }
    }
  }

  /** If workers die only while executing a task, a call gets its own answer whenever no
      earlier call gave up on a live worker: nothing is pending then. */
  lemma AnswerIsOwn(run: seq<State>, n: nat, i: nat)
    requires IsRunExecuting(run) && n < |run| && i < |run[n].log| && run[n].log[i].Returned?
    requires NoLiveTimeout(run[n].log[..i])
    ensures run[n].log[i].answer == run[n].log[i].call
  {
    ExecutingIsRun(run);
    RunOrderly(run, n);
    var k := run[n].log[i].call;
    var m := SubmittedAt(run, n, k);
    RunOrderly(run, m);
    LogGrows(run, m, n);
    assert |run[m].log| <= i by { LogBeforeCall(run[m].log, run[n].log, i, k); }
    assert forall j :: 0 <= j < |run[m].log| ==> run[m].log[j] == run[n].log[..i][j];
    RunClean(run, m);
    assert Pipeline(run[m]) == [];
    OwnAnswerExactlyWhen(run, m, n, i);
  }

  /** Before a call is submitted the log holds no answer to it. */
  lemma LogBeforeCall(early: seq<Event>, late: seq<Event>, i: nat, k: nat)
    requires early <= late && i < |late| && late[i].Returned? && late[i].call == k && AnswersBounded(early, k)
    ensures |early| <= i
  {
    forall j | 0 <= j < |early| ensures late[j].Returned? ==> late[j].call < k { assert early[j] == late[j]; }
  }

  /** The answers handed back before any live-worker timeout are the callers' own. */
  predicate OwnAnswers(log: seq<Event>) {
    forall i :: 0 <= i < |log| && log[i].Returned? && NoLiveTimeout(log[..i]) ==> log[i].answer == log[i].call
  }

  predicate Faithful(s: State) {
    OwnAnswers(s.log) && (NoLiveTimeout(s.log) ==> Clean(s))
  }

  lemma RunFaithful(run: seq<State>, n: nat)
    requires IsRunExecuting(run) && n < |run|
    ensures Faithful(run[n])
  {
    if NoLiveTimeout(run[n].log) { RunClean(run, n); }
    forall i | 0 <= i < |run[n].log| && run[n].log[i].Returned? && NoLiveTimeout(run[n].log[..i])
      ensures run[n].log[i].answer == run[n].log[i].call
    {
      AnswerIsOwn(run, n, i);
    }
  }

  // ----- Both conditions are needed -----

  ghost predicate Reachable(s: State) {
    exists run :: IsRun(run) && run[|run| - 1] == s
  }

  ghost predicate ReachableExecuting(s: State) {
    exists run :: IsRunExecuting(run) && run[|run| - 1] == s
  }

  lemma Reach(s: State, s': State)
    requires Reachable(s) && Next(s, s')
    ensures Reachable(s')
  {
    var run :| IsRun(run) && run[|run| - 1] == s;
    var longer := run + [s'];
    forall i | 0 <= i < |longer| - 1 ensures Next(longer[i], longer[i + 1]) {
      if i < |run| - 1 { assert Next(run[i], run[i + 1]); }
    }
    assert IsRun(longer) && longer[|longer| - 1] == s';
  }

  lemma ReachExecuting(s: State, s': State)
    requires ReachableExecuting(s) && NextExecuting(s, s')
    ensures ReachableExecuting(s')
  {
    var run :| IsRunExecuting(run) && run[|run| - 1] == s;
    var longer := run + [s'];
    forall i | 0 <= i < |longer| - 1 ensures NextExecuting(longer[i], longer[i + 1]) {
      if i < |run| - 1 { assert NextExecuting(run[i], run[i + 1]); }
    }
    assert IsRunExecuting(longer) && longer[|longer| - 1] == s';
  }

  lemma Started()
    ensures ReachableExecuting(State(0, [], [], Gone, Ready, []))
    ensures Reachable(State(0, [], [], Gone, Ready, []))
  {
    var s := State(0, [], [], Gone, Ready, []);
    assert IsRunExecuting([s]) && IsRun([s]) && [s][|[s]| - 1] == s;
  }

  /** The first call is waiting, its task being executed. */
  function FirstTaskRunning(): State {
    State(1, [], [], Busy(0, false), Waiting(0), [])
  }

  lemma FirstTaskRuns()
    ensures ReachableExecuting(FirstTaskRunning()) && Reachable(FirstTaskRunning())
  {
    Started();
    var s0, s1 := State(0, [], [], Gone, Ready, []), State(0, [], [], Idle, Submitting, []);
    var s2 := State(1, [Work(0)], [], Idle, Waiting(0), []);
    assert [] + [Work(0)] == [Work(0)] && [Work(0)][1..] == [];
    ReachExecuting(s0, s1);
    ReachExecuting(s1, s2);
    ReachExecuting(s2, FirstTaskRunning());
    Reach(s0, s1);
    Reach(s1, s2);
    Reach(s2, FirstTaskRunning());
  }

  /** With an old answer in the queue and no worker, the second call is handed that answer. */
  lemma SecondCallGetsFirstAnswer(log: seq<Event>, executing: bool)
    requires if executing then ReachableExecuting(State(1, [], [0], Gone, Ready, log))
             else Reachable(State(1, [], [0], Gone, Ready, log))
    ensures var s := State(2, [Work(1)], [], Idle, Ready, log + [Returned(1, 0)]);
      if executing then ReachableExecuting(s) else Reachable(s)
  {
    var s0, s1 := State(1, [], [0], Gone, Ready, log), State(1, [], [0], Idle, Submitting, log);
    var s2 := State(2, [Work(1)], [0], Idle, Waiting(1), log);
    var s3 := State(2, [Work(1)], [], Idle, GotResult(1, 0), log);
    var s4 := State(2, [Work(1)], [], Idle, Ready, log + [Returned(1, 0)]);
    assert [] + [Work(1)] == [Work(1)] && [0][1..] == [];
    if executing {
      ReachExecuting(s0, s1);
      ReachExecuting(s1, s2);
      ReachExecuting(s2, s3);
      ReachExecuting(s3, s4);
    } else {
      Reach(s0, s1);
      Reach(s1, s2);
      Reach(s2, s3);
      Reach(s3, s4);
    }
  }

  /** A call that gives up on a live worker leaves its late answer to the next call. */
  lemma LateAnswerGoesToNextCall()
    ensures exists s :: ReachableExecuting(s) && s.log == [LiveTimeout(0), Returned(1, 0)]
  {
    FirstTaskRuns();
    var log := [LiveTimeout(0)];
    var s1, s2 := State(1, [], [], Busy(0, false), NoResult(0), []),
      State(1, [], [], Busy(0, false), InStop(Some(0)), log);
    var s3 := State(1, [Exit], [], Busy(0, false), Joining(Some(0)), log);
    assert [] + log == log && [] + [Exit] == [Exit];
    ReachExecuting(FirstTaskRunning(), s1);
    ReachExecuting(s1, s2);
    ReachExecuting(s2, s3);
    LatePost(log);
    SecondCallGetsFirstAnswer(log, true);
    assert log + [Returned(1, 0)] == [LiveTimeout(0), Returned(1, 0)];
    assert State(2, [Work(1)], [], Idle, Ready, log + [Returned(1, 0)]).log == [LiveTimeout(0), Returned(1, 0)];
  }

  /** The timed-out worker posts its answer before it takes the exit task. */
  lemma LatePost(log: seq<Event>)
    requires ReachableExecuting(State(1, [Exit], [], Busy(0, false), Joining(Some(0)), log))
    ensures ReachableExecuting(State(1, [], [0], Gone, Ready, log))
  {
    var s0, s1 := State(1, [Exit], [], Busy(0, false), Joining(Some(0)), log),
      State(1, [Exit], [0], Busy(0, true), Joining(Some(0)), log);
    var s2, s3 := State(1, [Exit], [0], Idle, Joining(Some(0)), log), State(1, [], [0], Gone, Joining(Some(0)), log);
    assert [] + [0] == [0] && [Exit][1..] == [];
    ReachExecuting(s0, s1);
    ReachExecuting(s1, s2);
    ReachExecuting(s2, s3);
    ReachExecuting(s3, State(1, [], [0], Gone, Ready, log));
  }

  /** A worker killed after posting, between the parent's wait and its liveness check, has
      the same effect without any live-worker timeout. */
  lemma DeathAfterPostMisleads()
    ensures exists s :: Reachable(s) && s.log == [Crashed(0), Returned(1, 0)]
  {
    FirstTaskRuns();
    var log := [Crashed(0)];
    var s1, s2 := State(1, [], [], Busy(0, false), NoResult(0), []), State(1, [], [0], Busy(0, true), NoResult(0), []);
    var s3 := State(1, [], [0], Gone, NoResult(0), []);
    assert [] + log == log && [] + [0] == [0];
    Reach(FirstTaskRunning(), s1);
    Reach(s1, s2);
    Reach(s2, s3);
    Reach(s3, State(1, [], [0], Gone, Ready, log));
    SecondCallGetsFirstAnswer(log, false);
    assert log + [Returned(1, 0)] == [Crashed(0), Returned(1, 0)];
    assert State(2, [Work(1)], [], Idle, Ready, log + [Returned(1, 0)]).log == [Crashed(0), Returned(1, 0)];
  }
}
