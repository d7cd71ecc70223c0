/** What can be observed of the worker protocol from one state to the next: which event a call
    leaves, under which worker, and that every call leaves exactly one. */
module WorkerCalls {
  import opened Common
  import opened WorkerProtocol

  // ----- Which event is logged when -----

  /** The only event that may follow: an answer held is returned under a live worker and discarded
      without one; a call without an answer timed out under a live worker and crashed without one. */
  function Due(s: State): Event
    requires s.parent.GotResult? || s.parent.NoResult?
  {
    match s.parent
    case GotResult(call, answer) => if s.worker.Gone? then Discarded(call, answer) else Returned(call, answer)
    case NoResult(call) => if s.worker.Gone? then Crashed(call) else LiveTimeout(call)
  }

  lemma StepOf(run: seq<State>, i: nat)
    requires IsRun(run) && i + 1 < |run|
    ensures Next(run[i], run[i + 1])
  {
  }

  /** In every run the log changes only where a call ends: an answer is returned only under a live
      worker and discarded only without one, and a call without an answer times out only under a
      live worker and crashes only without one. */
  lemma LoggedWhen(run: seq<State>, i: nat)
    requires IsRun(run) && i + 1 < |run| && run[i + 1].log != run[i].log
    ensures var n := |run[i].log|; |run[i + 1].log| == n + 1 && run[i + 1].log[..n] == run[i].log
    ensures match run[i + 1].log[|run[i].log|]
      case Returned(call, answer) => run[i].parent == GotResult(call, answer) && !run[i].worker.Gone?
      case Discarded(call, answer) => run[i].parent == GotResult(call, answer) && run[i].worker.Gone?
      case LiveTimeout(call) => run[i].parent == NoResult(call) && !run[i].worker.Gone?
      case Crashed(call) => run[i].parent == NoResult(call) && run[i].worker.Gone?
  {
    StepOf(run, i);
  }

  /** And an answer held, or a call given up, leads to nothing else. */
  lemma EndsWhen(run: seq<State>, i: nat)
    requires IsRun(run) && i + 1 < |run| && (run[i].parent.GotResult? || run[i].parent.NoResult?)
    requires run[i + 1].parent != run[i].parent
    ensures run[i + 1].log == run[i].log + [Due(run[i])]
    ensures run[i + 1].parent == if Due(run[i]).LiveTimeout? then InStop(Some(run[i].parent.call)) else Ready
  {
    StepOf(run, i);
  }

  /** The call of state `s`, whose worker is gone, is still under way, or left event `e`. */
  ghost predicate Leaving(s: State, t: State, e: Event) {
    (t.log == s.log && t.parent == s.parent && t.worker.Gone?) || s.log + [e] <= t.log
  }

  lemma LeavingStep(s: State, t: State, u: State, e: Event)
    requires (s.parent.GotResult? || s.parent.NoResult?) && s.worker.Gone? && e == Due(s)
    requires Leaving(s, t, e) && Next(t, u)
    ensures Leaving(s, u, e)
  {
    assert t.log <= u.log;
  }

  lemma {:induction false} RunLeaving(run: seq<State>, i: nat, steps: nat, s: State, e: Event)
    requires IsRun(run) && i + steps < |run| && s == run[i]
    requires (s.parent.GotResult? || s.parent.NoResult?) && s.worker.Gone? && e == Due(s)
    ensures Leaving(s, run[i + steps], e)
    decreases steps
  {
    if steps > 0 {
      RunLeaving(run, i, steps - 1, s, e);
      var k := i + (steps - 1);
      StepOf(run, k);
      LeavingStep(s, run[k], run[k + 1], e);
    }
  }

  /** In every run: once the worker is gone while the parent holds an answer, the next event is
      that the answer is discarded; once it is gone while the parent has none, that it crashed. */
  lemma NextEventOfGoneWorker(run: seq<State>, i: nat, j: nat)
    requires IsRun(run) && i <= j < |run| && run[i].worker.Gone? && |run[i].log| < |run[j].log|
    ensures run[i].parent.GotResult? ==>
      run[j].log[|run[i].log|] == Discarded(run[i].parent.call, run[i].parent.answer)
    ensures run[i].parent.NoResult? ==> run[j].log[|run[i].log|] == Crashed(run[i].parent.call)
  {
    if run[i].parent.GotResult? || run[i].parent.NoResult? { RunLeaving(run, i, j - i, run[i], Due(run[i])); }
  }

  // ----- One event for each call -----

  predicate InCall(s: State) {
    s.parent.Waiting? || s.parent.GotResult? || s.parent.NoResult?
  }

  /** Calls end in the order of their numbers; at most the last one is still under way. */
  ghost predicate EventsInOrder(s: State) {
    && (forall i :: 0 <= i < |s.log| ==> s.log[i].call == i)
    && s.next == |s.log| + (if InCall(s) then 1 else 0)
    && (InCall(s) ==> s.parent.call == |s.log|)
  }

  lemma EventsInOrderStep(s: State, t: State)
    requires EventsInOrder(s) && Next(s, t)
    ensures EventsInOrder(t)
  {
  }

  lemma {:induction false} RunEventsInOrder(run: seq<State>, n: nat)
    requires IsRun(run) && n < |run|
    ensures EventsInOrder(run[n])
    decreases n
  {
    if n > 0 {
      RunEventsInOrder(run, n - 1);
      StepOf(run, n - 1);
      EventsInOrderStep(run[n - 1], run[n]);
    }
  }

  /** In every run, every call submitted, unless it is still under way, left exactly one event. */
  lemma OneEventPerCall(run: seq<State>, n: nat, call: nat)
    requires IsRun(run) && n < |run| && call < run[n].next
    ensures (exists i :: 0 <= i < |run[n].log| && run[n].log[i].call == call) <==>
      !(InCall(run[n]) && run[n].parent.call == call)
    ensures forall i, j :: 0 <= i < j < |run[n].log| ==> run[n].log[i].call != run[n].log[j].call
  {
    RunEventsInOrder(run, n);
    if call < |run[n].log| { assert run[n].log[call].call == call; }
  }

  // ----- How calls and workers go on -----

  /** A call gives up only while nothing is posted, and an answer is the oldest one posted. */
  lemma TakenWhen(run: seq<State>, i: nat)
    requires IsRun(run) && i + 1 < |run| && run[i].parent.Waiting? && run[i + 1].parent != run[i].parent
    ensures run[i].results == [] ==> run[i + 1].parent == NoResult(run[i].parent.call)
    ensures run[i].results != [] ==> run[i + 1].parent == GotResult(run[i].parent.call, run[i].results[0])
    ensures run[i].results != [] ==> run[i + 1].results == run[i].results[1..]
  {
    StepOf(run, i);
  }

  /** A call is submitted behind everything queued, and starts under a live worker; a live worker
      is never replaced. */
  lemma StartedWhen(run: seq<State>, i: nat)
    requires IsRun(run) && i + 1 < |run|
    ensures run[i].parent.Ready? && run[i + 1].parent.Submitting? ==>
      !run[i + 1].worker.Gone? && (!run[i].worker.Gone? ==> run[i + 1].worker == run[i].worker)
    ensures run[i].parent.Submitting? && run[i + 1].parent != run[i].parent ==>
      run[i + 1].parent == Waiting(run[i].next) && run[i + 1].tasks == run[i].tasks + [Work(run[i].next)]
    ensures run[i].worker.Gone? && !run[i + 1].worker.Gone? ==> run[i].parent.Ready? && run[i + 1].parent.Submitting?
  {
    StepOf(run, i);
  }

  /** A task being executed ends with its result posted last, or with its worker. */
  lemma ExecutedWhen(run: seq<State>, i: nat)
    requires IsRun(run) && i + 1 < |run| && run[i].worker.Busy? && !run[i].worker.posted
    requires run[i + 1].worker != run[i].worker && !run[i + 1].worker.Gone?
    ensures run[i + 1].worker == Busy(run[i].worker.task, true)
    ensures run[i + 1].results == run[i].results + [run[i].worker.task]
  {
    StepOf(run, i);
  }

  /** An idle worker takes the oldest message and goes if that is the request to exit. */
  lemma MessageTakenWhen(run: seq<State>, i: nat)
    requires IsRun(run) && i + 1 < |run| && |run[i + 1].tasks| < |run[i].tasks|
    ensures run[i].worker.Idle? && run[i].tasks != [] && run[i + 1].tasks == run[i].tasks[1..]
    ensures run[i + 1].worker == if run[i].tasks[0].Exit? then Gone else Busy(run[i].tasks[0].task, false)
  {
    StepOf(run, i);
  }

  /** Stopping asks a live worker to exit, and ends only once the worker is gone. */
  lemma StoppedWhen(run: seq<State>, i: nat)
    requires IsRun(run) && i + 1 < |run| && (run[i].parent.InStop? || run[i].parent.Joining?)
    requires run[i + 1].parent != run[i].parent
    ensures run[i + 1].parent.Ready? ==> run[i].worker.Gone?
    ensures !run[i + 1].parent.Ready? ==>
      run[i].parent.InStop? && run[i + 1].parent.Joining? && run[i + 1].tasks == run[i].tasks + [Exit]
  {
    StepOf(run, i);
  }
}
