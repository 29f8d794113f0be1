/** The bounded pool that fetches all lists of a snapshot: one goroutine per task, a semaphore, and a context
    whose cancellation is stable. Steps are the atomic actions of the goroutines, in any order. */
module FetchPool {
  import opened Text
  import opened Pagination
  import opened Diagnostics

  datatype Task = Task(id: string, resource: string)
  datatype Phase = Waiting | Running | Done | Skipped

  /** `slots` is the shared slice of task errors, `runs` counts how often each task was fetched. */
  datatype Pool = Pool(capacity: nat, running: nat, cancelled: bool, phases: seq<Phase>, slots: seq<Option<ListError>>, runs: seq<nat>)

  datatype Action = Acquire(task: nat) | Complete(task: nat, error: Option<ListError>) | Skip(task: nat) | CancelContext

  function Capacity(concurrency: int, tasks: nat): nat {
    if concurrency < 1 then (if tasks < 1 then tasks else 1) else if concurrency > tasks then tasks else concurrency
  }

  function Start(concurrency: int, tasks: nat): Pool {
    Pool(Capacity(concurrency, tasks), 0, false, seq(tasks, _ => Waiting), seq(tasks, _ => None), seq(tasks, _ => 0))
  }

  predicate Shaped(p: Pool) {
    |p.phases| == |p.slots| == |p.runs|
  }

  predicate Enabled(p: Pool, a: Action)
    requires Shaped(p)
  {
    match a
    case Acquire(i) => i < |p.phases| && p.phases[i] == Waiting && p.running < p.capacity
    case Complete(i, _) => i < |p.phases| && p.phases[i] == Running && p.running > 0
    case Skip(i) => i < |p.phases| && p.phases[i] == Waiting && p.cancelled
    case CancelContext => true
  }

  function Step(p: Pool, a: Action): (p': Pool)
    requires Shaped(p) && Enabled(p, a)
    ensures Shaped(p')
  {
    match a
    case Acquire(i) => p.(running := p.running + 1, phases := p.phases[i := Running])
    case Complete(i, error) =>
      p.(running := p.running - 1, phases := p.phases[i := Done], slots := p.slots[i := error], runs := p.runs[i := p.runs[i] + 1])
    case Skip(i) => p.(phases := p.phases[i := Skipped])
    case CancelContext => p.(cancelled := true)
  }

  ghost predicate Run(concurrency: int, tasks: nat, pools: seq<Pool>, actions: seq<Action>) {
    && |pools| == |actions| + 1 && pools[0] == Start(concurrency, tasks)
    && (forall i :: 0 <= i < |pools| ==> Shaped(pools[i]))
    && forall i :: 0 <= i < |actions| ==> Enabled(pools[i], actions[i]) && pools[i + 1] == Step(pools[i], actions[i])
  }

  function CountRunning(phases: seq<Phase>): nat {
    if phases == [] then 0
    else CountRunning(phases[..|phases| - 1]) + if phases[|phases| - 1] == Running then 1 else 0
  }

  lemma {:induction false} CountRunningUpdate(phases: seq<Phase>, i: nat, p: Phase)
    requires i < |phases|
    ensures CountRunning(phases[i := p]) == CountRunning(phases) - (if phases[i] == Running then 1 else 0) + (if p == Running then 1 else 0)
  {
    var n := |phases| - 1;
    if i < n {
      CountRunningUpdate(phases[..n], i, p);
      assert phases[i := p][..n] == phases[..n][i := p];
    } else {
      assert phases[i := p][..n] == phases[..n];
    }
  }

  lemma {:induction false} CountRunningNone(phases: seq<Phase>)
    requires forall i :: 0 <= i < |phases| ==> phases[i] != Running
    ensures CountRunning(phases) == 0
  {
    if phases != [] {
      CountRunningNone(phases[..|phases| - 1]);
    }
  }

  ghost predicate Inv(p: Pool) {
    && Shaped(p)
    && p.running == CountRunning(p.phases) <= p.capacity
    && (forall i :: 0 <= i < |p.phases| ==> p.runs[i] == if p.phases[i] == Done then 1 else 0)
    && (forall i :: 0 <= i < |p.phases| && p.phases[i] != Done ==> p.slots[i] == None)
    && (forall i :: 0 <= i < |p.phases| && p.phases[i] == Skipped ==> p.cancelled)
  }

  lemma StepInv(p: Pool, a: Action)
    requires Inv(p) && Enabled(p, a)
    ensures Inv(Step(p, a))
  {
    if !a.CancelContext? {
      CountRunningUpdate(p.phases, a.task, Step(p, a).phases[a.task]);
    }
  }

  /** In every schedule: never more than the capacity run at once, which is between 1 and the number of tasks;
      no task is fetched twice, and a task that did not finish has left its slot empty. */
  lemma {:induction false} RunInv(concurrency: int, tasks: nat, pools: seq<Pool>, actions: seq<Action>, k: nat)
    requires Run(concurrency, tasks, pools, actions) && k < |pools|
    ensures Inv(pools[k]) && |pools[k].phases| == tasks && pools[k].capacity == Capacity(concurrency, tasks)
    ensures CountRunning(pools[k].phases) <= pools[k].capacity <= tasks && (tasks > 0 ==> pools[k].capacity >= 1)
    ensures (1 <= concurrency <= tasks ==> pools[k].capacity == concurrency) && (concurrency > tasks ==> pools[k].capacity == tasks)
    ensures concurrency < 1 <= tasks ==> pools[k].capacity == 1
  {
    if k == 0 {
      CountRunningNone(pools[0].phases);
    } else {
      RunInv(concurrency, tasks, pools, actions, k - 1);
      StepInv(pools[k - 1], actions[k - 1]);
    }
  }

  /** A slot changes only when its own task completes, and then never again. */
  lemma SlotWrittenOnce(concurrency: int, tasks: nat, pools: seq<Pool>, actions: seq<Action>, k: nat, i: nat, error: Option<ListError>)
    requires Run(concurrency, tasks, pools, actions) && k < |actions| && i < tasks
    requires actions[k] == Complete(i, error)
    ensures forall later :: k < later < |pools| ==> i < |pools[later].slots| && pools[later].slots[i] == error && pools[later].phases[i] == Done
  {
    RunInv(concurrency, tasks, pools, actions, k);
    forall later | k < later < |pools|
      ensures i < |pools[later].slots| && pools[later].slots[i] == error && pools[later].phases[i] == Done
    {
      SlotKept(concurrency, tasks, pools, actions, k, i, error, later);
    }
  }

  lemma {:induction false} SlotKept(concurrency: int, tasks: nat, pools: seq<Pool>, actions: seq<Action>, k: nat, i: nat, error: Option<ListError>, later: nat)
    requires Run(concurrency, tasks, pools, actions) && k < later < |pools| && i < tasks && actions[k] == Complete(i, error)
    ensures i < |pools[later].slots| && pools[later].slots[i] == error && pools[later].phases[i] == Done
  {
    hide CountRunning, Start, Capacity;
    RunInv(concurrency, tasks, pools, actions, later - 1);
    assert Enabled(pools[later - 1], actions[later - 1]) && pools[later] == Step(pools[later - 1], actions[later - 1]);
    if later - 1 > k {
      SlotKept(concurrency, tasks, pools, actions, k, i, error, later - 1);
    }
  }

  /** The wait group is released when every goroutine has returned. */
  predicate Finished(p: Pool) {
    forall i :: 0 <= i < |p.phases| ==> p.phases[i] == Done || p.phases[i] == Skipped
  }

  /** Cancellation is stable, so a run found uncancelled after the wait has skipped nothing: every task ran
      exactly once. */
  lemma NilErrorMeansAllRan(concurrency: int, tasks: nat, pools: seq<Pool>, actions: seq<Action>, k: nat)
    requires Run(concurrency, tasks, pools, actions) && k < |pools|
    requires Finished(pools[k]) && !pools[k].cancelled
    ensures |pools[k].phases| == |pools[k].runs| == tasks
    ensures forall i :: 0 <= i < tasks ==> pools[k].phases[i] == Done && pools[k].runs[i] == 1
  {
    RunInv(concurrency, tasks, pools, actions, k);
  }

  /** While a goroutine has not returned, some step other than cancelling is enabled: the pool cannot deadlock. */
  lemma NoDeadlock(concurrency: int, tasks: nat, pools: seq<Pool>, actions: seq<Action>, k: nat)
    requires Run(concurrency, tasks, pools, actions) && k < |pools| && !Finished(pools[k])
    ensures exists i :: Enabled(pools[k], Acquire(i)) || Enabled(pools[k], Complete(i, None))
  {
    RunInv(concurrency, tasks, pools, actions, k);
    var p := pools[k];
    if i: nat :| i < |p.phases| && p.phases[i] == Running {
      SomeRunning(p.phases, i);
      assert Enabled(p, Complete(i, None));
    } else {
      CountRunningNone(p.phases);
      var i: nat :| i < |p.phases| && p.phases[i] != Done && p.phases[i] != Skipped;
      assert Enabled(p, Acquire(i));
    }
  }

  lemma {:induction false} SomeRunning(phases: seq<Phase>, i: nat)
    requires i < |phases| && phases[i] == Running
    ensures CountRunning(phases) > 0
  {
    if i < |phases| - 1 {
      SomeRunning(phases[..|phases| - 1], i);
    }
  }

  // ----- the diagnostics of a run -----

  /** `snapshotDiagnosticReason`. */
  function Reason(e: ListError): string {
    match e
    case TooLarge => "response_too_large"
    case Incomplete => "pagination_incomplete"
    case TokenLoop => "pagination_token_invalid"
    case TokenInvalid => "pagination_token_invalid"
    case PageLimit => "pagination_page_limit"
    case ItemLimit => "pagination_item_limit"
    case TotalBytesLimit => "pagination_byte_limit"
    case InvalidResponse => "invalid_response"
    case ReadFailed => "response_read_failed"
    case Unavailable => "api_unavailable"
    case InvalidRequest => "request_invalid"
    case StatusError => "request_failed"
  }

  /** The failed tasks in index order. */
  function Failures(tasks: seq<Task>, errors: seq<Option<ListError>>): seq<Diagnostic>
    requires |tasks| == |errors|
  {
    if tasks == [] then []
    else
      var n := |tasks| - 1;
      Failures(tasks[..n], errors[..n]) + if errors[n].Some? then [Diagnostic(tasks[n].id, tasks[n].resource, Reason(errors[n].value), 1)] else []
  }

  /** The loop over the slots after the wait. */
  method ListFailures(tasks: seq<Task>, errors: seq<Option<ListError>>) returns (diagnostics: seq<Diagnostic>)
    requires |tasks| == |errors|
    ensures diagnostics == Failures(tasks, errors) && Reports(tasks, errors, diagnostics)
  {
    hide Reports, Reason;
    diagnostics := [];
    for index := 0 to |tasks|
      invariant diagnostics == Failures(tasks[..index], errors[..index])
    {
      assert tasks[..index + 1][..index] == tasks[..index] && errors[..index + 1][..index] == errors[..index];
      if errors[index].None? {
        assert Failures(tasks[..index + 1], errors[..index + 1]) == diagnostics + [];
        continue;
      }
      diagnostics := diagnostics + [Diagnostic(tasks[index].id, tasks[index].resource, Reason(errors[index].value), 1)];
    }
    assert tasks[..|tasks|] == tasks && errors[..|errors|] == errors;
    FailuresAre(tasks, errors);
  }

  /** Every completion of a run brings the outcome that the task's fetch has. */
  ghost predicate OutcomesAre(actions: seq<Action>, outcome: nat -> Option<ListError>) {
    forall k :: 0 <= k < |actions| && actions[k].Complete? ==> actions[k].error == outcome(actions[k].task)
  }

  lemma {:induction false} SlotsAreOutcomes(concurrency: int, tasks: nat, pools: seq<Pool>, actions: seq<Action>, k: nat, outcome: nat -> Option<ListError>)
    requires Run(concurrency, tasks, pools, actions) && k < |pools| && OutcomesAre(actions, outcome)
    ensures |pools[k].slots| == tasks && forall i: nat :: i < tasks && pools[k].phases[i] == Done ==> pools[k].slots[i] == outcome(i)
  {
    RunInv(concurrency, tasks, pools, actions, k);
    if k > 0 {
      SlotsAreOutcomes(concurrency, tasks, pools, actions, k - 1, outcome);
      RunInv(concurrency, tasks, pools, actions, k - 1);
      assert Enabled(pools[k - 1], actions[k - 1]) && pools[k] == Step(pools[k - 1], actions[k - 1]);
    }
  }

  /** Whatever the interleaving and the concurrency, two complete runs over the same outcomes report the same
      diagnostics: those of the failed tasks, in index order. */
  lemma ScheduleDoesNotMatter(tasks: seq<Task>, outcome: nat -> Option<ListError>, concurrency: int, pools: seq<Pool>, actions: seq<Action>, k: nat,
                              concurrency': int, pools': seq<Pool>, actions': seq<Action>, k': nat)
    requires Run(concurrency, |tasks|, pools, actions) && k < |pools| && OutcomesAre(actions, outcome)
    requires Run(concurrency', |tasks|, pools', actions') && k' < |pools'| && OutcomesAre(actions', outcome)
    requires Finished(pools[k]) && !pools[k].cancelled && Finished(pools'[k']) && !pools'[k'].cancelled
    ensures |pools[k].slots| == |pools'[k'].slots| == |tasks|
    ensures Failures(tasks, pools[k].slots) == Failures(tasks, pools'[k'].slots)
  {
    NilErrorMeansAllRan(concurrency, |tasks|, pools, actions, k);
    NilErrorMeansAllRan(concurrency', |tasks|, pools', actions', k');
    SlotsAreOutcomes(concurrency, |tasks|, pools, actions, k, outcome);
    SlotsAreOutcomes(concurrency', |tasks|, pools', actions', k', outcome);
    assert pools[k].slots == pools'[k'].slots;
  }

  // ----- what is reported -----

  /** The reason that a diagnostic gives for an error. */
  predicate Tells(reason: string, e: ListError) {
    || (reason == "response_too_large" && e == TooLarge) || (reason == "pagination_incomplete" && e == Incomplete)
    || (reason == "pagination_token_invalid" && (e == TokenLoop || e == TokenInvalid)) || (reason == "pagination_page_limit" && e == PageLimit)
    || (reason == "pagination_item_limit" && e == ItemLimit) || (reason == "pagination_byte_limit" && e == TotalBytesLimit)
    || (reason == "invalid_response" && e == InvalidResponse) || (reason == "response_read_failed" && e == ReadFailed)
    || (reason == "api_unavailable" && e == Unavailable) || (reason == "request_invalid" && e == InvalidRequest)
    || (reason == "request_failed" && e == StatusError)
  }

  function FailedBefore(errors: seq<Option<ListError>>, n: nat): (r: set<nat>)
    requires n <= |errors|
  {
    set i: nat | i < n && errors[i].Some?
  }

  lemma FailedStep(errors: seq<Option<ListError>>, n: nat)
    requires n < |errors|
    ensures |FailedBefore(errors, n + 1)| == |FailedBefore(errors, n)| + if errors[n].Some? then 1 else 0
  {
    assert FailedBefore(errors, n + 1) == FailedBefore(errors, n) + if errors[n].Some? then {n} else {};
  }

  lemma {:induction false} FewerFailed(errors: seq<Option<ListError>>, m: nat, n: nat)
    requires m < n <= |errors| && errors[m].Some?
    ensures |FailedBefore(errors, m)| < |FailedBefore(errors, n)|
  {
    FailedStep(errors, n - 1);
    if m < n - 1 {
      FewerFailed(errors, m, n - 1);
    }
  }

  /** One diagnostic for each failed task, at the place that task has among the failed ones. */
  ghost predicate Reports(tasks: seq<Task>, errors: seq<Option<ListError>>, diagnostics: seq<Diagnostic>)
    requires |tasks| == |errors|
  {
    && |diagnostics| == |FailedBefore(errors, |errors|)|
    && forall i: nat :: i < |tasks| && errors[i].Some? ==> ReportsAt(tasks[i], errors[i].value, diagnostics, |FailedBefore(errors, i)|)
  }

  predicate ReportsAt(task: Task, e: ListError, diagnostics: seq<Diagnostic>, p: nat) {
    && p < |diagnostics| && diagnostics[p].id == task.id && diagnostics[p].resource == task.resource && diagnostics[p].count == 1
    && Tells(diagnostics[p].reason, e)
  }

  lemma ReasonTells(e: ListError)
    ensures Tells(Reason(e), e)
  {
  }

  lemma {:induction false} FailuresAre(tasks: seq<Task>, errors: seq<Option<ListError>>)
    requires |tasks| == |errors|
    ensures Reports(tasks, errors, Failures(tasks, errors))
  {
    hide Tells, Reason, FailedBefore;
    if tasks == [] {
      assert FailedBefore(errors, 0) == {} by {
        NoneFailed(errors);
      }
    } else {
      var n := |tasks| - 1;
      var before, all := Failures(tasks[..n], errors[..n]), Failures(tasks, errors);
      FailuresAre(tasks[..n], errors[..n]);
      SameFailed(errors, n);
      FailedStep(errors, n);
      forall i: nat | i < |tasks| && errors[i].Some?
        ensures ReportsAt(tasks[i], errors[i].value, all, |FailedBefore(errors, i)|)
      {
        if i < n {
          assert ReportsAt(tasks[..n][i], errors[..n][i].value, before, |FailedBefore(errors[..n], i)|);
        } else {
          ReasonTells(errors[n].value);
        }
      }
    }
  }

  lemma NoneFailed(errors: seq<Option<ListError>>)
    ensures FailedBefore(errors, 0) == {}
  {
  }

  lemma SameFailed(errors: seq<Option<ListError>>, n: nat)
    requires n <= |errors|
    ensures forall i: nat :: i <= n ==> FailedBefore(errors[..n], i) == FailedBefore(errors, i)
  {
  }

  /** A complete run over given outcomes reports exactly the tasks whose fetch fails, in task order, each with the reason
      of its error. */
  lemma RunReports(tasks: seq<Task>, outcome: nat -> Option<ListError>, concurrency: int, pools: seq<Pool>, actions: seq<Action>, k: nat)
    requires Run(concurrency, |tasks|, pools, actions) && k < |pools| && OutcomesAre(actions, outcome)
    requires Finished(pools[k]) && !pools[k].cancelled
    ensures |pools[k].slots| == |tasks| && Reports(tasks, seq(|tasks|, i requires 0 <= i < |tasks| => outcome(i)), Failures(tasks, pools[k].slots))
  {
    hide Reports, Failures, Finished;
    NilErrorMeansAllRan(concurrency, |tasks|, pools, actions, k);
    SlotsAreOutcomes(concurrency, |tasks|, pools, actions, k, outcome);
    assert pools[k].slots == seq(|tasks|, i requires 0 <= i < |tasks| => outcome(i));
    FailuresAre(tasks, pools[k].slots);
  }

  /** Each reason passes the filter of safe diagnostics. */
  lemma ReasonsAreKnown(e: ListError)
    ensures Reason(e) in KnownReasons
  {
  }
}
