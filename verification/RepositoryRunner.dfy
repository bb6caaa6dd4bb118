/**
 The runner of one repository attempt: it creates and prepares a sandbox, hands it to the lifecycle coordinator,
 and is responsible for stopping it whenever it does not get that far.

 What the provider does up to the hand-over, and when an abort arrives, is a script; the coordinator chooses freely.
 */
module RepositoryRunner {
  import opened Wrappers
  import opened SandboxLifecycle
  import opened ExecutionPlanning
  import opened Lists

  datatype Stage = Provisioning | Acquisition | Dependencies | Workspaces | Environment | Experiments' | Proof

  datatype RunnerCode = BudgetExhausted' | Cancelled' | ExecutionFailed' | ProviderInterrupted' | UnsupportedSource

  /** How one preparation phase ends. */
  datatype PhaseOutcome = Completed | Failed | Unsupported

  predicate AlphaNumeric(c: char) { 'a' <= c <= 'z' || 'A' <= c <= 'Z' || '0' <= c <= '9' }

  /** /^[A-Za-z0-9][A-Za-z0-9._:-]*$/ with length 1 to 128. */
  predicate ValidAttemptId(id: string) {
    && 1 <= |id| <= 128
    && AlphaNumeric(id[0])
    && forall i :: 0 <= i < |id| ==> AlphaNumeric(id[i]) || id[i] in "._:-"
  }

  /** The coordinator's constructor checks, then `execute`'s. */
  predicate CoordinatorAccepts(attemptTimeoutMs: int, maxProviderRetries: int, attemptId: string, runCount: int) {
    && 1 <= attemptTimeoutMs <= MAX_ATTEMPT_TIMEOUT_MS
    && 0 <= maxProviderRetries <= MAX_PROVIDER_RETRIES
    && ValidAttemptId(attemptId)
    && 1 <= runCount <= MAX_RUN_COUNT
  }

  /** What the runner's input schema and its constructor have already checked. */
  datatype Input = Input(attemptId: string, attemptTimeoutMs: int, requiredRuns: int, createdAt: int)

  predicate InputAccepted(input: Input) {
    && ValidAttemptId(input.attemptId)
    && 1 <= input.attemptTimeoutMs <= MAX_ATTEMPT_TIMEOUT_MS
    && MIN_REQUIRED_RUNS <= input.requiredRuns <= MAX_RUNS
  }

  function Max(a: int, b: int): int { if a >= b then a else b }

  /** The time left for the coordinator, never below one millisecond. */
  function Remaining(input: Input, now: int): int {
    Max(1, input.attemptTimeoutMs - Max(0, now - input.createdAt))
  }

  /** What arrives at an await. */
  datatype Await = Await(cancel: bool, timeout: bool)

  predicate Aborts(a: Await) { a.cancel || a.timeout }

  const QUIET := Await(false, false)

  datatype Step = Step(arrives: Await, outcome: PhaseOutcome)

  /** Creation, the four phases of preparation, the experiments and the assembly of the proof. */
  datatype Script = Script(
    creation: Await,
    created: bool,
    acquisition: Step,
    dependencies: Step,
    workspaces: Step,
    environment: Step,
    environmentHash: string,
    experiments: Await,
    assembly: Await,
    assembled: bool)

  function Preparation(s: Script): seq<Step> { [s.acquisition, s.dependencies, s.workspaces, s.environment] }

  /** Every phase of the preparation completes. */
  predicate Completes(steps: seq<Step>) { forall i :: 0 <= i < |steps| ==> steps[i].outcome == Completed }

  /** What is reported of a preparation that does not complete, by the first step that does not. */
  function Blame(steps: seq<Step>): RunnerCode {
    if steps == [] then ExecutionFailed'
    else if steps[0].outcome == Completed then Blame(steps[1..])
    else if steps[0].outcome == Unsupported then UnsupportedSource else ExecutionFailed'
  }

  lemma {:induction false} BlameFirst(steps: seq<Step>, i: nat)
    requires i < |steps| && Completes(steps[..i]) && steps[i].outcome != Completed
    ensures Blame(steps) == if steps[i].outcome == Unsupported then UnsupportedSource else ExecutionFailed'
  {
    if i > 0 {
      assert steps[..i][0].outcome == Completed;
      assert steps[1..][..i - 1] == steps[..i][1..];
      BlameFirst(steps[1..], i - 1);
    }
  }

  predicate SomeAborts(steps: seq<Step>) { exists i :: 0 <= i < |steps| && Aborts(steps[i].arrives) }

  /** An abort arrives after creation, and the preparation completes all the same. */
  predicate StopsTwice(s: Script) {
    !Aborts(s.creation) && SomeAborts(Preparation(s)) && Completes(Preparation(s))
  }

  // ---------------------------------------------------------------------------------------------
  // executionResult
  // ---------------------------------------------------------------------------------------------

  datatype BoundedRun = BoundedRun(control: bool, environmentHash: string, durationMs: nat)

  datatype Execution = Execution(control: BoundedRun, candidates: seq<BoundedRun>, totalDurationMs: nat)

  /** `Rejected` is thrown as a RepositoryExecutionError, `Invalid` by the schema. */
  datatype Refusal = Rejected | Invalid

  predicate IsControl(r: BoundedRun) { r.control }
  predicate IsCandidate(r: BoundedRun) { !r.control }
  function Duration(r: BoundedRun): nat { r.durationMs }

  predicate OneEnvironment(runs: seq<BoundedRun>, environmentHash: string) {
    forall i :: 0 <= i < |runs| ==> runs[i].environmentHash == environmentHash
  }

  function ExecutionResult(runs: seq<BoundedRun>, environmentHash: string): Result<Execution, Refusal> {
    var controls, candidates := Where(IsControl, runs), Where(IsCandidate, runs);
    if controls == [] || !OneEnvironment(runs, environmentHash) then Err(Rejected)
    else if !(1 <= |candidates| <= MAX_RUNS) || Sum(Duration, runs) > MAX_ATTEMPT_TIMEOUT_MS then Err(Invalid)
    else Ok(Execution(controls[0], candidates, Sum(Duration, runs)))
  }

  /** An accepted execution: one control and candidates among the runs, all of one environment. */
  lemma ExecutionMeans(runs: seq<BoundedRun>, environmentHash: string)
    requires ExecutionResult(runs, environmentHash).Ok?
    ensures var e := ExecutionResult(runs, environmentHash).value;
            && e.control in runs && e.control.control && e.control.environmentHash == environmentHash
            && (forall r :: r in e.candidates <==> r in runs && !r.control)
            && (forall r :: r in e.candidates ==> r.environmentHash == environmentHash)
            && 1 <= |e.candidates| <= MAX_RUNS
  {
    var e := ExecutionResult(runs, environmentHash).value;
    WhereMeans(IsControl, runs, e.control);
    forall r
      ensures r in e.candidates <==> r in runs && !r.control
    {
      WhereMeans(IsCandidate, runs, r);
    }
  }

  // ---------------------------------------------------------------------------------------------
  // The runner
  // ---------------------------------------------------------------------------------------------

  class Runner {
    var aborted: bool
    var timedOut: bool
    var prepared: Option<SessionId>
    var lifecycleOwnsPrepared: bool
    /** `stopPrepared ??= prepared.stop()`: set once the runner has asked for the stop. */
    var stopPrepared: bool
    var listening: bool
    var stage: Stage
    var coordinator: Option<Attempt<BoundedRun>>
    /** How often the runner itself called `prepared.stop()`. */
    ghost var ownStops: nat
    /** An abort arrived while the runner still owned a created sandbox and was listening. */
    ghost var abortedWhileOwning: bool

    ghost predicate Valid()
      reads this
    {
      && (listening ==> !aborted && prepared.Some? && !lifecycleOwnsPrepared && !stopPrepared)
      && (abortedWhileOwning ==> stopPrepared)
      && (prepared.None? ==> !stopPrepared && !abortedWhileOwning)
      && ownStops == (if stopPrepared then 1 else 0)
      && (lifecycleOwnsPrepared ==> prepared.Some?)
    }

    /** How often the prepared sandbox's stop was requested, by the runner and by the coordinator. */
    ghost function StopRequests(): nat
      reads this, if coordinator.Some? then {coordinator.value} else {}
    {
      ownStops + if prepared.Some? && coordinator.Some?
                 then Count(coordinator.value.log, SessionMoved(prepared.value, StopAsked)) else 0
    }

    /** The values of all runs, if there is a coordinator and it accepted one for each. */
    ghost function AllRuns(runCount: nat): Option<seq<BoundedRun>>
      reads this, if coordinator.Some? then {coordinator.value} else {}
    {
      if coordinator.Some? && |AcceptedValues(coordinator.value.log)| == runCount
      then Some(AcceptedValues(coordinator.value.log)) else None
    }

    constructor (alreadyAborted: bool)
      ensures Valid() && prepared.None? && coordinator.None? && !stopPrepared && !lifecycleOwnsPrepared
      ensures aborted == alreadyAborted
    {
      aborted, timedOut, prepared, lifecycleOwnsPrepared := alreadyAborted, false, None, false;
      stopPrepared, listening, stage, coordinator := false, false, Provisioning, None;
      ownStops, abortedWhileOwning := 0, false;
    }

    /** `cleanupPrepared`: safe to call any number of times, asks for the stop once. */
    method CleanUpPrepared()
      requires Valid() && !listening
      modifies this`stopPrepared, this`ownStops
      ensures Valid()
      ensures stopPrepared <==> prepared.Some?
    {
      if prepared.Some? && !stopPrepared {
        stopPrepared := true;
        ownStops := ownStops + 1;
      }
    }

    /** One await: an abort may arrive and, while the runner listens, stops the prepared sandbox. */
    method Suspend(a: Await)
      requires Valid()
      modifies this`aborted, this`timedOut, this`stopPrepared, this`ownStops, this`listening, this`abortedWhileOwning
      ensures Valid()
      ensures aborted == (old(aborted) || Aborts(a)) && listening == (old(listening) && !Aborts(a))
      ensures stopPrepared == (old(stopPrepared) || (old(listening) && Aborts(a)))
      ensures abortedWhileOwning == (old(abortedWhileOwning) || (old(listening) && Aborts(a)))
    {
      timedOut := timedOut || a.timeout;
      if Aborts(a) && !aborted {
        aborted := true;
        if listening {
          listening := false;
          CleanUpPrepared();
          abortedWhileOwning := true;
        }
      }
    }

    function AbortedCode(): RunnerCode
      reads this
    {
      if timedOut then BudgetExhausted' else Cancelled'
    }

    /** What the catch block reports of an error that is not the runner's own: an abort comes first. */
    function Reported(code: RunnerCode): RunnerCode
      reads this
    {
      if aborted then AbortedCode() else code
    }

    /** The runner still owns the sandbox it created: it was stopped exactly if an abort found it listening. */
    ghost predicate Owning()
      reads this
    {
      && Valid() && prepared.Some? && !lifecycleOwnsPrepared && coordinator.None?
      && (stopPrepared <==> abortedWhileOwning)
      && (aborted <==> !listening)
    }

    /** One preparation step after creation; it may succeed even when the sandbox was stopped under it. */
    method Prepare(next: Stage, step: Step) returns (error: Option<RunnerCode>)
      requires Owning()
      modifies this
      ensures Owning() && prepared == old(prepared)
      ensures listening == (old(listening) && !Aborts(step.arrives))
      ensures abortedWhileOwning == (old(abortedWhileOwning) || (old(listening) && Aborts(step.arrives)))
      ensures error.None? <==> step.outcome == Completed
      ensures error.Some? ==>
                error.value == if aborted then AbortedCode()
                               else if step.outcome == Unsupported then UnsupportedSource else ExecutionFailed'
    {
      stage := next;
      Suspend(step.arrives);
      match step.outcome
      case Completed => error := None;
      case Unsupported => error := Some(Reported(UnsupportedSource));
      case Failed => error := Some(Reported(ExecutionFailed'));
    }

    /** From creation to hand-over. */
    method PrepareAll(script: Script) returns (error: Option<RunnerCode>)
      requires Owning() && !abortedWhileOwning
      modifies this
      ensures Owning() && prepared == old(prepared)
      ensures error.None? <==> Completes(Preparation(script))
      ensures error.None? ==> (abortedWhileOwning <==> old(listening) && SomeAborts(Preparation(script)))
      ensures error.Some? ==> error.value == if aborted then AbortedCode() else Blame(Preparation(script))
    {
      var steps, stages := Preparation(script), [Acquisition, Dependencies, Workspaces, Environment];
      for i := 0 to |steps|
        invariant Owning() && prepared == old(prepared)
        invariant Completes(steps[..i])
        invariant listening == (old(listening) && !SomeAborts(steps[..i]))
        invariant abortedWhileOwning == (old(listening) && SomeAborts(steps[..i]))
      {
        assert steps[..i + 1] == steps[..i] + [steps[i]];
        error := Prepare(stages[i], steps[i]);
        if error.Some? {
          BlameFirst(steps, i);
          return;
        }
      }
      assert steps[..|steps|] == steps;
      error := None;
    }

    static method Coordinate(prepared: SessionId, aborted: bool, runCount: nat)
      returns (attempt: Attempt<BoundedRun>, lifecycle: Result<RunResult<BoundedRun>, (Code, CleanupStatus)>)
      requires runCount > 0
      ensures fresh(attempt)
      ensures Count(attempt.log, SessionMoved(prepared, StopAsked)) == 1
      ensures lifecycle.Ok? <==> |AcceptedValues(attempt.log)| == runCount
      ensures lifecycle.Ok? ==> lifecycle.value.values == AcceptedValues(attempt.log)
      ensures lifecycle.Err? ==> Explains(attempt.log, lifecycle.error.0, MAX_PROVIDER_RETRIES)
    {
      attempt := new Attempt<BoundedRun>(prepared, MAX_PROVIDER_RETRIES, aborted);
      lifecycle := attempt.Execute(runCount);
    }

    static function CodeOf(code: Code): RunnerCode {
      match code
      case AttemptTimeout => BudgetExhausted'
      case BudgetExhausted => BudgetExhausted'
      case Cancelled => Cancelled'
      case ProviderInterrupted => ProviderInterrupted'
      case ExecutionFailed => ExecutionFailed'
    }

    /** The coordinator takes over; its own validation must not refuse, or nobody would stop the sandbox. */
    method HandOver(input: Input, now: int, script: Script)
      returns (result: Result<Execution, RunnerCode>, ghost runs: Option<seq<BoundedRun>>)
      requires InputAccepted(input) && Owning()
      modifies this
      ensures Valid() && lifecycleOwnsPrepared && prepared == old(prepared)
      ensures stopPrepared == old(stopPrepared) && abortedWhileOwning == old(abortedWhileOwning)
      ensures coordinator.Some? && Count(coordinator.value.log, SessionMoved(prepared.value, StopAsked)) == 1
      ensures runs == AllRuns(input.requiredRuns + 1)
      ensures result.Ok? <==>
                runs.Some? && ExecutionResult(runs.value, script.environmentHash).Ok? && script.assembled
      ensures result.Ok? ==> ExecutionResult(runs.value, script.environmentHash) == Ok(result.value)
      ensures result.Err? && aborted ==> result.error == FailureCode(runs, script.environmentHash)
      ensures result.Err? && !aborted ==>
                if runs.Some? then result.error == ExecutionFailed' else Coordinated(result.error)
    {
      var plan := NodePlan(input.requiredRuns);
      NodePlanIsAccepted(input.requiredRuns);
      var experiments := ExecutionPlanning.Experiments(plan);
      listening := false;
      lifecycleOwnsPrepared := true;
      var remaining := Remaining(input, now);
      if !CoordinatorAccepts(remaining, MAX_PROVIDER_RETRIES, input.attemptId, |experiments|) {
        return Err(ExecutionFailed'), None;
      }
      var lifecycle := RunExperiments(|experiments|, script);
      result, runs := Conclude(lifecycle, script);
    }

    /** The coordinator runs the experiments. */
    method RunExperiments(runCount: nat, script: Script) returns (lifecycle: Result<RunResult<BoundedRun>, (Code, CleanupStatus)>)
      requires Valid() && !listening && lifecycleOwnsPrepared && prepared.Some? && runCount > 0
      modifies this
      ensures Valid() && !listening && lifecycleOwnsPrepared && prepared == old(prepared)
      ensures stopPrepared == old(stopPrepared) && abortedWhileOwning == old(abortedWhileOwning)
      ensures coordinator.Some? && Count(coordinator.value.log, SessionMoved(prepared.value, StopAsked)) == 1
      ensures lifecycle.Ok? <==> |AcceptedValues(coordinator.value.log)| == runCount
      ensures lifecycle.Ok? ==> lifecycle.value.values == AcceptedValues(coordinator.value.log)
      ensures lifecycle.Err? ==> Explains(coordinator.value.log, lifecycle.error.0, MAX_PROVIDER_RETRIES)
    {
      stage := Experiments';
      var attempt, outcome := Coordinate(prepared.value, aborted, runCount);
      coordinator := Some(attempt);
      Suspend(script.experiments);
      lifecycle := outcome;
    }

    /** What comes of the attempt once the coordinator has returned. */
    method Conclude(lifecycle: Result<RunResult<BoundedRun>, (Code, CleanupStatus)>, script: Script)
      returns (result: Result<Execution, RunnerCode>, ghost runs: Option<seq<BoundedRun>>)
      requires Valid() && !listening && coordinator.Some?
      requires lifecycle.Err? ==> Explains(coordinator.value.log, lifecycle.error.0, MAX_PROVIDER_RETRIES)
      modifies this`stage, this`aborted, this`timedOut, this`stopPrepared, this`ownStops, this`listening, this`abortedWhileOwning
      ensures Valid() && stopPrepared == old(stopPrepared) && abortedWhileOwning == old(abortedWhileOwning)
      ensures runs == if lifecycle.Ok? then Some(lifecycle.value.values) else None
      ensures result.Ok? <==>
                runs.Some? && ExecutionResult(runs.value, script.environmentHash).Ok? && script.assembled
      ensures result.Ok? ==> ExecutionResult(runs.value, script.environmentHash) == Ok(result.value)
      ensures result.Err? && aborted ==> result.error == FailureCode(runs, script.environmentHash)
      ensures result.Err? && !aborted ==>
                if runs.Some? then result.error == ExecutionFailed' else Coordinated(result.error)
    {
      if lifecycle.Err? {
        return Err(Reported(CodeOf(lifecycle.error.0))), None;
      }
      runs := Some(lifecycle.value.values);
      result := Assemble(lifecycle.value.values, script);
    }

    /** The runs become an execution, and the execution a proof. */
    method Assemble(values: seq<BoundedRun>, script: Script) returns (result: Result<Execution, RunnerCode>)
      requires Valid() && !listening
      modifies this`stage, this`aborted, this`timedOut, this`stopPrepared, this`ownStops, this`listening, this`abortedWhileOwning
      ensures Valid() && stopPrepared == old(stopPrepared) && abortedWhileOwning == old(abortedWhileOwning)
      ensures result.Ok? <==> ExecutionResult(values, script.environmentHash).Ok? && script.assembled
      ensures result.Ok? ==> ExecutionResult(values, script.environmentHash) == Ok(result.value)
      ensures result.Err? && aborted ==> result.error == FailureCode(Some(values), script.environmentHash)
      ensures result.Err? && !aborted ==> result.error == ExecutionFailed'
    {
      var execution := ExecutionResult(values, script.environmentHash);
      if execution.Err? {
        return Err(if execution.error == Rejected then ExecutionFailed' else Reported(ExecutionFailed'));
      }
      stage := Proof;
      Suspend(script.assembly);
      result := if script.assembled then Ok(execution.value) else Err(Reported(ExecutionFailed'));
    }

    /** The reported code is that of a reason in the coordinator's log. */
    ghost predicate Coordinated(reported: RunnerCode)
      reads this, if coordinator.Some? then {coordinator.value} else {}
    {
      && coordinator.Some?
      && exists code :: Explains(coordinator.value.log, code, MAX_PROVIDER_RETRIES) && reported == CodeOf(code)
    }

    /** The runs were refused by the runner's own error, which is rethrown before the abort is looked at. */
    static predicate RunsRefused(runs: Option<seq<BoundedRun>>, environmentHash: string) {
      runs.Some? && ExecutionResult(runs.value, environmentHash) == Err(Rejected)
    }

    /** What a failed attempt reports when it was aborted. */
    function FailureCode(runs: Option<seq<BoundedRun>>, environmentHash: string): RunnerCode
      reads this
    {
      if RunsRefused(runs, environmentHash) then ExecutionFailed' else AbortedCode()
    }

    /**
     Once `provider.create` has returned a sandbox, every exit has requested its stop: once by whoever owns it,
     and a second time exactly when an abort stopped it before a hand-over that still took place. An aborted attempt
     that fails reports the abort, unless its runs were refused. `runs` are the runs, if the coordinator completed.
     */
    method Execute(input: Input, now: int, fresh': SessionId, script: Script)
      returns (result: Result<Execution, RunnerCode>, ghost runs: Option<seq<BoundedRun>>)
      requires InputAccepted(input)
      requires Valid() && prepared.None? && coordinator.None? && !stopPrepared && !lifecycleOwnsPrepared
      modifies this
      ensures prepared.Some? <==> !old(aborted) && script.created
      ensures StopRequests() == if prepared.None? then 0 else if StopsTwice(script) then 2 else 1
      ensures lifecycleOwnsPrepared <==> prepared.Some? && Completes(Preparation(script))
      ensures coordinator.Some? <==> lifecycleOwnsPrepared
      ensures runs == AllRuns(input.requiredRuns + 1)
      ensures result.Ok? <==>
                runs.Some? && ExecutionResult(runs.value, script.environmentHash).Ok? && script.assembled
      ensures result.Ok? ==> ExecutionResult(runs.value, script.environmentHash) == Ok(result.value)
      ensures result.Err? && aborted ==> result.error == FailureCode(runs, script.environmentHash)
      ensures result.Err? && !aborted ==>
                if prepared.None? then result.error == ExecutionFailed'
                else if coordinator.None? then result.error == Blame(Preparation(script))
                else if runs.Some? then result.error == ExecutionFailed' else Coordinated(result.error)
    {
      runs := None;
      if aborted {
        return Err(AbortedCode()), None;
      }
      Suspend(script.creation);
      if !script.created {
        return Err(Reported(ExecutionFailed')), None;
      }
      prepared := Some(fresh');
      listening := !aborted;
      var error := PrepareAll(script);
      if error.Some? {
        listening := false;
        CleanUpPrepared();
        return Err(error.value), None;
      }
      result, runs := HandOver(input, now, script);
    }
  }

  /** An instance, for any accepted input: a cancellation during acquisition, which completes all the same. */
  method TwoStops(input: Input, now: int, session: SessionId) returns (runner: Runner)
    requires InputAccepted(input)
    ensures fresh(runner) && runner.StopRequests() == 2
  {
    runner := new Runner(false);
    var done := Step(QUIET, Completed);
    var script := Script(QUIET, true, Step(Await(true, false), Completed), done, done, done, "environment", QUIET, QUIET, true);
    assert Aborts(Preparation(script)[0].arrives);
    var _, _ := runner.Execute(input, now, session, script);
  }
}
