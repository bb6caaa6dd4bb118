/**
 startTrustedReproduction as it runs: one call's code over the shared repository, with any number of other calls
 moving at each of its awaits. What it does is one call of the interleaved system, and its answer is that call's.
 */
module TrustedStart {
  import opened Wrappers
  import opened Lifecycle
  import opened CaseService

  class Service {
    const repository: InMemoryRepository
    var calls: seq<Call>
    var usedCases: set<string>
    var usedJobs: set<string>
    ghost var executions: seq<Scoped>

    /** The interleaving so far. */
    ghost var trace: seq<Event>

    ghost function State(): World
      reads this, repository
    {
      World(repository.Contents(), calls, usedCases, usedJobs, executions)
    }

    ghost predicate Valid()
      reads this, repository
    {
      State() == Run(trace)
    }

    constructor ()
      ensures Valid() && State() == EMPTY && fresh(repository)
    {
      repository := new InMemoryRepository();
      calls, usedCases, usedJobs, executions, trace := [], {}, {}, [], [];
    }

    // --- the other calls ------------------------------------------------------------------------

    /** What an await of call `i` leaves to the others: its own program counter, and the past. */
    twostate predicate Continues(i: nat)
      reads this, repository
    {
      Valid() && old(trace) <= trace && i < |calls| && i < old(|calls|) && calls[i] == old(calls[i])
    }

    /** Any schedule of the other calls, new ones included. */
    method Others(i: nat)
      requires Valid() && i < |calls|
      modifies this, repository
      ensures Continues(i)
    {
      var schedule: seq<Event> := *;
      for n := 0 to |schedule|
        invariant Continues(i)
      {
        var e := schedule[n];
        if !(e.Step? && e.call == i) {
          Happen(e);
        }
      }
    }

    method Happen(e: Event)
      requires Valid()
      modifies this, repository
      ensures Valid() && trace == old(trace) + [e] && State() == Next(old(State()), e)
    {
      ghost var before := State();
      var shown := World(repository.Contents(), calls, usedCases, usedJobs, []);
      var next := Next(shown, e);
      NextIgnoresExecutions(before, shown, e);
      repository.byCase, repository.byKey, repository.byJob := next.repository.byCase, next.repository.byKey, next.repository.byJob;
      calls, usedCases, usedJobs := next.calls, next.usedCases, next.usedJobs;
      executions := Next(before, e).executions;
      assert (trace + [e])[..|trace|] == trace;
      trace := trace + [e];
    }

    // --- this call ------------------------------------------------------------------------------

    method Begin(callerId: string, idempotencyKey: string, commandHash: string) returns (i: nat)
      requires Valid()
      modifies this
      ensures Valid() && old(trace) <= trace
      ensures i < |calls| && calls[i] == Call(callerId, idempotencyKey, commandHash, Lookup)
    {
      i := |calls|;
      ghost var e := Event.Begin(callerId, idempotencyKey, commandHash);
      assert (trace + [e])[..|trace|] == trace;
      calls := calls + [Call(callerId, idempotencyKey, commandHash, Lookup)];
      trace := trace + [e];
    }

    /** What call `i` just did is its step in the system; move its program counter. */
    method Enter(i: nat, phase: Phase, ghost before: World, ghost choice: Choice)
      requires before == Run(trace) && i < |before.calls| && Possible(before, Step(i, choice))
      requires Advance(before, i, choice) == SetPhase(State().(calls := before.calls), i, phase)
      requires calls == before.calls
      modifies this`calls, this`trace
      ensures Valid() && old(trace) <= trace
      ensures i < |calls| && calls[i] == before.calls[i].(phase := phase)
    {
      assert (trace + [Step(i, choice)])[..|trace|] == trace;
      calls := calls[i := calls[i].(phase := phase)];
      trace := trace + [Step(i, choice)];
    }

    /** nextCaseId and nextJobId: any identifier not given out before. */
    method NextId(used: set<string>) returns (id: string)
      ensures id !in used
    {
      var candidate: string := *;
      if candidate !in used {
        return candidate;
      }
      var rest, length := used, 0;
      while rest != {}
        invariant rest <= used
        invariant forall s :: s in used && s !in rest ==> |s| < length
      {
        var s :| s in rest;
        length := if |s| < length then length else |s| + 1;
        rest := rest - {s};
      }
      id := seq(length, _ => '0');
    }

    /** startTrustedReproduction. */
    method StartTrustedReproduction(callerId: string, idempotencyKey: string, commandHash: string)
      returns (i: nat, answer: Answer)
      requires Valid()
      modifies this, repository
      ensures Valid() && old(trace) <= trace
      ensures i < |calls| && calls[i] == Call(callerId, idempotencyKey, commandHash, Done(answer))
    {
      i := Begin(callerId, idempotencyKey, commandHash);
      Others(i);
      var c := calls[i];
      ghost var before := State();
      if Key(c) in repository.byKey {
        answer := Existing(c, repository.byKey[Key(c)]);
        ghost var freshCase := NextId(usedCases);
        ghost var freshJob := NextId(usedJobs);
        Enter(i, Done(answer), before, Choice(freshCase, freshJob, None, true));
        return;
      }
      var caseId := NextId(usedCases);
      var jobId := NextId(usedJobs);
      usedCases, usedJobs := usedCases + {caseId}, usedJobs + {jobId};
      Enter(i, Reserving(caseId, jobId), before, Choice(caseId, jobId, None, true));
      Others(i);
      answer := Reserve(i, caseId, jobId);
    }

    method Reserve(i: nat, caseId: string, jobId: string) returns (answer: Answer)
      requires Valid() && i < |calls| && calls[i].phase == Reserving(caseId, jobId)
      modifies this, repository
      ensures Valid() && old(trace) <= trace
      ensures i < |calls| && calls[i] == old(calls[i]).(phase := Done(answer))
    {
      var c := calls[i];
      ghost var before := State();
      var created, stored := repository.Reserve(RecordOf(c, caseId, jobId, Queued, None));
      if !created {
        answer := Existing(c, stored);
        Enter(i, Done(answer), before, Choice(caseId, jobId, None, true));
        return;
      }
      Enter(i, SavingRunning(caseId, jobId), before, Choice(caseId, jobId, None, true));
      Others(i);
      before := State();
      repository.WriteRecord(RecordOf(c, caseId, jobId, Running, None));
      Enter(i, Executing(caseId, jobId), before, Choice(caseId, jobId, None, true));
      Others(i);
      answer := ExecuteAndSave(i, caseId, jobId);
    }

    /** The sample run, which may throw. */
    method ExecuteAndSave(i: nat, caseId: string, jobId: string) returns (answer: Answer)
      requires Valid() && i < |calls| && calls[i].phase == Executing(caseId, jobId)
      modifies this, repository
      ensures Valid() && old(trace) <= trace
      ensures i < |calls| && calls[i] == old(calls[i]).(phase := Done(answer))
    {
      var throws: bool, state: string := *, *;
      var outcome := if throws then None else Some(SampleResult(caseId, state));
      ghost var before := State();
      executions := executions + [Key(calls[i])];
      Enter(i, SavingResult(caseId, jobId, outcome), before, Choice(caseId, jobId, outcome, true));
      Others(i);
      var saved := outcome.Some?;
      if outcome.Some? {
        saved, answer := SaveSucceeded(i, caseId, jobId, outcome.value);
      }
      if !saved {
        answer := SaveFailed(i, caseId, jobId);
      }
    }

    /** The rest of the try block; when the response is invalid the catch block is next. */
    method SaveSucceeded(i: nat, caseId: string, jobId: string, result: SampleResult) returns (valid: bool, answer: Answer)
      requires Valid() && i < |calls| && calls[i].phase == SavingResult(caseId, jobId, Some(result))
      modifies this, repository
      ensures Valid() && old(trace) <= trace
      ensures i < |calls|
      ensures calls[i] == old(calls[i]).(phase := if valid then Done(answer) else Responding(caseId, jobId, result))
    {
      var succeeded := RecordOf(calls[i], caseId, jobId, Succeeded, Some(result));
      ghost var before := State();
      repository.WriteRecord(succeeded);
      Enter(i, Responding(caseId, jobId, result), before, Choice(caseId, jobId, None, true));
      Others(i);
      answer := Started(false, succeeded);
      valid := *;
      if valid {
        before := State();
        Enter(i, Done(answer), before, Choice(caseId, jobId, None, true));
      }
    }

    /** The catch block. */
    method SaveFailed(i: nat, caseId: string, jobId: string) returns (answer: Answer)
      requires Valid() && i < |calls|
      requires calls[i].phase == SavingResult(caseId, jobId, None)
               || (calls[i].phase.Responding? && calls[i].phase.caseId == caseId && calls[i].phase.jobId == jobId)
      modifies this, repository
      ensures Valid() && old(trace) <= trace
      ensures i < |calls| && calls[i] == old(calls[i]).(phase := Done(answer)) && answer == ExecutionFailed
    {
      answer := ExecutionFailed;
      ghost var before := State();
      repository.WriteRecord(RecordOf(calls[i], caseId, jobId, JobState.Failed, None));
      Enter(i, Done(answer), before, Choice(caseId, jobId, None, false));
    }
  }

  /** The executions are a record of what happened; no step looks at them. */
  lemma NextIgnoresExecutions(w: World, v: World, e: Event)
    requires v == w.(executions := v.executions)
    ensures Next(v, e) == Next(w, e).(executions := Next(v, e).executions)
  {
  }

  /** What every answered start may rely on, whatever other starts were doing meanwhile. */
  lemma AnswersAreTruthful(s: Service, i: nat)
    requires s.Valid() && i < |s.calls| && s.calls[i].phase.Done?
    ensures Truthful(s.State(), s.calls[i])
    ensures Agree(s.repository.Contents())
  {
    RunKeepsInv(s.trace);
    assert CallOk(s.State(), s.calls[i]);
  }
}
