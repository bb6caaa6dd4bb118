/**
 The coordinator of one isolated attempt: snapshot the prepared sandbox, restore a fresh sandbox for every run,
 retry interrupted ones, and clean everything up whatever happens.

 The provider is adversarial: every call may succeed or throw, and an abort or the attempt timeout may arrive
 at any suspension point. A ghost log records what was asked of the provider and how it answered; a monitor
 automaton over the log states the lifecycle discipline.
 */
module SandboxLifecycle {
  import opened Wrappers

  type SessionId = nat

  datatype CleanupStatus = Clean | Quarantined

  datatype Code = AttemptTimeout | BudgetExhausted | Cancelled | ExecutionFailed | ProviderInterrupted

  /** The life of one sandbox: handed over or restored, stop requested, stop resolved or rejected, quarantined. */
  datatype SessionStep = Obtained | StopAsked | StopResolved | StopRejected | SessionQuarantined

  /** The life of the snapshot. */
  datatype SnapshotStep = Unasked | Asked | Taken | DeleteAsked | DeleteResolved | DeleteRejected | SnapshotQuarantined

  /** How a run callback ends. */
  datatype RunOutcome<V> =
    | Value(value: V)
    | LimitExceeded
    | Interrupted
    | Lifecycle(code: Code)
    | Failure

  datatype Event<V> =
    | AbortVisible
    | SnapshotMoved(snapshot: SnapshotStep)
    | SessionMoved(session: SessionId, step: SessionStep)
    | RestoreAsked(index: nat)
    | RestoreRejected(index: nat)
    | RunStarted(index: nat, session: SessionId)
    | RunEnded(index: nat, session: SessionId, outcome: RunOutcome<V>)
    | RunAccepted(index: nat, session: SessionId, value: V)

  /** Everything that happened, the latest event last. */
  datatype Log<V> = Nothing | Then(past: Log<V>, last: Event<V>)

  ghost function Count<V>(log: Log<V>, e: Event<V>): nat {
    if log.Nothing? then 0 else Count(log.past, e) + if log.last == e then 1 else 0
  }

  ghost predicate Occurs<V>(log: Log<V>, e: Event<V>) {
    log.Then? && (log.last == e || Occurs(log.past, e))
  }

  // ---------------------------------------------------------------------------------------------
  // The monitor
  // ---------------------------------------------------------------------------------------------

  datatype Facts<V> = Facts(
    aborted: bool,
    snapshot: SnapshotStep,
    sessions: map<SessionId, SessionStep>,
    failed: bool,
    running: Option<SessionId>,
    accepted: seq<V>,
    restores: nat,
    tally: Tally<V>,
    most: nat)

  /**
   What became of the run that is next to be accepted: the restores asked for, those that were rejected or whose run was
   interrupted, and how the run ended otherwise.
   */
  datatype Tally<V> = Tally(restores: nat, setbacks: nat, ending: Option<RunOutcome<V>>)

  function Start<V>(prepared: SessionId): Facts<V> {
    Facts(false, Unasked, map[prepared := Obtained], false, None, [], 0, Tally(0, 0, None), 0)
  }

  function Apply<V>(f: Facts<V>, e: Event<V>): Facts<V> {
    match e
    case AbortVisible => f.(aborted := true)
    case SnapshotMoved(step) => f.(snapshot := step, failed := f.failed || step == DeleteRejected)
    case SessionMoved(s, step) => f.(sessions := f.sessions[s := step], failed := f.failed || step == StopRejected)
    case RestoreAsked(_) =>
      f.(restores := f.restores + 1, tally := f.tally.(restores := f.tally.restores + 1),
         most := if f.most > f.tally.restores then f.most else f.tally.restores + 1)
    case RestoreRejected(_) => f.(tally := f.tally.(setbacks := f.tally.setbacks + 1))
    case RunStarted(_, s) => f.(running := Some(s))
    case RunEnded(_, _, o) =>
      f.(tally := if o.Interrupted? then f.tally.(setbacks := f.tally.setbacks + 1) else f.tally.(ending := Some(o)))
    case RunAccepted(_, _, v) => f.(running := None, accepted := f.accepted + [v], tally := Tally(0, 0, None))
  }

  predicate SessionMayMove(from: Option<SessionStep>, step: SessionStep) {
    match step
    case Obtained => from == None
    case StopAsked => from == Some(Obtained)
    case StopResolved => from == Some(StopAsked)
    case StopRejected => from == Some(StopAsked)
    case SessionQuarantined => from == Some(StopRejected)
  }

  predicate SnapshotMayMove(from: SnapshotStep, step: SnapshotStep) {
    match step
    case Unasked => false
    case Asked => from == Unasked
    case Taken => from == Asked
    case DeleteAsked => from == Taken
    case DeleteResolved => from == DeleteAsked
    case DeleteRejected => from == DeleteAsked
    case SnapshotQuarantined => from == DeleteRejected
  }

  predicate StopSettled(step: SessionStep) { step != Obtained && step != StopAsked }

  function StepOf<V>(f: Facts<V>, s: SessionId): Option<SessionStep> {
    if s in f.sessions then Some(f.sessions[s]) else None
  }

  /** One more restore was asked for than has come to nothing. */
  predicate UnderWay<V>(t: Tally<V>) { t.restores == t.setbacks + 1 && t.ending.None? }

  /** The lifecycle discipline: when may an event happen? */
  ghost predicate Allowed<V>(f: Facts<V>, e: Event<V>) {
    match e
    case AbortVisible => !f.aborted
    case SnapshotMoved(step) => SnapshotMayMove(f.snapshot, step)
    case SessionMoved(s, step) => SessionMayMove(StepOf(f, s), step)
    case RestoreAsked(index) =>
      // Only from the snapshot, never once an abort is visible, never before every earlier stop has settled.
      // and never for a run that has ended otherwise than by a setback.
      && f.snapshot == Taken && !f.aborted && index == |f.accepted|
      && f.tally.restores == f.tally.setbacks && f.tally.ending.None?
      && forall s :: s in f.sessions ==> StopSettled(f.sessions[s])
    case RestoreRejected(index) => index == |f.accepted| && UnderWay(f.tally)
    case RunStarted(index, s) => StepOf(f, s) == Some(Obtained) && index == |f.accepted| && UnderWay(f.tally)
    case RunEnded(index, s, _) => f.running == Some(s) && index == |f.accepted| && UnderWay(f.tally)
    case RunAccepted(index, s, v) =>
      && f.running == Some(s) && StepOf(f, s) == Some(Obtained) && index == |f.accepted| && !f.aborted
      && f.tally.ending == Some(Value(v)) && f.tally.restores == f.tally.setbacks + 1
  }

  ghost predicate StepDrifts(step: SessionStep, later: SessionStep, mayStop: bool) {
    || later == step
    || (step == Obtained && mayStop)
    || (step == StopAsked && later != Obtained)
  }

  /** What an await may change: an abort becomes visible, and clean-ups go on, starting one at most. */
  ghost predicate Drifts<V>(f: Facts<V>, g: Facts<V>, stopping: Option<SessionId>) {
    && g == f.(aborted := g.aborted, sessions := g.sessions, failed := g.failed)
    && (f.aborted ==> g.aborted)
    && g.sessions.Keys == f.sessions.Keys
    && forall s :: s in f.sessions ==> StepDrifts(f.sessions[s], g.sessions[s], stopping == Some(s))
  }

  lemma DriftsOn<V>(f: Facts<V>, g: Facts<V>, h: Facts<V>, stopping: Option<SessionId>)
    requires Drifts(f, g, stopping) && (Drifts(g, h, None) || Drifts(g, h, stopping))
    ensures Drifts(f, h, stopping)
  {
  }

  function Observe<V>(prepared: SessionId, log: Log<V>): Facts<V> {
    if log.Nothing? then Start(prepared) else Apply(Observe(prepared, log.past), log.last)
  }

  /** Every event was allowed when it happened. */
  ghost predicate Orderly<V>(prepared: SessionId, log: Log<V>) {
    log.Nothing? || (Orderly(prepared, log.past) && Allowed(Observe(prepared, log.past), log.last))
  }

  ghost predicate KnowsSession<V>(step: Option<SessionStep>, log: Log<V>, s: SessionId, given: bool) {
    && (given || Occurs(log, SessionMoved(s, Obtained)) <==> step.Some?)
    && Count(log, SessionMoved(s, StopAsked)) == (if step.Some? && step.value != Obtained then 1 else 0)
    && (Occurs(log, SessionMoved(s, StopResolved)) <==> step == Some(StopResolved))
    && (Occurs(log, SessionMoved(s, StopRejected)) <==> step == Some(StopRejected) || step == Some(SessionQuarantined))
    && Count(log, SessionMoved(s, SessionQuarantined)) == (if step == Some(SessionQuarantined) then 1 else 0)
  }

  lemma StillKnowsSession<V>(f: Facts<V>, past: Log<V>, e: Event<V>, s: SessionId, given: bool)
    requires Allowed(f, e) && KnowsSession(StepOf(f, s), past, s, given)
    ensures KnowsSession(StepOf(Apply(f, e), s), Then(past, e), s, given)
  {
  }

  /** What the monitor knows of a session is what the log says: it is stopped and quarantined at most once. */
  lemma {:induction false} RemembersSession<V>(prepared: SessionId, log: Log<V>, s: SessionId)
    requires Orderly(prepared, log)
    ensures var step := StepOf(Observe(prepared, log), s);
            && (s == prepared || Occurs(log, SessionMoved(s, Obtained)) <==> step.Some?)
            && Count(log, SessionMoved(s, StopAsked)) == (if step.Some? && step.value != Obtained then 1 else 0)
            && (Occurs(log, SessionMoved(s, StopResolved)) <==> step == Some(StopResolved))
            && (Occurs(log, SessionMoved(s, StopRejected)) <==> step == Some(StopRejected) || step == Some(SessionQuarantined))
            && Count(log, SessionMoved(s, SessionQuarantined)) == (if step == Some(SessionQuarantined) then 1 else 0)
  {
    if log.Then? {
      RemembersSession(prepared, log.past, s);
      StillKnowsSession(Observe(prepared, log.past), log.past, log.last, s, s == prepared);
      assert log == Then(log.past, log.last);
    }
  }

  ghost predicate KnowsSnapshot<V>(step: SnapshotStep, log: Log<V>) {
    && (Occurs(log, SnapshotMoved(Asked)) <==> step != Unasked)
    && (Occurs(log, SnapshotMoved(Taken)) <==> step != Unasked && step != Asked)
    && Count(log, SnapshotMoved(DeleteAsked)) == (if step in {Unasked, Asked, Taken} then 0 else 1)
    && (Occurs(log, SnapshotMoved(DeleteResolved)) <==> step == DeleteResolved)
    && (Occurs(log, SnapshotMoved(DeleteRejected)) <==> step == DeleteRejected || step == SnapshotQuarantined)
    && Count(log, SnapshotMoved(SnapshotQuarantined)) == (if step == SnapshotQuarantined then 1 else 0)
  }

  lemma StillKnowsSnapshot<V>(f: Facts<V>, past: Log<V>, e: Event<V>)
    requires Allowed(f, e) && KnowsSnapshot(f.snapshot, past)
    ensures KnowsSnapshot(Apply(f, e).snapshot, Then(past, e))
  {
  }

  lemma {:induction false} RemembersSnapshot<V>(prepared: SessionId, log: Log<V>)
    requires Orderly(prepared, log)
    ensures KnowsSnapshot(Observe(prepared, log).snapshot, log)
  {
    if log.Then? {
      RemembersSnapshot(prepared, log.past);
      StillKnowsSnapshot(Observe(prepared, log.past), log.past, log.last);
      assert log == Then(log.past, log.last);
    }
  }

  lemma {:induction false} RemembersFailures<V>(prepared: SessionId, log: Log<V>)
    requires Orderly(prepared, log)
    ensures Observe(prepared, log).failed <==>
            Occurs(log, SnapshotMoved(DeleteRejected)) || exists s: SessionId :: Occurs(log, SessionMoved(s, StopRejected))
  {
    if log.Then? {
      RemembersFailures(prepared, log.past);
      if log.last.SessionMoved? && log.last.step == StopRejected {
        assert Occurs(log, SessionMoved(log.last.session, StopRejected));
      }
    }
  }

  lemma {:induction false} RemembersRestores<V>(prepared: SessionId, log: Log<V>)
    requires Orderly(prepared, log)
    ensures Observe(prepared, log).restores == Restores(log)
    ensures Observe(prepared, log).accepted == AcceptedValues(log)
    ensures Observe(prepared, log).aborted <==> Occurs(log, AbortVisible)
  {
    if log.Then? {
      RemembersRestores(prepared, log.past);
      StillKnowsRestores(Observe(prepared, log.past), log.past, log.last);
      assert log == Then(log.past, log.last);
    }
  }

  lemma StillKnowsRestores<V>(f: Facts<V>, past: Log<V>, e: Event<V>)
    requires f.restores == Restores(past) && f.accepted == AcceptedValues(past) && (f.aborted <==> Occurs(past, AbortVisible))
    ensures var g, log := Apply(f, e), Then(past, e);
            g.restores == Restores(log) && g.accepted == AcceptedValues(log) && (g.aborted <==> Occurs(log, AbortVisible))
  {
  }

  ghost function Restores<V>(log: Log<V>): nat {
    if log.Nothing? then 0 else Restores(log.past) + if log.last.RestoreAsked? then 1 else 0
  }

  /** The values of the accepted runs, in order. */
  ghost function AcceptedValues<V>(log: Log<V>): seq<V> {
    if log.Nothing? then []
    else AcceptedValues(log.past) + if log.last.RunAccepted? then [log.last.value] else []
  }

  /** How often a restore for the run of this index was asked for. */
  ghost function RestoresOf<V>(log: Log<V>, index: nat): nat {
    if log.Nothing? then 0 else RestoresOf(log.past, index) + if log.last == RestoreAsked(index) then 1 else 0
  }

  predicate IsSetback<V>(e: Event<V>, index: nat) {
    (e.RestoreRejected? && e.index == index) || (e.RunEnded? && e.index == index && e.outcome.Interrupted?)
  }

  /** How often such a restore was rejected, or the run on it interrupted. */
  ghost function SetbacksOf<V>(log: Log<V>, index: nat): nat {
    if log.Nothing? then 0 else SetbacksOf(log.past, index) + if IsSetback(log.last, index) then 1 else 0
  }

  ghost predicate EndedWith<V>(log: Log<V>, index: nat, outcome: RunOutcome<V>) {
    exists s: SessionId :: Occurs(log, RunEnded(index, s, outcome))
  }

  /** Every restore of an accepted run but the last one was followed by a setback, and so are those of the next run. */
  lemma {:induction false} RemembersTally<V>(prepared: SessionId, log: Log<V>, index: nat)
    requires Orderly(prepared, log)
    ensures var f := Observe(prepared, log);
            && RestoresOf(log, index) <= f.most
            && (index < |f.accepted| ==> RestoresOf(log, index) == SetbacksOf(log, index) + 1)
            && (index == |f.accepted| ==>
                  RestoresOf(log, index) == f.tally.restores && SetbacksOf(log, index) == f.tally.setbacks)
            && (index > |f.accepted| ==> RestoresOf(log, index) == 0 && SetbacksOf(log, index) == 0)
  {
    if log.Then? {
      RemembersTally(prepared, log.past, index);
    }
  }

  lemma EndedStays<V>(log: Log<V>, index: nat, outcome: RunOutcome<V>)
    requires log.Then? && EndedWith(log.past, index, outcome)
    ensures EndedWith(log, index, outcome)
  {
    var s: SessionId :| Occurs(log.past, RunEnded(index, s, outcome));
    assert Occurs(log, RunEnded(index, s, outcome));
  }

  lemma {:induction false} RemembersEnding<V>(prepared: SessionId, log: Log<V>)
    requires Orderly(prepared, log)
    ensures var f := Observe(prepared, log);
            f.tally.ending.Some? ==> EndedWith(log, |f.accepted|, f.tally.ending.value)
  {
    if log.Then? {
      RemembersEnding(prepared, log.past);
      var before, f := Observe(prepared, log.past), Observe(prepared, log);
      if log.last.RunEnded? {
        assert Occurs(log, RunEnded(log.last.index, log.last.session, log.last.outcome));
      } else if before.tally.ending.Some? {
        EndedStays(log, |before.accepted|, before.tally.ending.value);
      }
    }
  }

  /** What is reported of a run that ended this way; a value, and an interruption with a retry left, are no failure. */
  function EndingCode<V>(outcome: RunOutcome<V>): Option<Code> {
    match outcome
    case Value(_) | Interrupted => None
    case LimitExceeded => Some(BudgetExhausted)
    case Lifecycle(code) => Some(code)
    case Failure => Some(ExecutionFailed)
  }

  /** Why the run that is next to be accepted was given up. */
  predicate GaveUp<V>(f: Facts<V>, code: Code, maxProviderRetries: nat) {
    || (f.aborted && code in {AttemptTimeout, Cancelled})
    || (f.snapshot == Asked && code == ProviderInterrupted)
    || (f.tally.ending.None? && f.tally.restores == f.tally.setbacks == 1 + maxProviderRetries && code == ProviderInterrupted)
    || (f.tally.ending.Some? && EndingCode(f.tally.ending.value) == Some(code))
  }

  /** The same in terms of the log: an abort, no snapshot, every retry used up, or a run that failed for good. */
  ghost predicate Explains<V>(log: Log<V>, code: Code, maxProviderRetries: nat) {
    var index := |AcceptedValues(log)|;
    || (Occurs(log, AbortVisible) && code in {AttemptTimeout, Cancelled})
    || (Occurs(log, SnapshotMoved(Asked)) && !Occurs(log, SnapshotMoved(Taken)) && code == ProviderInterrupted)
    || (RestoresOf(log, index) == SetbacksOf(log, index) == 1 + maxProviderRetries && code == ProviderInterrupted)
    || (EndedWith(log, index, LimitExceeded) && code == BudgetExhausted)
    || EndedWith(log, index, Lifecycle(code))
    || (EndedWith(log, index, Failure) && code == ExecutionFailed)
  }

  /** A run of this index started on a session and its value was accepted there. */
  ghost predicate RanAs<V>(log: Log<V>, index: nat, value: V) {
    exists s: SessionId :: Occurs(log, RunStarted(index, s)) && Occurs(log, RunAccepted(index, s, value))
  }

  /** The accepted values are in the order of the runs: value i comes from run i. */
  lemma {:induction false} ValueComesFromItsRun<V>(prepared: SessionId, log: Log<V>, i: nat)
    requires Orderly(prepared, log) && i < |AcceptedValues(log)|
    ensures RanAs(log, i, AcceptedValues(log)[i])
  {
    var before := AcceptedValues(log.past);
    if i < |before| {
      ValueComesFromItsRun(prepared, log.past, i);
      var s: SessionId :| Occurs(log.past, RunStarted(i, s)) && Occurs(log.past, RunAccepted(i, s, before[i]));
      assert Occurs(log, RunStarted(i, s)) && Occurs(log, RunAccepted(i, s, before[i]));
    } else {
      RemembersRestores(prepared, log.past);
      RunningWasStarted(prepared, log.past);
      assert Occurs(log, RunStarted(i, log.last.session)) && Occurs(log, RunAccepted(i, log.last.session, log.last.value));
    }
  }

  /** The log after the coordinator has left, whichever way it left. */
  ghost predicate CleanedUp<V>(prepared: SessionId, log: Log<V>, status: CleanupStatus) {
    // Every session the coordinator was given or restored: stopped exactly once, and the stop has settled.
    && (forall s: SessionId :: s == prepared || Occurs(log, SessionMoved(s, Obtained)) ==>
          && Count(log, SessionMoved(s, StopAsked)) == 1
          && (Occurs(log, SessionMoved(s, StopResolved)) || Occurs(log, SessionMoved(s, StopRejected))))
    // A snapshot that was obtained: deleted exactly once, and the deletion has settled.
    && Count(log, SnapshotMoved(DeleteAsked)) == (if Occurs(log, SnapshotMoved(Taken)) then 1 else 0)
    && (Occurs(log, SnapshotMoved(Taken)) ==>
          Occurs(log, SnapshotMoved(DeleteResolved)) || Occurs(log, SnapshotMoved(DeleteRejected)))
    // The reported status is clean exactly when no clean-up failed, and each failure was quarantined exactly once.
    && (status == Clean <==>
          !Occurs(log, SnapshotMoved(DeleteRejected)) && forall s: SessionId :: !Occurs(log, SessionMoved(s, StopRejected)))
    && (forall s: SessionId ::
          Count(log, SessionMoved(s, SessionQuarantined)) == if Occurs(log, SessionMoved(s, StopRejected)) then 1 else 0)
    && Count(log, SnapshotMoved(SnapshotQuarantined)) == (if Occurs(log, SnapshotMoved(DeleteRejected)) then 1 else 0)
  }

  // ---------------------------------------------------------------------------------------------
  // One attempt
  // ---------------------------------------------------------------------------------------------

  /** How one iteration of the run loop ends. */
  datatype RunStep = Next | Retry | Throw(code: Code)

  datatype RunResult<V> = RunResult(cleanupStatus: CleanupStatus, providerRetries: nat, values: seq<V>)

  const MAX_PROVIDER_RETRIES := 1
  const MAX_ATTEMPT_TIMEOUT_MS := 900_000
  const MAX_RUN_COUNT := 6

  /** One `execute` call: its abort controller, its memoised clean-ups and its accumulators. */
  class Attempt<V(0)> {
    const prepared: SessionId
    const maxProviderRetries: nat
    var aborted: bool
    var timedOut: bool
    var onAbort: Option<SessionId>
    /** The memoised clean-up of every known session: none yet, pending, or settled. */
    var cleanup: map<SessionId, SessionStep>
    var cleanupStatus: CleanupStatus
    var snapshot: bool
    var providerRetries: nat
    var values: seq<V>
    var nextSession: nat
    ghost var log: Log<V>
    /** The monitor's state after the log. */
    ghost var facts: Facts<V>

    ghost predicate Recorded()
      reads this
    {
      Orderly(prepared, log) && facts == Observe(prepared, log)
    }

    ghost predicate Valid()
      reads this
    {
      && Recorded()
      && aborted == facts.aborted
      && (snapshot <==> facts.snapshot != Unasked && facts.snapshot != Asked)
      && facts.snapshot != DeleteRejected
      && cleanup == facts.sessions && prepared in cleanup
      && (forall s :: s in cleanup ==> s < nextSession && cleanup[s] != StopRejected)
      && (cleanupStatus == Quarantined <==> facts.failed)
      && values == facts.accepted
      && (onAbort.Some? ==> onAbort.value in cleanup && !aborted)
    }

    constructor (prepared: SessionId, maxProviderRetries: nat, alreadyAborted: bool)
      ensures Valid() && this.prepared == prepared && this.maxProviderRetries == maxProviderRetries
      ensures onAbort == None && providerRetries == 0
      ensures facts == Start(prepared).(aborted := alreadyAborted)
    {
      this.prepared, this.maxProviderRetries := prepared, maxProviderRetries;
      aborted, timedOut, onAbort := alreadyAborted, false, None;
      cleanup, cleanupStatus, snapshot := map[prepared := Obtained], Clean, false;
      providerRetries, values, nextSession := 0, [], prepared + 1;
      log, facts := Nothing, Start(prepared);
      new;
      if alreadyAborted {
        Emit(AbortVisible);
      }
    }

    method Emit(e: Event<V>)
      requires Recorded() && Allowed(facts, e)
      modifies this`log, this`facts
      ensures Recorded() && log == Then(old(log), e)
      ensures facts == Apply(old(facts), e)
    {
      log := Then(log, e);
      facts := Apply(facts, e);
    }

    /** `cleanupSession` up to its promise: ask once, remember. */
    method RequestStop(s: SessionId)
      requires Valid() && s in cleanup
      modifies this`cleanup, this`log, this`facts
      ensures Valid() && s in cleanup && cleanup[s] != Obtained
      ensures Drifts(old(facts), facts, Some(s)) && facts.aborted == old(facts.aborted)
    {
      if cleanup[s] == Obtained {
        Emit(SessionMoved(s, StopAsked));
        cleanup := cleanup[s := StopAsked];
      }
    }

    /** A pending stop resolves or rejects; a rejection quarantines the session. */
    method SettleStop(s: SessionId)
      requires Valid() && s in cleanup && cleanup[s] == StopAsked
      modifies this`cleanup, this`cleanupStatus, this`log, this`facts
      ensures Valid()
      ensures Drifts(old(facts), facts, None) && facts.aborted == old(facts.aborted)
      ensures s in cleanup && StopSettled(cleanup[s])
    {
      var ok: bool := *;
      if ok {
        Emit(SessionMoved(s, StopResolved));
        cleanup := cleanup[s := StopResolved];
      } else {
        Emit(SessionMoved(s, StopRejected));
        cleanupStatus := Quarantined;
        Emit(SessionMoved(s, SessionQuarantined));
        assert facts.sessions == old(facts.sessions)[s := SessionQuarantined];
        cleanup := cleanup[s := SessionQuarantined];
      }
    }

    /** One await: the timeout or a cancellation may abort, the abort listener runs, a pending stop may settle. */
    method Suspend()
      requires Valid()
      modifies this
      ensures Valid() && Drifts(old(facts), facts, old(onAbort))
      ensures snapshot == old(snapshot) && providerRetries == old(providerRetries) && nextSession == old(nextSession)
      ensures onAbort == None || onAbort == old(onAbort)
      ensures !aborted ==> onAbort == old(onAbort) && Drifts(old(facts), facts, None)
    {
      ghost var f, listener := facts, onAbort;
      AbortMayArrive();
      ghost var g := facts;
      StopsMaySettle();
      DriftsOn(f, g, facts, listener);
    }

    method AbortMayArrive()
      requires Valid()
      modifies this
      ensures Valid() && Drifts(old(facts), facts, old(onAbort))
      ensures snapshot == old(snapshot) && providerRetries == old(providerRetries) && nextSession == old(nextSession)
      ensures onAbort == None || onAbort == old(onAbort)
      ensures !aborted ==> onAbort == old(onAbort) && facts == old(facts)
    {
      var cancel: bool, timeout: bool := *, *;
      timedOut := timedOut || timeout;
      if (cancel || timeout) && !aborted {
        var listener := onAbort;
        Abort();
        if listener.Some? {
          RequestStop(listener.value);
        }
      }
    }

    /** `controller.abort()`; its listeners are registered once. */
    method Abort()
      requires Valid() && !aborted
      modifies this`aborted, this`onAbort, this`log, this`facts
      ensures Valid() && aborted && onAbort == None
      ensures facts == old(facts).(aborted := true)
    {
      Emit(AbortVisible);
      aborted := true;
      onAbort := None;
    }

    method StopsMaySettle()
      requires Valid()
      modifies this`cleanup, this`cleanupStatus, this`log, this`facts
      ensures Valid() && Drifts(old(facts), facts, None)
      ensures facts.aborted == old(facts.aborted)
    {
      var settles: bool := *;
      if settles && exists s :: s in cleanup && cleanup[s] == StopAsked {
        var s :| s in cleanup && cleanup[s] == StopAsked;
        SettleStop(s);
      }
    }

    /** `await cleanupSession(s)`; it never rejects. */
    method CleanUpSession(s: SessionId)
      requires Valid() && s in cleanup && onAbort == None
      modifies this
      ensures Valid() && Drifts(old(facts), facts, Some(s)) && onAbort == None
      ensures snapshot == old(snapshot) && providerRetries == old(providerRetries) && nextSession == old(nextSession)
      ensures StopSettled(cleanup[s])
    {
      ghost var f := facts;
      RequestStop(s);
      ghost var g := facts;
      AwaitStop(s);
      DriftsOn(f, g, facts, Some(s));
    }

    /** Waits for a stop that was asked for. */
    method AwaitStop(s: SessionId)
      requires Valid() && s in cleanup && cleanup[s] != Obtained && onAbort == None
      modifies this
      ensures Valid() && Drifts(old(facts), facts, None) && onAbort == None
      ensures snapshot == old(snapshot) && providerRetries == old(providerRetries) && nextSession == old(nextSession)
      ensures s in cleanup && StopSettled(cleanup[s])
    {
      ghost var f := facts;
      Suspend();
      ghost var g := facts;
      if cleanup[s] == StopAsked {
        SettleStop(s);
        DriftsOn(f, g, facts, None);
      }
    }

    // --- the coordinator's control flow -------------------------------------------------------------

    function AbortCode(): Code
      reads this
    {
      if timedOut then AttemptTimeout else Cancelled
    }

    /** No session is running or half stopped. */
    ghost predicate Quiet()
      reads this
    {
      onAbort == None && forall s :: s in cleanup ==> StopSettled(cleanup[s])
    }

    ghost predicate Ready()
      reads this
    {
      Valid() && Quiet() && facts.snapshot == Taken
    }

    /** So many setbacks, and nothing else, since the last accepted run. */
    ghost predicate SetBack(times: nat)
      reads this
    {
      facts.tally == Tally(times, times, None)
    }

    ghost predicate Trying(retries: nat)
      reads this
    {
      facts.tally == Tally(retries + 1, retries, None)
    }

    method TakeSnapshot() returns (error: Option<Code>)
      requires Valid() && onAbort == None && !aborted && facts.snapshot == Unasked
      requires cleanup == map[prepared := Obtained]
      modifies this
      ensures Valid() && onAbort == None && cleanup == old(cleanup)
      ensures facts == old(facts).(aborted := aborted, snapshot := if error.None? then Taken else Asked, failed := facts.failed)
      ensures providerRetries == old(providerRetries)
      ensures error.Some? ==> GaveUp(facts, error.value, maxProviderRetries)
    {
      Emit(SnapshotMoved(Asked));
      Suspend();
      assert cleanup == old(cleanup);
      var taken: bool := *;
      if taken {
        Emit(SnapshotMoved(Taken));
        snapshot := true;
        error := None;
      } else {
        error := Some(if aborted then AbortCode() else ProviderInterrupted);
      }
    }

    method Restore(index: nat, retries: nat) returns (session: Option<SessionId>)
      requires Ready() && !aborted && index == |values| && SetBack(retries)
      modifies this
      ensures if session.None? then SetBack(retries + 1) else Trying(retries)
      ensures facts.most == if old(facts.most) > retries then old(facts.most) else retries + 1
      ensures Valid() && onAbort == None && facts.snapshot == Taken
      ensures values == old(values) && providerRetries == old(providerRetries)
      ensures facts.restores == old(facts.restores) + 1
      ensures session.None? ==> Quiet()
      ensures session.Some? ==>
                && session.value in cleanup && cleanup[session.value] == Obtained
                && forall s :: s in cleanup && s != session.value ==> StopSettled(cleanup[s])
    {
      Emit(RestoreAsked(index));
      Suspend();
      var restored: bool := *;
      if restored {
        session := Some(nextSession);
        Obtain();
      } else {
        session := None;
        Emit(RestoreRejected(index));
      }
    }

    /** A fresh session. */
    method Obtain()
      requires Valid()
      modifies this`cleanup, this`nextSession, this`log, this`facts
      ensures Valid() && cleanup == old(cleanup)[old(nextSession) := Obtained] && old(nextSession) !in old(cleanup)
      ensures facts == old(facts).(sessions := facts.sessions)
    {
      Emit(SessionMoved(nextSession, Obtained));
      cleanup := cleanup[nextSession := Obtained];
      nextSession := nextSession + 1;
    }

    /** The run callback in progress, with the abort listener of its session registered around it. */
    method AwaitRun(index: nat, session: SessionId)
      requires Valid() && onAbort == None && index == |values| && facts.snapshot == Taken && UnderWay(facts.tally)
      requires session in cleanup && cleanup[session] == Obtained
      modifies this
      ensures Valid() && onAbort == None && facts.snapshot == Taken && facts.running == Some(session)
      ensures cleanup.Keys == old(cleanup.Keys) && (!aborted ==> cleanup[session] == Obtained)
      ensures forall s :: s in cleanup && s != session && StopSettled(old(cleanup[s])) ==> StopSettled(cleanup[s])
      ensures providerRetries == old(providerRetries) && facts.restores == old(facts.restores) && values == old(values)
      ensures facts.tally == old(facts.tally) && facts.most == old(facts.most)
    {
      StartRun(index, session);
      Suspend();
      onAbort := None;
    }

    /** The listener is only called for an abort that is still to come. */
    method StartRun(index: nat, session: SessionId)
      requires Valid() && onAbort == None && index == |values| && session in cleanup && cleanup[session] == Obtained
      requires UnderWay(facts.tally)
      modifies this`onAbort, this`log, this`facts
      ensures Valid() && facts == old(facts).(running := Some(session))
      ensures onAbort == if aborted then None else Some(session)
    {
      Emit(RunStarted(index, session));
      if !aborted {
        onAbort := Some(session);
      }
    }

    /** One run: its value is accepted unless an abort became visible. */
    method Call(index: nat, session: SessionId, retries: nat) returns (outcome: RunOutcome<V>)
      requires Valid() && onAbort == None && index == |values| && facts.snapshot == Taken && Trying(retries)
      requires session in cleanup && cleanup[session] == Obtained
      modifies this
      ensures Valid() && onAbort == None && facts.snapshot == Taken
      ensures session in cleanup && cleanup.Keys == old(cleanup.Keys)
      ensures forall s :: s in cleanup && s != session && StopSettled(old(cleanup[s])) ==> StopSettled(cleanup[s])
      ensures providerRetries == old(providerRetries) && facts.restores == old(facts.restores)
      ensures values == old(values) + if outcome.Value? && !aborted then [outcome.value] else []
      ensures if outcome.Value? && !aborted then SetBack(0)
              else if outcome.Interrupted? then SetBack(retries + 1)
              else facts.tally.ending == Some(outcome)
      ensures facts.most == old(facts.most)
    {
      AwaitRun(index, session);
      outcome := *;
      Emit(RunEnded(index, session, outcome));
      if outcome.Value? && !aborted {
        Emit(RunAccepted(index, session, outcome.value));
        values := values + [outcome.value];
      }
    }

    method RunOnce(index: nat, session: SessionId, retries: nat) returns (step: RunStep)
      requires Valid() && onAbort == None && index == |values| && facts.snapshot == Taken
      requires session in cleanup && cleanup[session] == Obtained
      requires forall s :: s in cleanup && s != session ==> StopSettled(cleanup[s])
      requires Trying(retries) && retries <= maxProviderRetries
      modifies this
      ensures Ready()
      ensures providerRetries == old(providerRetries) && facts.restores == old(facts.restores)
      ensures facts.most == old(facts.most)
      ensures |values| == old(|values|) + if step == Next then 1 else 0
      ensures match step
              case Next => SetBack(0)
              case Retry => retries < maxProviderRetries && SetBack(retries + 1)
              case Throw(code) => GaveUp(facts, code, maxProviderRetries)
    {
      var outcome := Call(index, session, retries);
      if aborted {
        step := Throw(AbortCode());
      } else {
        match outcome
        case Value(_) => step := Next;
        case LimitExceeded => step := Throw(BudgetExhausted);
        case Interrupted => step := if retries < maxProviderRetries then Retry else Throw(ProviderInterrupted);
        case Lifecycle(code) => step := Throw(code);
        case Failure => step := Throw(ExecutionFailed);
      }
      CleanUpSession(session);
    }

    /** One restore and the run on it. */
    method TryOnce(index: nat, retries: nat) returns (step: RunStep)
      requires Ready() && !aborted && index == |values| && SetBack(retries) && retries <= maxProviderRetries
      requires facts.most <= 1 + maxProviderRetries
      modifies this
      ensures Ready() && facts.most <= 1 + maxProviderRetries
      ensures providerRetries == old(providerRetries) && facts.restores == old(facts.restores) + 1
      ensures |values| == index + if step == Next then 1 else 0
      ensures match step
              case Next => SetBack(0)
              case Retry => retries < maxProviderRetries && SetBack(retries + 1)
              case Throw(code) => GaveUp(facts, code, maxProviderRetries)
    {
      var session := Restore(index, retries);
      if session.None? {
        step := if aborted then Throw(AbortCode())
                else if retries < maxProviderRetries then Retry else Throw(ProviderInterrupted);
      } else {
        step := RunOnce(index, session.value, retries);
      }
    }

    /** One run: restore and call, again after a setback as long as retries remain. */
    method RunIndex(index: nat) returns (error: Option<Code>)
      requires Ready() && index == |values| && SetBack(0) && facts.most <= 1 + maxProviderRetries
      modifies this
      ensures Ready() && facts.most <= 1 + maxProviderRetries
      ensures |values| == index + if error.None? then 1 else 0
      ensures if error.None? then SetBack(0) else GaveUp(facts, error.value, maxProviderRetries)
      ensures facts.restores <= old(facts.restores) + 1 + maxProviderRetries
      ensures error.None? ==> facts.restores - old(facts.restores) == 1 + providerRetries - old(providerRetries)
    {
      var retries := 0;
      while true
        invariant Ready() && index == |values| && retries <= maxProviderRetries && SetBack(retries)
        invariant facts.restores == old(facts.restores) + retries && facts.most <= 1 + maxProviderRetries
        invariant providerRetries == old(providerRetries) + retries
        decreases maxProviderRetries - retries
      {
        if aborted {
          return Some(AbortCode());
        }
        var step := TryOnce(index, retries);
        match step
        case Next => return None;
        case Throw(code) => return Some(code);
        case Retry =>
          retries := retries + 1;
          providerRetries := providerRetries + 1;
      }
    }

    /** The body of the outer try block. */
    method RunAll(runCount: nat) returns (error: Option<Code>)
      requires Valid() && facts == Start(prepared).(aborted := aborted) && onAbort == None && providerRetries == 0
      modifies this
      ensures Valid() && onAbort == None && facts.most <= 1 + maxProviderRetries
      ensures facts.snapshot in {Unasked, Asked, Taken}
      ensures forall s :: s in cleanup && s != prepared ==> StopSettled(cleanup[s])
      ensures error.None? ==> |values| == runCount && facts.restores == runCount + providerRetries
      ensures error.Some? ==> GaveUp(facts, error.value, maxProviderRetries) && (runCount > 0 ==> |values| < runCount)
      ensures facts.restores <= runCount * (1 + maxProviderRetries)
    {
      if aborted {
        return Some(AbortCode());
      }
      error := TakeSnapshot();
      if error.Some? {
        return;
      }
      CleanUpSession(prepared);
      error := RunEach(runCount);
    }

    method RunEach(runCount: nat) returns (error: Option<Code>)
      requires Ready() && values == [] && facts.restores == 0 && providerRetries == 0
      requires SetBack(0) && facts.most <= 1 + maxProviderRetries
      modifies this
      ensures Ready() && facts.most <= 1 + maxProviderRetries
      ensures error.None? ==> |values| == runCount && facts.restores == runCount + providerRetries
      ensures error.Some? ==> GaveUp(facts, error.value, maxProviderRetries) && |values| < runCount
      ensures facts.restores <= runCount * (1 + maxProviderRetries)
    {
      error := None;
      for index := 0 to runCount
        invariant Ready() && |values| == index && error.None? && SetBack(0) && facts.most <= 1 + maxProviderRetries
        invariant facts.restores == index + providerRetries
        invariant facts.restores <= index * (1 + maxProviderRetries)
      {
        RunsAddUp(index, runCount, 1 + maxProviderRetries);
        error := RunIndex(index);
        if error.Some? {
          return;
        }
      }
    }

    static lemma RunsAddUp(index: nat, runCount: nat, perRun: nat)
      requires index < runCount
      ensures (index + 1) * perRun == index * perRun + perRun <= runCount * perRun
    {
      if index + 1 < runCount {
        RunsAddUp(index, runCount - 1, perRun);
        assert runCount * perRun == (runCount - 1) * perRun + perRun;
      }
    }

    method DeleteSnapshot()
      requires Ready()
      modifies this
      ensures Valid() && Quiet() && facts.snapshot in {DeleteResolved, SnapshotQuarantined}
      ensures values == old(values) && providerRetries == old(providerRetries) && facts.restores == old(facts.restores)
      ensures facts.tally == old(facts.tally) && facts.most == old(facts.most) && (old(facts.aborted) ==> facts.aborted)
    {
      Emit(SnapshotMoved(DeleteAsked));
      Suspend();
      var ok: bool := *;
      if ok {
        Emit(SnapshotMoved(DeleteResolved));
      } else {
        QuarantineSnapshot();
        Suspend();
      }
    }

    method QuarantineSnapshot()
      requires Valid() && facts.snapshot == DeleteAsked
      modifies this`cleanupStatus, this`log, this`facts
      ensures Valid()
      ensures facts == old(facts).(snapshot := SnapshotQuarantined, failed := true)
    {
      Emit(SnapshotMoved(DeleteRejected));
      cleanupStatus := Quarantined;
      Emit(SnapshotMoved(SnapshotQuarantined));
    }

    /**
     `execute`: whatever happens, the prepared session and the snapshot are cleaned up at the end. It succeeds exactly
     when a value was accepted for every run, and a failure has its reason in the log.
     */
    method Execute(runCount: nat) returns (result: Result<RunResult<V>, (Code, CleanupStatus)>)
      requires Valid() && facts == Start(prepared).(aborted := aborted) && onAbort == None && providerRetries == 0
      modifies this
      ensures Orderly(prepared, log) && CleanedUp(prepared, log, cleanupStatus)
      ensures Restores(log) <= runCount * (1 + maxProviderRetries)
      ensures forall i: nat :: RestoresOf(log, i) <= 1 + maxProviderRetries
      ensures runCount > 0 ==> (result.Ok? <==> |AcceptedValues(log)| == runCount)
      ensures match result
              case Ok(value) =>
                && value.cleanupStatus == cleanupStatus
                && |value.values| == runCount && value.values == AcceptedValues(log)
                && (forall i :: 0 <= i < runCount ==> RanAs(log, i, value.values[i]))
                && (forall i :: 0 <= i < runCount ==> RestoresOf(log, i) == SetbacksOf(log, i) + 1)
                && Restores(log) == runCount + value.providerRetries
              case Err((code, status)) => status == cleanupStatus && Explains(log, code, maxProviderRetries)
    {
      var error := RunAll(runCount);
      CleanUpSession(prepared);
      if snapshot {
        DeleteSnapshot();
      }
      EverythingIsClean();
      RemembersRestores(prepared, log);
      forall i: nat
        ensures RestoresOf(log, i) <= 1 + maxProviderRetries
        ensures i < |values| ==> RestoresOf(log, i) == SetbacksOf(log, i) + 1 && RanAs(log, i, values[i])
      {
        RemembersTally(prepared, log, i);
        if i < |values| {
          ValueComesFromItsRun(prepared, log, i);
        }
      }
      if error.Some? {
        GaveUpExplains(error.value);
      }
      result := if error.Some? then Err((error.value, cleanupStatus))
                else Ok(RunResult(cleanupStatus, providerRetries, values));
    }

    /** The reason for which the runs were given up is in the log, also after the clean-up. */
    lemma GaveUpExplains(code: Code)
      requires Recorded() && facts.snapshot in {Unasked, Asked, DeleteResolved, SnapshotQuarantined}
      requires GaveUp(facts, code, maxProviderRetries)
      ensures Explains(log, code, maxProviderRetries)
    {
      RemembersRestores(prepared, log);
      RemembersSnapshot(prepared, log);
      RemembersTally(prepared, log, |facts.accepted|);
      RemembersEnding(prepared, log);
    }

    lemma EverythingIsClean()
      requires Valid() && Quiet()
      requires facts.snapshot in {Unasked, Asked, DeleteResolved, SnapshotQuarantined}
      ensures CleanedUp(prepared, log, cleanupStatus)
    {
      RemembersSnapshot(prepared, log);
      RemembersFailures(prepared, log);
      forall s: SessionId
        ensures s == prepared || Occurs(log, SessionMoved(s, Obtained)) ==>
                  && Count(log, SessionMoved(s, StopAsked)) == 1
                  && (Occurs(log, SessionMoved(s, StopResolved)) || Occurs(log, SessionMoved(s, StopRejected)))
        ensures Count(log, SessionMoved(s, SessionQuarantined)) == if Occurs(log, SessionMoved(s, StopRejected)) then 1 else 0
      {
        RemembersSession(prepared, log, s);
      }
    }
  }

  // ---------------------------------------------------------------------------------------------
  // What the discipline means for every request in the log
  // ---------------------------------------------------------------------------------------------

  ghost predicate Within<V>(earlier: Log<V>, log: Log<V>) {
    log == earlier || (log.Then? && Within(earlier, log.past))
  }

  lemma {:induction false} EarlierIsOrderly<V>(prepared: SessionId, earlier: Log<V>, log: Log<V>)
    requires Orderly(prepared, log) && Within(earlier, log)
    ensures Orderly(prepared, earlier)
  {
    if log != earlier {
      EarlierIsOrderly(prepared, earlier, log.past);
    }
  }

  /**
   Wherever an orderly log asks for a restore: no abort was visible, every session obtained before had been
   stopped and the stop had settled, and as many runs as the index says had been accepted.
   */
  lemma RestoresAreDisciplined<V>(prepared: SessionId, past: Log<V>, index: nat, log: Log<V>)
    requires Orderly(prepared, log) && Within(Then(past, RestoreAsked(index)), log)
    ensures !Occurs(past, AbortVisible)
    ensures index == |AcceptedValues(past)|
    ensures forall s: SessionId :: s == prepared || Occurs(past, SessionMoved(s, Obtained)) ==>
              Occurs(past, SessionMoved(s, StopResolved)) || Occurs(past, SessionMoved(s, StopRejected))
  {
    EarlierIsOrderly(prepared, Then(past, RestoreAsked(index)), log);
    RemembersRestores(prepared, past);
    forall s: SessionId | s == prepared || Occurs(past, SessionMoved(s, Obtained))
      ensures Occurs(past, SessionMoved(s, StopResolved)) || Occurs(past, SessionMoved(s, StopRejected))
    {
      RemembersSession(prepared, past, s);
    }
  }

  /** A value is accepted only from a run of that index, on a session not asked to stop, with no abort visible. */
  lemma AcceptedRunsAreUndisturbed<V>(prepared: SessionId, past: Log<V>, index: nat, s: SessionId, v: V, log: Log<V>)
    requires Orderly(prepared, log) && Within(Then(past, RunAccepted(index, s, v)), log)
    ensures !Occurs(past, AbortVisible) && Count(past, SessionMoved(s, StopAsked)) == 0
    ensures index == |AcceptedValues(past)| && Occurs(past, RunStarted(index, s))
  {
    EarlierIsOrderly(prepared, Then(past, RunAccepted(index, s, v)), log);
    RemembersRestores(prepared, past);
    RemembersSession(prepared, past, s);
    RunningWasStarted(prepared, past);
  }

  lemma {:induction false} RunningWasStarted<V>(prepared: SessionId, log: Log<V>)
    requires Orderly(prepared, log)
    ensures var f := Observe(prepared, log);
            f.running.Some? ==> Occurs(log, RunStarted(|f.accepted|, f.running.value))
  {
    if log.Then? {
      RunningWasStarted(prepared, log.past);
    }
  }
}
