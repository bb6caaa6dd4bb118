/**
 Starting trusted reproductions: any number of concurrent calls of startTrustedReproduction, interleaved at every
 await, over a repository with three indexes.
 */
module CaseService {
  import opened Lifecycle
  import opened Wrappers

  // ---------------------------------------------------------------------------------------------
  // The repository
  // ---------------------------------------------------------------------------------------------

  /** The case a sample run reports on. */
  datatype SampleResult = SampleResult(caseId: string, state: string)

  datatype Record = Record(
    callerId: string,
    idempotencyKey: string,
    commandHash: string,
    caseId: string,
    jobId: string,
    jobState: JobState,
    result: Option<SampleResult>)

  /** `JSON.stringify([callerId, value])`, which tells different pairs apart. */
  type Scoped = (string, string)

  datatype Repository = Repository(
    byCase: map<Scoped, Record>,
    byKey: map<Scoped, Record>,
    byJob: map<Scoped, Record>)

  function KeyOf(r: Record): Scoped { (r.callerId, r.idempotencyKey) }
  function CaseOf(r: Record): Scoped { (r.callerId, r.caseId) }
  function JobOf(r: Record): Scoped { (r.callerId, r.jobId) }

  function Write(repository: Repository, r: Record): Repository {
    Repository(repository.byCase[CaseOf(r) := r], repository.byKey[KeyOf(r) := r], repository.byJob[JobOf(r) := r])
  }

  /** Whoever looks a record up by its case, its key or its job finds the same record. */
  ghost predicate Agree(repository: Repository) {
    && (forall k :: k in repository.byKey ==> KeyOf(repository.byKey[k]) == k && Everywhere(repository, repository.byKey[k]))
    && (forall k :: k in repository.byCase ==> CaseOf(repository.byCase[k]) == k && Everywhere(repository, repository.byCase[k]))
    && (forall k :: k in repository.byJob ==> JobOf(repository.byJob[k]) == k && Everywhere(repository, repository.byJob[k]))
  }

  predicate Everywhere(repository: Repository, r: Record) {
    && KeyOf(r) in repository.byKey && repository.byKey[KeyOf(r)] == r
    && CaseOf(r) in repository.byCase && repository.byCase[CaseOf(r)] == r
    && JobOf(r) in repository.byJob && repository.byJob[JobOf(r)] == r
  }

  /** The record's case and job are the ones stored under its key, or new if there is none. */
  predicate SameIdentities(repository: Repository, r: Record) {
    if KeyOf(r) in repository.byKey then
      repository.byKey[KeyOf(r)].caseId == r.caseId && repository.byKey[KeyOf(r)].jobId == r.jobId
    else CaseOf(r) !in repository.byCase && JobOf(r) !in repository.byJob
  }

  lemma WriteAgrees(repository: Repository, r: Record)
    requires Agree(repository) && SameIdentities(repository, r)
    ensures Agree(Write(repository, r))
  {
    if KeyOf(r) in repository.byKey {
      assert Everywhere(repository, repository.byKey[KeyOf(r)]);
    }
  }

  /** A record left behind under its old case or job, or pushed out of it, is no longer found everywhere. */
  lemma OtherIdentitiesDisagree(repository: Repository, r: Record)
    requires Agree(repository) && !SameIdentities(repository, r)
    ensures !Agree(Write(repository, r))
  {
    var after := Write(repository, r);
    if KeyOf(r) in repository.byKey {
      var stored := repository.byKey[KeyOf(r)];
      assert Everywhere(repository, stored);
      assert !Everywhere(after, stored);
      if stored.caseId != r.caseId {
        assert after.byCase[CaseOf(stored)] == stored;
      } else {
        assert after.byJob[JobOf(stored)] == stored;
      }
    } else {
      var other := if CaseOf(r) in repository.byCase then repository.byCase[CaseOf(r)] else repository.byJob[JobOf(r)];
      assert Everywhere(repository, other);
      assert after.byKey[KeyOf(other)] == other && !Everywhere(after, other);
    }
  }

  /** Writing keeps the indexes in agreement exactly when the record's case and job are new or the ones it had. */
  lemma WriteKeepsAgreement(repository: Repository, r: Record)
    requires Agree(repository)
    ensures Agree(Write(repository, r)) <==> SameIdentities(repository, r)
  {
    if SameIdentities(repository, r) {
      WriteAgrees(repository, r);
    } else {
      OtherIdentitiesDisagree(repository, r);
    }
  }

  /** A record saved again under another case is still found under the old one. */
  lemma AnotherCaseDisagrees(r: Record, caseId: string)
    requires caseId != r.caseId
    ensures var stored := Write(Repository(map[], map[], map[]), r);
            Agree(stored) && !Agree(Write(stored, r.(caseId := caseId)))
  {
    var empty := Repository(map[], map[], map[]);
    WriteKeepsAgreement(empty, r);
    WriteKeepsAgreement(Write(empty, r), r.(caseId := caseId));
  }

  /** The repository as an object: it hands out copies, and `write` is its only update. */
  class InMemoryRepository {
    var byCase: map<Scoped, Record>
    var byKey: map<Scoped, Record>
    var byJob: map<Scoped, Record>

    constructor ()
      ensures Contents() == Repository(map[], map[], map[])
    {
      byCase, byKey, byJob := map[], map[], map[];
    }

    function Contents(): Repository
      reads this
    {
      Repository(byCase, byKey, byJob)
    }

    method WriteRecord(r: Record)
      modifies this
      ensures Contents() == Write(old(Contents()), r)
    {
      byCase := byCase[CaseOf(r) := r];
      byKey := byKey[KeyOf(r) := r];
      byJob := byJob[JobOf(r) := r];
    }

    /** The record under the key before the call if there is one, else the given record, now written. */
    method Reserve(r: Record) returns (created: bool, stored: Record)
      modifies this
      ensures created <==> KeyOf(r) !in old(Contents()).byKey
      ensures created ==> Contents() == Write(old(Contents()), r)
      ensures !created ==> Contents() == old(Contents())
      ensures KeyOf(r) in Contents().byKey && stored == Contents().byKey[KeyOf(r)]
    {
      if KeyOf(r) in byKey {
        return false, byKey[KeyOf(r)];
      }
      WriteRecord(r);
      return true, r;
    }
  }

  // ---------------------------------------------------------------------------------------------
  // Calls
  // ---------------------------------------------------------------------------------------------

  datatype Answer = Started(reused: bool, record: Record) | Conflict | ExecutionFailed

  /** Where a call is: the next thing it does. */
  datatype Phase =
    | Lookup
    | Reserving(caseId: string, jobId: string)
    | SavingRunning(caseId: string, jobId: string)
    | Executing(caseId: string, jobId: string)
    | SavingResult(caseId: string, jobId: string, outcome: Option<SampleResult>)
    | Responding(caseId: string, jobId: string, result: SampleResult)
    | Done(answer: Answer)

  datatype Call = Call(callerId: string, idempotencyKey: string, commandHash: string, phase: Phase)

  datatype World = World(
    repository: Repository,
    calls: seq<Call>,
    usedCases: set<string>,
    usedJobs: set<string>,
    executions: seq<Scoped>)

  /**
   What a step depends on besides the world: the next identifiers, what the sample run returns (nothing when it
   throws), and whether the response passes its schema.
   */
  datatype Choice = Choice(caseId: string, jobId: string, outcome: Option<SampleResult>, valid: bool)

  datatype Event = Begin(callerId: string, idempotencyKey: string, commandHash: string) | Step(call: nat, choice: Choice)

  const EMPTY := World(Repository(map[], map[], map[]), [], {}, {}, [])

  function RecordOf(c: Call, caseId: string, jobId: string, state: JobState, result: Option<SampleResult>): Record {
    Record(c.callerId, c.idempotencyKey, c.commandHash, if result.Some? then result.value.caseId else caseId, jobId, state, result)
  }

  /** The answer to a call that finds a record under its key. */
  function Existing(c: Call, r: Record): Answer {
    if r.commandHash != c.commandHash then Conflict else Started(true, r)
  }

  function Key(c: Call): Scoped { (c.callerId, c.idempotencyKey) }

  function SetPhase(w: World, i: nat, phase: Phase): World
    requires i < |w.calls|
  {
    w.(calls := w.calls[i := w.calls[i].(phase := phase)])
  }

  function Save(w: World, r: Record): World { w.(repository := Write(w.repository, r)) }

  /** Identifiers are fresh, and a sample run reports on the case it was given, without which indexes would disagree. */
  predicate Possible(w: World, e: Event) {
    e.Step? ==>
      && e.call < |w.calls|
      && (w.calls[e.call].phase.Lookup? ==> e.choice.caseId !in w.usedCases && e.choice.jobId !in w.usedJobs)
      && (w.calls[e.call].phase.Executing? && e.choice.outcome.Some? ==>
            e.choice.outcome.value.caseId == w.calls[e.call].phase.caseId)
  }

  /** One call up to its next await. */
  function Advance(w: World, i: nat, choice: Choice): World
    requires i < |w.calls|
  {
    var c := w.calls[i];
    match c.phase
    case Lookup =>
      if Key(c) in w.repository.byKey then SetPhase(w, i, Done(Existing(c, w.repository.byKey[Key(c)])))
      else
        SetPhase(w, i, Reserving(choice.caseId, choice.jobId)).(usedCases := w.usedCases + {choice.caseId},
                                                                 usedJobs := w.usedJobs + {choice.jobId})
    case Reserving(caseId, jobId) =>
      if Key(c) in w.repository.byKey then SetPhase(w, i, Done(Existing(c, w.repository.byKey[Key(c)])))
      else SetPhase(Save(w, RecordOf(c, caseId, jobId, Queued, None)), i, SavingRunning(caseId, jobId))
    case SavingRunning(caseId, jobId) =>
      SetPhase(Save(w, RecordOf(c, caseId, jobId, Running, None)), i, Executing(caseId, jobId))
    case Executing(caseId, jobId) =>
      SetPhase(w, i, SavingResult(caseId, jobId, choice.outcome)).(executions := w.executions + [Key(c)])
    case SavingResult(caseId, jobId, outcome) =>
      if outcome.Some? then
        SetPhase(Save(w, RecordOf(c, caseId, jobId, Succeeded, outcome)), i, Responding(caseId, jobId, outcome.value))
      else SetPhase(Save(w, RecordOf(c, caseId, jobId, Failed, None)), i, Done(ExecutionFailed))
    case Responding(caseId, jobId, result) =>
      // A response that fails its schema lands in the catch block, which saves the failed job over the succeeded one.
      if choice.valid then SetPhase(w, i, Done(Started(false, RecordOf(c, caseId, jobId, Succeeded, Some(result)))))
      else SetPhase(Save(w, RecordOf(c, caseId, jobId, Failed, None)), i, Done(ExecutionFailed))
    case Done(_) => w
  }

  function Next(w: World, e: Event): World {
    if !Possible(w, e) then w
    else
      match e
      case Begin(callerId, key, hash) => w.(calls := w.calls + [Call(callerId, key, hash, Lookup)])
      case Step(i, choice) => Advance(w, i, choice)
  }

  function Run(es: seq<Event>): World {
    if es == [] then EMPTY else Next(Run(es[..|es| - 1]), es[|es| - 1])
  }

  // ---------------------------------------------------------------------------------------------
  // The invariant
  // ---------------------------------------------------------------------------------------------

  /** The call has reserved its key and has not answered yet. */
  predicate Owns(c: Call) {
    c.phase.SavingRunning? || c.phase.Executing? || c.phase.SavingResult? || c.phase.Responding?
  }

  predicate HasExecuted(c: Call) { c.phase.SavingResult? || c.phase.Responding? }

  /** The record under the call's key is the call's. */
  predicate Holds(w: World, c: Call)
    requires Owns(c)
  {
    && Key(c) in w.repository.byKey
    && w.repository.byKey[Key(c)].caseId == c.phase.caseId && w.repository.byKey[Key(c)].jobId == c.phase.jobId
    && w.repository.byKey[Key(c)].commandHash == c.commandHash
    && w.repository.byKey[Key(c)].jobState == StoredState(c.phase)
  }

  /** The state of the stored job at each point of the owning call. */
  function StoredState(phase: Phase): JobState {
    if phase.SavingRunning? then Queued else if phase.Responding? then Succeeded else Running
  }

  /** Reserved identifiers are in use, but nothing is stored under them. */
  predicate Unstored(w: World, c: Call)
    requires c.phase.Reserving?
  {
    && c.phase.caseId in w.usedCases && c.phase.jobId in w.usedJobs
    && (c.callerId, c.phase.caseId) !in w.repository.byCase && (c.callerId, c.phase.jobId) !in w.repository.byJob
  }

  /** An answer agrees with what is stored under the key. */
  predicate Truthful(w: World, c: Call)
    requires c.phase.Done?
  {
    match c.phase.answer
    case Started(_, r) =>
      && Key(c) in w.repository.byKey
      && w.repository.byKey[Key(c)].caseId == r.caseId && w.repository.byKey[Key(c)].jobId == r.jobId
      && w.repository.byKey[Key(c)].commandHash == c.commandHash
    case Conflict => Key(c) in w.repository.byKey && w.repository.byKey[Key(c)].commandHash != c.commandHash
    case ExecutionFailed =>
      Key(c) in w.repository.byKey && w.repository.byKey[Key(c)].commandHash == c.commandHash
  }

  predicate CallOk(w: World, c: Call) {
    && (c.phase.Reserving? ==> Unstored(w, c))
    && (Owns(c) ==> Holds(w, c))
    && (Owns(c) && !HasExecuted(c) ==> Key(c) !in w.executions)
    && (c.phase.SavingResult? && c.phase.outcome.Some? ==> c.phase.outcome.value.caseId == c.phase.caseId)
    && (c.phase.Responding? ==> c.phase.result.caseId == c.phase.caseId)
    && (c.phase.Done? ==> Truthful(w, c))
  }

  /** Two calls never own the same key, and never hold the same identifiers. */
  predicate Apart(c: Call, d: Call) {
    && (Owns(c) && Owns(d) ==> Key(c) != Key(d))
    && (c.phase.Reserving? && d.phase.Reserving? ==> c.phase.caseId != d.phase.caseId && c.phase.jobId != d.phase.jobId)
  }

  ghost predicate Inv(w: World) {
    && Agree(w.repository)
    && (forall k :: k in w.repository.byKey ==>
          w.repository.byKey[k].caseId in w.usedCases && w.repository.byKey[k].jobId in w.usedJobs)
    && (forall i :: 0 <= i < |w.calls| ==> CallOk(w, w.calls[i]))
    && (forall i, j :: 0 <= i < j < |w.calls| ==> Apart(w.calls[i], w.calls[j]))
    && (forall i :: 0 <= i < |w.executions| ==> w.executions[i] in w.repository.byKey)
    && (forall i, j :: 0 <= i < j < |w.executions| ==> w.executions[i] != w.executions[j])
  }

  /** Saving the record of an owning call changes neither the identities nor the hash under its key. */
  lemma SaveKeepsOthers(w: World, i: nat, state: JobState, result: Option<SampleResult>, phase: Phase)
    requires Inv(w) && i < |w.calls| && Owns(w.calls[i])
    requires result.Some? ==> result.value.caseId == w.calls[i].phase.caseId
    requires var c := w.calls[i].(phase := phase);
             var after := Save(w, RecordOf(w.calls[i], w.calls[i].phase.caseId, w.calls[i].phase.jobId, state, result));
             CallOk(after, c) && !phase.Reserving? && !phase.Lookup?
    ensures Inv(SetPhase(Save(w, RecordOf(w.calls[i], w.calls[i].phase.caseId, w.calls[i].phase.jobId, state, result)), i, phase))
  {
    var c := w.calls[i];
    var r := RecordOf(c, c.phase.caseId, c.phase.jobId, state, result);
    var after := SetPhase(Save(w, r), i, phase);
    WriteKeepsAgreement(w.repository, r);
    assert Everywhere(w.repository, w.repository.byKey[Key(c)]);
    forall j | 0 <= j < |after.calls|
      ensures CallOk(after, after.calls[j])
    {
      assert j != i ==> CallOk(w, w.calls[j]);
    }
    forall j, k | 0 <= j < k < |after.calls|
      ensures Apart(after.calls[j], after.calls[k])
    {
      assert Apart(w.calls[j], w.calls[k]);
    }
  }

  /** A step that only moves one call. */
  lemma MoveKeepsInv(w: World, i: nat, phase: Phase)
    requires Inv(w) && i < |w.calls| && phase.Done? && CallOk(w, w.calls[i].(phase := phase))
    ensures Inv(SetPhase(w, i, phase))
  {
    var after := SetPhase(w, i, phase);
    forall j | 0 <= j < |after.calls|
      ensures CallOk(after, after.calls[j])
    {
      assert j != i ==> CallOk(w, w.calls[j]);
    }
    forall j, k | 0 <= j < k < |after.calls|
      ensures Apart(after.calls[j], after.calls[k])
    {
      assert Apart(w.calls[j], w.calls[k]);
    }
  }

  lemma FreshIsUnstored(w: World, callerId: string, caseId: string, jobId: string)
    requires Inv(w) && caseId !in w.usedCases && jobId !in w.usedJobs
    ensures (callerId, caseId) !in w.repository.byCase && (callerId, jobId) !in w.repository.byJob
  {
  }

  lemma LookupKeepsInv(w: World, i: nat, choice: Choice)
    requires Inv(w) && Possible(w, Step(i, choice)) && w.calls[i].phase.Lookup? && Key(w.calls[i]) !in w.repository.byKey
    ensures Inv(Advance(w, i, choice))
  {
    var c, after := w.calls[i], Advance(w, i, choice);
    forall j | 0 <= j < |after.calls|
      ensures CallOk(after, after.calls[j])
    {
      assert j != i ==> CallOk(w, w.calls[j]);
      FreshIsUnstored(w, c.callerId, choice.caseId, choice.jobId);
    }
    forall j, k | 0 <= j < k < |after.calls|
      ensures Apart(after.calls[j], after.calls[k])
    {
      assert Apart(w.calls[j], w.calls[k]) && CallOk(w, w.calls[j]) && CallOk(w, w.calls[k]);
    }
  }

  lemma ReserveKeepsInv(w: World, i: nat, choice: Choice)
    requires Inv(w) && Possible(w, Step(i, choice)) && w.calls[i].phase.Reserving? && Key(w.calls[i]) !in w.repository.byKey
    ensures Inv(Advance(w, i, choice))
  {
    var c := w.calls[i];
    var r := RecordOf(c, c.phase.caseId, c.phase.jobId, Queued, None);
    var after := Advance(w, i, choice);
    assert CallOk(w, c);
    WriteKeepsAgreement(w.repository, r);
    forall j | 0 <= j < |after.calls|
      ensures CallOk(after, after.calls[j])
    {
      if j != i {
        assert CallOk(w, w.calls[j]);
        assert Apart(w.calls[j], c) || Apart(c, w.calls[j]);
      }
    }
    forall j, k | 0 <= j < k < |after.calls|
      ensures Apart(after.calls[j], after.calls[k])
    {
      assert Apart(w.calls[j], w.calls[k]) && CallOk(w, w.calls[j]) && CallOk(w, w.calls[k]);
    }
  }

  lemma ExecuteKeepsInv(w: World, i: nat, choice: Choice)
    requires Inv(w) && Possible(w, Step(i, choice)) && w.calls[i].phase.Executing?
    ensures Inv(Advance(w, i, choice))
  {
    var c, after := w.calls[i], Advance(w, i, choice);
    assert CallOk(w, c);
    forall j | 0 <= j < |after.calls|
      ensures CallOk(after, after.calls[j])
    {
      if j != i {
        assert CallOk(w, w.calls[j]);
        assert Apart(w.calls[j], c) || Apart(c, w.calls[j]);
      }
    }
    forall j, k | 0 <= j < k < |after.calls|
      ensures Apart(after.calls[j], after.calls[k])
    {
      assert Apart(w.calls[j], w.calls[k]);
    }
    assert Key(c) !in w.executions;
  }

  lemma AdvanceKeepsInv(w: World, i: nat, choice: Choice)
    requires Inv(w) && Possible(w, Step(i, choice))
    ensures Inv(Advance(w, i, choice))
  {
    var c := w.calls[i];
    assert CallOk(w, c);
    match c.phase
    case Lookup =>
      if Key(c) in w.repository.byKey {
        MoveKeepsInv(w, i, Done(Existing(c, w.repository.byKey[Key(c)])));
      } else {
        LookupKeepsInv(w, i, choice);
      }
    case Reserving(_, _) =>
      if Key(c) in w.repository.byKey {
        MoveKeepsInv(w, i, Done(Existing(c, w.repository.byKey[Key(c)])));
      } else {
        ReserveKeepsInv(w, i, choice);
      }
    case SavingRunning(caseId, jobId) => SaveKeepsOthers(w, i, Running, None, Executing(caseId, jobId));
    case Executing(_, _) => ExecuteKeepsInv(w, i, choice);
    case SavingResult(caseId, jobId, outcome) =>
      if outcome.Some? {
        SaveKeepsOthers(w, i, Succeeded, outcome, Responding(caseId, jobId, outcome.value));
      } else {
        SaveKeepsOthers(w, i, Failed, None, Done(ExecutionFailed));
      }
    case Responding(caseId, jobId, result) =>
      if choice.valid {
        MoveKeepsInv(w, i, Done(Started(false, RecordOf(c, caseId, jobId, Succeeded, Some(result)))));
      } else {
        SaveKeepsOthers(w, i, Failed, None, Done(ExecutionFailed));
      }
    case Done(_) =>
  }

  lemma {:induction false} RunKeepsInv(es: seq<Event>)
    ensures Inv(Run(es))
  {
    if es != [] {
      var before, e := Run(es[..|es| - 1]), es[|es| - 1];
      RunKeepsInv(es[..|es| - 1]);
      if Possible(before, e) && e.Step? {
        AdvanceKeepsInv(before, e.call, e.choice);
      } else if e.Begin? {
        assert forall i :: 0 <= i < |before.calls| ==> CallOk(before, before.calls[i]);
      }
    }
  }

  // ---------------------------------------------------------------------------------------------
  // Main results
  // ---------------------------------------------------------------------------------------------

  /** In every reachable state the three indexes return the same record. */
  lemma IndexesAgree(es: seq<Event>)
    ensures Agree(Run(es).repository)
  {
    RunKeepsInv(es);
  }

  /** Whatever the interleaving, no key of a caller executes the sample twice. */
  lemma ExecutesAtMostOnce(es: seq<Event>)
    ensures var executions := Run(es).executions;
            forall i, j :: 0 <= i < j < |executions| ==> executions[i] != executions[j]
  {
    RunKeepsInv(es);
  }

  /** The step that answers a finished run with a response that does not pass its schema. */
  predicate RejectsResponse(w: World, e: Event, k: Scoped) {
    Possible(w, e) && e.Step? && w.calls[e.call].phase.Responding? && !e.choice.valid && Key(w.calls[e.call]) == k
  }

  /**
   A stored job only ever moves along the transition table, except that a rejected response takes a job that had
   succeeded back to failed.
   */
  lemma JobsMoveAlongTheTable(es: seq<Event>, e: Event, k: Scoped)
    requires k in Run(es).repository.byKey
    ensures var w, after := Run(es), Run(es + [e]);
            && k in after.repository.byKey
            && var from, to := w.repository.byKey[k].jobState, after.repository.byKey[k].jobState;
               (to == from || to in AllowedJob(from)) <==> !RejectsResponse(w, e, k)
  {
    RunKeepsInv(es);
    assert (es + [e])[..|es|] == es;
    var w := Run(es);
    if Possible(w, e) && e.Step? {
      assert CallOk(w, w.calls[e.call]);
    }
  }

  /**
   Saving the result of a sample run keeps the indexes in agreement exactly when the run reports on the case it was
   given: this is what `Possible` assumes of a run.
   */
  lemma RunMustReportItsCase(w: World, i: nat, result: SampleResult)
    requires Inv(w) && i < |w.calls| && w.calls[i].phase.SavingResult?
    ensures var c := w.calls[i];
            Agree(Save(w, RecordOf(c, c.phase.caseId, c.phase.jobId, Succeeded, Some(result))).repository)
            <==> result.caseId == c.phase.caseId
  {
    var c := w.calls[i];
    assert CallOk(w, c);
    WriteKeepsAgreement(w.repository, RecordOf(c, c.phase.caseId, c.phase.jobId, Succeeded, Some(result)));
  }

  lemma RunOneMore(es: seq<Event>, e: Event)
    ensures Run(es + [e]) == Next(Run(es), e)
  {
    assert (es + [e])[..|es|] == es;
  }

  /** How many steps lead a single successful call to its response. */
  function Remaining(phase: Phase): nat {
    match phase
    case Lookup => 5
    case Reserving(_, _) => 4
    case SavingRunning(_, _) => 3
    case Executing(_, _) => 2
    case SavingResult(_, _, _) => 1
    case Responding(_, _, _) | Done(_) => 0
  }

  /** The only call of the world, on its way to its response. */
  ghost predicate InProgress(w: World, caseId: string, jobId: string, result: SampleResult) {
    && |w.calls| == 1
    && var c := w.calls[0];
       && (c.phase.Lookup? ==> w == EMPTY.(calls := w.calls))
       && (c.phase.Reserving? ==> w.repository == EMPTY.repository)
       && (Owns(c) || c.phase.Reserving? ==> c.phase.caseId == caseId && c.phase.jobId == jobId)
       && (Owns(c) ==> Holds(w, c))
       && (c.phase.SavingResult? ==> c.phase.outcome == Some(result))
       && !c.phase.Done?
  }

  lemma ProgressStep(w: World, e: Event, caseId: string, jobId: string, result: SampleResult)
    requires InProgress(w, caseId, jobId, result) && !w.calls[0].phase.Responding? && result.caseId == caseId
    requires e == Step(0, Choice(caseId, jobId, Some(result), false))
    ensures InProgress(Next(w, e), caseId, jobId, result) && Key(Next(w, e).calls[0]) == Key(w.calls[0])
    ensures Remaining(Next(w, e).calls[0].phase) < Remaining(w.calls[0].phase)
  {
  }

  lemma RejectionFailsTheJob(w: World, e: Event, caseId: string, jobId: string, result: SampleResult)
    requires InProgress(w, caseId, jobId, result) && w.calls[0].phase.Responding?
    requires e == Step(0, Choice(caseId, jobId, Some(result), false))
    ensures RejectsResponse(w, e, Key(w.calls[0]))
    ensures var k := Key(w.calls[0]);
            && k in w.repository.byKey && w.repository.byKey[k].jobState == Succeeded
            && k in Next(w, e).repository.byKey && Next(w, e).repository.byKey[k].jobState == Failed
  {
  }

  /** A single call whose run succeeds and whose response then does not pass its schema. */
  lemma ResponseCanBeRejected(callerId: string, key: string, hash: string, jobId: string, result: SampleResult)
    returns (es: seq<Event>, e: Event)
    ensures RejectsResponse(Run(es), e, (callerId, key))
    ensures var w, after, k := Run(es), Run(es + [e]), (callerId, key);
            && k in w.repository.byKey && w.repository.byKey[k].jobState == Succeeded
            && k in after.repository.byKey && after.repository.byKey[k].jobState == Failed
  {
    e := Step(0, Choice(result.caseId, jobId, Some(result), false));
    es := [Begin(callerId, key, hash)];
    var w := Run(es);
    assert es[..0] == [] && Run([]) == EMPTY;
    assert w.calls == [Call(callerId, key, hash, Lookup)];
    while !w.calls[0].phase.Responding?
      invariant w == Run(es) && InProgress(w, result.caseId, jobId, result) && Key(w.calls[0]) == (callerId, key)
      decreases Remaining(w.calls[0].phase)
    {
      RunOneMore(es, e);
      ProgressStep(w, e, result.caseId, jobId, result);
      es, w := es + [e], Next(w, e);
    }
    RunOneMore(es, e);
    RejectionFailsTheJob(w, e, result.caseId, jobId, result);
  }

  /** All starts that return for a key of a caller report the same case and job, and asked for the same command. */
  lemma SameCaseAndJob(es: seq<Event>, i: nat, j: nat)
    requires i < |Run(es).calls| && j < |Run(es).calls|
    requires var c, d := Run(es).calls[i], Run(es).calls[j];
             Key(c) == Key(d) && c.phase.Done? && c.phase.answer.Started? && d.phase.Done? && d.phase.answer.Started?
    ensures var c, d := Run(es).calls[i], Run(es).calls[j];
            && c.phase.answer.record.caseId == d.phase.answer.record.caseId
            && c.phase.answer.record.jobId == d.phase.answer.record.jobId
            && c.commandHash == d.commandHash
  {
    RunKeepsInv(es);
    assert CallOk(Run(es), Run(es).calls[i]) && CallOk(Run(es), Run(es).calls[j]);
  }

  /** Once a start has returned, every other start of the same key that asks for something else has only a conflict to answer. */
  lemma DifferentCommandConflicts(es: seq<Event>, i: nat, j: nat)
    requires i < |Run(es).calls| && j < |Run(es).calls|
    requires var c, d := Run(es).calls[i], Run(es).calls[j];
             && Key(c) == Key(d) && c.commandHash != d.commandHash
             && c.phase.Done? && c.phase.answer != Conflict && d.phase.Done?
    ensures Run(es).calls[j].phase.answer == Conflict
  {
    RunKeepsInv(es);
    assert CallOk(Run(es), Run(es).calls[i]) && CallOk(Run(es), Run(es).calls[j]);
  }

  // ---------------------------------------------------------------------------------------------
  // A start that nothing disturbs
  // ---------------------------------------------------------------------------------------------

  /** The events, and then so many of one more. */
  function Followed(es: seq<Event>, e: Event, n: nat): seq<Event>
    decreases n
  {
    if n == 0 then es else Followed(es + [e], e, n - 1)
  }

  function Steps(w: World, e: Event, n: nat): World
    decreases n
  {
    if n == 0 then w else Steps(Next(w, e), e, n - 1)
  }

  lemma {:induction false} RunFollowed(es: seq<Event>, e: Event, n: nat)
    ensures Run(Followed(es, e, n)) == Steps(Run(es), e, n)
    decreases n
  {
    if n > 0 {
      RunOneMore(es, e);
      RunFollowed(es + [e], e, n - 1);
    }
  }

  /** What a start finds under its key, or what it makes of it: the answer, the record stored, and whether the sample ran. */
  datatype Ending = Ending(answer: Answer, stored: Record, ran: bool)

  function EndingOf(w: World, c: Call, choice: Choice): Ending {
    if Key(c) in w.repository.byKey then
      var stored := w.repository.byKey[Key(c)];
      Ending(if stored.commandHash == c.commandHash then Started(true, stored) else Conflict, stored, false)
    else if choice.outcome.None? || !choice.valid then
      Ending(ExecutionFailed, Record(c.callerId, c.idempotencyKey, c.commandHash, choice.caseId, choice.jobId, Failed, None), true)
    else
      var succeeded := Record(c.callerId, c.idempotencyKey, c.commandHash, choice.caseId, choice.jobId, Succeeded, choice.outcome);
      Ending(Started(false, succeeded), succeeded, true)
  }

  /** The call has reserved its new key, and is about to run the sample. */
  ghost predicate Ready(w: World, after: World, i: nat, choice: Choice)
    requires i < |w.calls|
  {
    && after.calls == w.calls[i := w.calls[i].(phase := Executing(choice.caseId, choice.jobId))]
    && after.executions == w.executions
  }

  lemma FirstSteps(w: World, i: nat, choice: Choice) returns (after: World)
    requires i < |w.calls| && w.calls[i].phase.Lookup? && Key(w.calls[i]) !in w.repository.byKey
    requires choice.caseId !in w.usedCases && choice.jobId !in w.usedJobs
    ensures Ready(w, after, i, choice) && Steps(w, Step(i, choice), 6) == Steps(after, Step(i, choice), 3)
  {
    var e := Step(i, choice);
    var w1 := Next(w, e);
    assert w1.calls == w.calls[i := w.calls[i].(phase := Reserving(choice.caseId, choice.jobId))] && w1.repository == w.repository;
    var w2 := Next(w1, e);
    assert w2.calls == w.calls[i := w.calls[i].(phase := SavingRunning(choice.caseId, choice.jobId))];
    after := Next(w2, e);
    assert Steps(w, e, 6) == Steps(w1, e, 5) == Steps(w2, e, 4) == Steps(after, e, 3);
  }

  /** What a call that runs the sample leaves. */
  ghost predicate Leaves(w: World, after: World, i: nat, c: Call, e: Ending)
    requires i < |w.calls|
  {
    && after.calls == w.calls[i := c.(phase := Done(e.answer))]
    && Key(c) in after.repository.byKey && after.repository.byKey[Key(c)] == e.stored
    && after.executions == w.executions + [Key(c)]
  }

  lemma LastSteps(w: World, i: nat, choice: Choice)
    requires i < |w.calls| && w.calls[i].phase == Executing(choice.caseId, choice.jobId)
    requires choice.outcome.Some? ==> choice.outcome.value.caseId == choice.caseId
    ensures Leaves(w, Steps(w, Step(i, choice), 3), i, w.calls[i], EndingOf(EMPTY, w.calls[i], choice))
  {
    var e, c := Step(i, choice), w.calls[i];
    var w1 := Next(w, e);
    assert w1.calls == w.calls[i := c.(phase := SavingResult(choice.caseId, choice.jobId, choice.outcome))];
    var w2 := Next(w1, e);
    var w3 := Next(w2, e);
    assert Steps(w, e, 3) == Steps(w1, e, 2) == Steps(w2, e, 1) == w3;
    if choice.outcome.None? {
      assert w2.calls == w.calls[i := c.(phase := Done(ExecutionFailed))] && w3 == w2;
    } else {
      assert w2.calls == w.calls[i := c.(phase := Responding(choice.caseId, choice.jobId, choice.outcome.value))];
    }
  }

  lemma {:induction false} StaysDone(w: World, i: nat, choice: Choice, n: nat)
    requires i < |w.calls| && w.calls[i].phase.Done?
    ensures Steps(w, Step(i, choice), n) == w
  {
    if n > 0 {
      StaysDone(w, i, choice, n - 1);
    }
  }

  lemma StoredKeySteps(w: World, i: nat, choice: Choice)
    requires i < |w.calls| && w.calls[i].phase.Lookup? && Key(w.calls[i]) in w.repository.byKey
    requires choice.caseId !in w.usedCases && choice.jobId !in w.usedJobs
    ensures Steps(w, Step(i, choice), 6) == SetPhase(w, i, Done(EndingOf(w, w.calls[i], choice).answer))
  {
    var w1 := Next(w, Step(i, choice));
    assert w1 == SetPhase(w, i, Done(EndingOf(w, w.calls[i], choice).answer));
    StaysDone(w1, i, choice, 5);
  }

  /**
   From every reachable state, a start that nothing disturbs. A key that is stored answers with its record, as a reused
   one, to the command it was stored with and with a conflict to any other, and nothing changes. A new key runs the
   sample once: a valid result is stored as succeeded and answered, and any failure is stored and answered as such.
   */
  lemma UndisturbedStart(es: seq<Event>, callerId: string, idempotencyKey: string, commandHash: string, choice: Choice)
    requires choice.caseId !in Run(es).usedCases && choice.jobId !in Run(es).usedJobs
    requires choice.outcome.Some? ==> choice.outcome.value.caseId == choice.caseId
    ensures var w, k, i := Run(es), (callerId, idempotencyKey), |Run(es).calls|;
            var after := Run(Followed(es + [Begin(callerId, idempotencyKey, commandHash)], Step(i, choice), 6));
            var e := EndingOf(w, Call(callerId, idempotencyKey, commandHash, Lookup), choice);
            && after.calls == w.calls + [Call(callerId, idempotencyKey, commandHash, Done(e.answer))]
            && k in after.repository.byKey && after.repository.byKey[k] == e.stored
            && (!e.ran ==> after.repository == w.repository)
            && after.executions == w.executions + if e.ran then [k] else []
  {
    var w, k, i, e := Run(es), (callerId, idempotencyKey), |Run(es).calls|, Step(|Run(es).calls|, choice);
    var begin := Begin(callerId, idempotencyKey, commandHash);
    var w1 := Next(w, begin);
    RunOneMore(es, begin);
    RunFollowed(es + [begin], e, 6);
    if k in w.repository.byKey {
      StoredKeySteps(w1, i, choice);
    } else {
      var ready := FirstSteps(w1, i, choice);
      LastSteps(ready, i, choice);
    }
  }
}
