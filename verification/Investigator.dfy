/**
 The investigator loop: a model is asked for tool calls, within a budget, and what it records is accumulated.

 Whatever the model answers, the loop never runs out of turns, never executes more calls than the budget, and never
 accumulates a repeated id or a reference to something that was not recorded.
 */
module Investigator {
  import opened Wrappers

  datatype EvidenceItem = EvidenceItem(id: string, content: string)

  datatype Hypothesis = Hypothesis(id: string, evidenceIds: seq<string>)

  datatype Experiment = Experiment(id: string, hypothesisId: string)

  /** A tool call by its name; the arguments are missing when they do not pass their schema. */
  datatype ToolCall =
    | NotJson
    | RecordEvidence(evidence: Option<EvidenceItem>)
    | RecordHypothesis(hypothesis: Option<Hypothesis>)
    | ProposeExperiment(experiment: Option<Experiment>)
    | UnknownTool

  datatype Refusal =
    | InvalidJson | InvalidArguments | IdExists | EvidenceNotRecorded | HypothesisNotRecorded | NoSuchTool

  datatype ToolOutput = Accepted(id: string) | Refused(why: Refusal)

  /** A response: its tool calls, and its trimmed text. */
  datatype Response = Response(calls: seq<ToolCall>, text: string)

  datatype Recorded = Recorded(
    evidence: seq<EvidenceItem>,
    hypotheses: seq<Hypothesis>,
    experiments: seq<Experiment>)

  predicate HasEvidence(r: Recorded, id: string) { exists i :: 0 <= i < |r.evidence| && r.evidence[i].id == id }
  predicate HasHypothesis(r: Recorded, id: string) { exists i :: 0 <= i < |r.hypotheses| && r.hypotheses[i].id == id }
  predicate HasExperiment(r: Recorded, id: string) { exists i :: 0 <= i < |r.experiments| && r.experiments[i].id == id }

  predicate Supported(r: Recorded, h: Hypothesis) {
    forall k :: 0 <= k < |h.evidenceIds| ==> HasEvidence(r, h.evidenceIds[k])
  }

  /** The reference rules of the plan, and unique ids. */
  ghost predicate Sound(r: Recorded) {
    && (forall i, j :: 0 <= i < j < |r.evidence| ==> r.evidence[i].id != r.evidence[j].id)
    && (forall i, j :: 0 <= i < j < |r.hypotheses| ==> r.hypotheses[i].id != r.hypotheses[j].id)
    && (forall i, j :: 0 <= i < j < |r.experiments| ==> r.experiments[i].id != r.experiments[j].id)
    && ReferencesResolve(r)
  }

  ghost predicate ReferencesResolve(r: Recorded) {
    && (forall i :: 0 <= i < |r.hypotheses| ==> Supported(r, r.hypotheses[i]))
    && (forall i :: 0 <= i < |r.experiments| ==> HasHypothesis(r, r.experiments[i].hypothesisId))
  }

  /** executeToolCall: what is recorded after the call, and the answer to it. */
  function Execute(r: Recorded, call: ToolCall): (Recorded, ToolOutput) {
    match call
    case NotJson => (r, Refused(InvalidJson))
    case RecordEvidence(item) =>
      if item.None? then (r, Refused(InvalidArguments))
      else if HasEvidence(r, item.value.id) then (r, Refused(IdExists))
      else (r.(evidence := r.evidence + [item.value]), Accepted(item.value.id))
    case RecordHypothesis(h) =>
      if h.None? then (r, Refused(InvalidArguments))
      else if !Supported(r, h.value) then (r, Refused(EvidenceNotRecorded))
      else if HasHypothesis(r, h.value.id) then (r, Refused(IdExists))
      else (r.(hypotheses := r.hypotheses + [h.value]), Accepted(h.value.id))
    case ProposeExperiment(e) =>
      if e.None? then (r, Refused(InvalidArguments))
      else if !HasHypothesis(r, e.value.hypothesisId) then (r, Refused(HypothesisNotRecorded))
      else if HasExperiment(r, e.value.id) then (r, Refused(IdExists))
      else (r.(experiments := r.experiments + [e.value]), Accepted(e.value.id))
    case UnknownTool => (r, Refused(NoSuchTool))
  }

  function ExecuteAll(r: Recorded, calls: seq<ToolCall>): Recorded {
    if calls == [] then r else Execute(ExecuteAll(r, calls[..|calls| - 1]), calls[|calls| - 1]).0
  }

  /** The answers to so many calls. */
  function OutputsOf(r: Recorded, calls: seq<ToolCall>): (outputs: seq<ToolOutput>)
    ensures |outputs| == |calls|
  {
    if calls == [] then []
    else
      var before, n := ExecuteAll(r, calls[..|calls| - 1]), |calls| - 1;
      OutputsOf(r, calls[..n]) + [Execute(before, calls[n]).1]
  }

  const NOTHING := Recorded([], [], [])
  const NO_SUMMARY := "Evidence and falsifiable experiment proposals were recorded."

  /** Nothing is ever taken back. */
  ghost predicate Extends(r: Recorded, s: Recorded) {
    r.evidence <= s.evidence && r.hypotheses <= s.hypotheses && r.experiments <= s.experiments
  }

  lemma ExtendedHas(r: Recorded, s: Recorded)
    requires Extends(r, s)
    ensures forall id :: HasEvidence(r, id) ==> HasEvidence(s, id)
    ensures forall id :: HasHypothesis(r, id) ==> HasHypothesis(s, id)
  {
    forall id | HasEvidence(r, id)
      ensures HasEvidence(s, id)
    {
      var i :| 0 <= i < |r.evidence| && r.evidence[i].id == id;
      assert s.evidence[i] == r.evidence[i];
    }
    forall id | HasHypothesis(r, id)
      ensures HasHypothesis(s, id)
    {
      var i :| 0 <= i < |r.hypotheses| && r.hypotheses[i].id == id;
      assert s.hypotheses[i] == r.hypotheses[i];
    }
  }

  /** One call keeps what is recorded sound, whatever the call. */
  lemma ExecuteKeepsSound(r: Recorded, call: ToolCall)
    requires Sound(r)
    ensures Sound(Execute(r, call).0) && Extends(r, Execute(r, call).0)
  {
    var s := Execute(r, call).0;
    ExtendedHas(r, s);
    forall i | 0 <= i < |s.hypotheses|
      ensures Supported(s, s.hypotheses[i])
    {
      assert Supported(r, s.hypotheses[i]);
    }
    forall i | 0 <= i < |s.experiments|
      ensures HasHypothesis(s, s.experiments[i].hypothesisId)
    {
      assert HasHypothesis(r, s.experiments[i].hypothesisId);
    }
  }

  lemma {:induction false} ExecuteAllKeepsSound(r: Recorded, calls: seq<ToolCall>)
    requires Sound(r)
    ensures Sound(ExecuteAll(r, calls))
  {
    if calls != [] {
      ExecuteAllKeepsSound(r, calls[..|calls| - 1]);
      ExecuteKeepsSound(ExecuteAll(r, calls[..|calls| - 1]), calls[|calls| - 1]);
    }
  }

  // ---------------------------------------------------------------------------------------------
  // What is recorded, in terms of the calls alone
  // ---------------------------------------------------------------------------------------------

  predicate GivesEvidence(call: ToolCall, id: string) {
    call.RecordEvidence? && call.evidence.Some? && call.evidence.value.id == id
  }

  /** Evidence of this id is given before the `n`-th call. */
  predicate Given(calls: seq<ToolCall>, n: nat, id: string)
    requires n <= |calls|
  {
    exists k :: 0 <= k < n && GivesEvidence(calls[k], id)
  }

  /** Call `k` records a hypothesis all of whose evidence has been given before it. */
  predicate Grounds(calls: seq<ToolCall>, k: nat, id: string)
    requires k < |calls|
  {
    && calls[k].RecordHypothesis? && calls[k].hypothesis.Some? && calls[k].hypothesis.value.id == id
    && forall i :: 0 <= i < |calls[k].hypothesis.value.evidenceIds| ==> Given(calls, k, calls[k].hypothesis.value.evidenceIds[i])
  }

  predicate Grounded(calls: seq<ToolCall>, n: nat, id: string)
    requires n <= |calls|
  {
    exists k :: 0 <= k < n && Grounds(calls, k, id)
  }

  /** Call `k` proposes an experiment on a hypothesis that has been grounded before it. */
  predicate Tests(calls: seq<ToolCall>, k: nat, id: string)
    requires k < |calls|
  {
    && calls[k].ProposeExperiment? && calls[k].experiment.Some? && calls[k].experiment.value.id == id
    && Grounded(calls, k, calls[k].experiment.value.hypothesisId)
  }

  predicate Tested(calls: seq<ToolCall>, n: nat, id: string)
    requires n <= |calls|
  {
    exists k :: 0 <= k < n && Tests(calls, k, id)
  }

  /** After so many calls the recorded ids are exactly those that were given, grounded and tested. */
  ghost predicate RecordsWhatCallsSay(calls: seq<ToolCall>, n: nat, r: Recorded)
    requires n <= |calls|
  {
    && (forall id :: HasEvidence(r, id) <==> Given(calls, n, id))
    && (forall id :: HasHypothesis(r, id) <==> Grounded(calls, n, id))
    && (forall id :: HasExperiment(r, id) <==> Tested(calls, n, id))
  }

  lemma EvidenceGrows(r: Recorded, call: ToolCall, id: string)
    ensures HasEvidence(Execute(r, call).0, id) <==> HasEvidence(r, id) || GivesEvidence(call, id)
  {
    var s := Execute(r, call).0;
    assert forall i :: 0 <= i < |r.evidence| ==> s.evidence[i] == r.evidence[i];
    if GivesEvidence(call, id) && !HasEvidence(r, id) {
      assert s.evidence[|r.evidence|].id == id;
    }
  }

  lemma HypothesesGrow(r: Recorded, call: ToolCall, id: string)
    ensures HasHypothesis(Execute(r, call).0, id)
       <==> || HasHypothesis(r, id)
            || (call.RecordHypothesis? && call.hypothesis.Some? && call.hypothesis.value.id == id && Supported(r, call.hypothesis.value))
  {
    var s := Execute(r, call).0;
    assert forall i :: 0 <= i < |r.hypotheses| ==> s.hypotheses[i] == r.hypotheses[i];
    if call.RecordHypothesis? && call.hypothesis.Some? && Supported(r, call.hypothesis.value) && !HasHypothesis(r, call.hypothesis.value.id) {
      assert s.hypotheses[|r.hypotheses|] == call.hypothesis.value;
    }
  }

  lemma ExperimentsGrow(r: Recorded, call: ToolCall, id: string)
    ensures HasExperiment(Execute(r, call).0, id)
       <==> || HasExperiment(r, id)
            || (&& call.ProposeExperiment? && call.experiment.Some? && call.experiment.value.id == id
                && HasHypothesis(r, call.experiment.value.hypothesisId))
  {
    var s := Execute(r, call).0;
    assert forall i :: 0 <= i < |r.experiments| ==> s.experiments[i] == r.experiments[i];
    if call.ProposeExperiment? && call.experiment.Some? && HasHypothesis(r, call.experiment.value.hypothesisId)
       && !HasExperiment(r, call.experiment.value.id)
    {
      assert s.experiments[|r.experiments|] == call.experiment.value;
    }
  }

  /** What is recorded in the end depends on the calls as they were made, and nothing that was in order is refused. */
  lemma {:induction false} CallsAreRecorded(calls: seq<ToolCall>, n: nat)
    requires n <= |calls|
    ensures RecordsWhatCallsSay(calls, n, ExecuteAll(NOTHING, calls[..n]))
  {
    if n > 0 {
      CallsAreRecorded(calls, n - 1);
      var r := ExecuteAll(NOTHING, calls[..n - 1]);
      assert calls[..n][..n - 1] == calls[..n - 1];
      assert ExecuteAll(NOTHING, calls[..n]) == Execute(r, calls[n - 1]).0;
      OneMoreCall(calls, n, r);
    }
  }

  lemma OneMoreCall(calls: seq<ToolCall>, n: nat, r: Recorded)
    requires 0 < n <= |calls| && RecordsWhatCallsSay(calls, n - 1, r)
    ensures RecordsWhatCallsSay(calls, n, Execute(r, calls[n - 1]).0)
  {
    forall id
      ensures HasEvidence(Execute(r, calls[n - 1]).0, id) <==> Given(calls, n, id)
      ensures HasHypothesis(Execute(r, calls[n - 1]).0, id) <==> Grounded(calls, n, id)
      ensures HasExperiment(Execute(r, calls[n - 1]).0, id) <==> Tested(calls, n, id)
    {
      EvidenceGrows(r, calls[n - 1], id);
      HypothesesGrow(r, calls[n - 1], id);
      ExperimentsGrow(r, calls[n - 1], id);
      assert Given(calls, n, id) <==> Given(calls, n - 1, id) || GivesEvidence(calls[n - 1], id);
      assert Grounded(calls, n, id) <==> Grounded(calls, n - 1, id) || Grounds(calls, n - 1, id);
      assert Tested(calls, n, id) <==> Tested(calls, n - 1, id) || Tests(calls, n - 1, id);
    }
  }

  /** Why a call is refused. */
  ghost predicate Justifies(r: Recorded, call: ToolCall, why: Refusal) {
    match why
    case InvalidJson => call.NotJson?
    case InvalidArguments => call in {RecordEvidence(None), RecordHypothesis(None), ProposeExperiment(None)}
    case IdExists =>
      || (call.RecordEvidence? && call.evidence.Some? && HasEvidence(r, call.evidence.value.id))
      || (call.RecordHypothesis? && call.hypothesis.Some? && HasHypothesis(r, call.hypothesis.value.id))
      || (call.ProposeExperiment? && call.experiment.Some? && HasExperiment(r, call.experiment.value.id))
    case EvidenceNotRecorded =>
      && call.RecordHypothesis? && call.hypothesis.Some?
      && exists k :: 0 <= k < |call.hypothesis.value.evidenceIds| && !HasEvidence(r, call.hypothesis.value.evidenceIds[k])
    case HypothesisNotRecorded =>
      call.ProposeExperiment? && call.experiment.Some? && !HasHypothesis(r, call.experiment.value.hypothesisId)
    case NoSuchTool => call.UnknownTool?
  }

  /** An accepted call adds what it carries, and the answer names it; a refused one changes nothing, and the answer is why. */
  lemma OutputsAreTruthful(r: Recorded, call: ToolCall)
    ensures var (s, output) := Execute(r, call);
            match output
            case Refused(why) => s == r && Justifies(r, call, why)
            case Accepted(id) =>
              || (exists e: EvidenceItem :: call == RecordEvidence(Some(e)) && id == e.id && s == r.(evidence := r.evidence + [e]))
              || (exists h: Hypothesis :: call == RecordHypothesis(Some(h)) && id == h.id && s == r.(hypotheses := r.hypotheses + [h]))
              || (exists x: Experiment :: call == ProposeExperiment(Some(x)) && id == x.id && s == r.(experiments := r.experiments + [x]))
  {
  }

  /** The accumulator as an object. */
  class Accumulator {
    var evidence: seq<EvidenceItem>
    var hypotheses: seq<Hypothesis>
    var experiments: seq<Experiment>

    constructor ()
      ensures Contents() == NOTHING
    {
      evidence, hypotheses, experiments := [], [], [];
    }

    function Contents(): Recorded
      reads this
    {
      Recorded(evidence, hypotheses, experiments)
    }

    method ExecuteToolCall(call: ToolCall) returns (output: ToolOutput)
      modifies this
      ensures (Contents(), output) == Execute(old(Contents()), call)
    {
      match call
      case NotJson => output := Refused(InvalidJson);
      case RecordEvidence(item) =>
        if item.None? {
          return Refused(InvalidArguments);
        }
        if exists i :: 0 <= i < |evidence| && evidence[i].id == item.value.id {
          return Refused(IdExists);
        }
        evidence := evidence + [item.value];
        output := Accepted(item.value.id);
      case RecordHypothesis(h) =>
        if h.None? {
          return Refused(InvalidArguments);
        }
        var known := set i | 0 <= i < |evidence| :: evidence[i].id;
        if exists k :: 0 <= k < |h.value.evidenceIds| && h.value.evidenceIds[k] !in known {
          return Refused(EvidenceNotRecorded);
        }
        if HasHypothesis(Contents(), h.value.id) {
          return Refused(IdExists);
        }
        hypotheses := hypotheses + [h.value];
        output := Accepted(h.value.id);
      case ProposeExperiment(e) =>
        if e.None? {
          return Refused(InvalidArguments);
        }
        if !HasHypothesis(Contents(), e.value.hypothesisId) {
          return Refused(HypothesisNotRecorded);
        }
        if HasExperiment(Contents(), e.value.id) {
          return Refused(IdExists);
        }
        experiments := experiments + [e.value];
        output := Accepted(e.value.id);
      case UnknownTool => output := Refused(NoSuchTool);
    }

    method ExecuteCalls(calls: seq<ToolCall>) returns (outputs: seq<ToolOutput>)
      modifies this
      ensures Contents() == ExecuteAll(old(Contents()), calls)
      ensures outputs == OutputsOf(old(Contents()), calls)
    {
      outputs := [];
      for i := 0 to |calls|
        invariant outputs == OutputsOf(old(Contents()), calls[..i])
        invariant Contents() == ExecuteAll(old(Contents()), calls[..i])
      {
        assert calls[..i + 1][..i] == calls[..i];
        var output := ExecuteToolCall(calls[i]);
        outputs := outputs + [output];
      }
      assert calls[..|calls|] == calls;
    }
  }

  // ---------------------------------------------------------------------------------------------
  // The loop
  // ---------------------------------------------------------------------------------------------

  datatype Plan = Plan(recorded: Recorded, summary: string, toolCalls: nat)

  datatype Failure =
    | TransportFailed
    | BudgetExceeded
    | OutOfTurns
    | NothingRecorded
    | UnresolvedReference

  /** A turn: the response, and the answers to its tool calls. */
  datatype Turn = Turn(response: Response, outputs: seq<ToolOutput>)

  /** The transport: what it responds to the turns so far, or nothing when it throws. */
  type Transport = seq<Turn> -> Option<Response>

  /** The first `n` turns, as the transport is shown them. */
  function History(transport: Transport, n: nat): seq<Turn>
    decreases n, 0
  {
    if n == 0 then []
    else
      var before, response := History(transport, n - 1), ResponseOf(transport, n - 1);
      if response.None? then before
      else
        var outputs := OutputsOf(ExecuteAll(NOTHING, CallsBefore(transport, n - 1)), response.value.calls);
        before + [Turn(response.value, outputs)]
  }

  /** What it responds in each turn. */
  function ResponseOf(transport: Transport, n: nat): Option<Response>
    decreases n, 1
  {
    transport(History(transport, n))
  }

  /** The tool calls of the first `n` turns. */
  function CallsBefore(transport: Transport, n: nat): seq<ToolCall>
    decreases n, 0
  {
    if n == 0 then []
    else CallsBefore(transport, n - 1) + (if ResponseOf(transport, n - 1).Some? then ResponseOf(transport, n - 1).value.calls else [])
  }

  /** The turns before `n` all answered with tool calls, within the budget. */
  ghost predicate Working(transport: Transport, maxToolCalls: nat, n: nat) {
    && (forall i: nat :: i < n ==> ResponseOf(transport, i).Some? && ResponseOf(transport, i).value.calls != [])
    && |CallsBefore(transport, n)| <= maxToolCalls
  }

  lemma {:induction false} EveryTurnCalls(transport: Transport, n: nat)
    requires forall i: nat :: i < n ==> ResponseOf(transport, i).Some? && ResponseOf(transport, i).value.calls != []
    ensures |CallsBefore(transport, n)| >= n
  {
    if n > 0 {
      EveryTurnCalls(transport, n - 1);
    }
  }

  /** A turn that answers with tool calls within the budget. */
  lemma OneMoreTurn(transport: Transport, maxToolCalls: nat, n: nat)
    requires Working(transport, maxToolCalls, n) && ResponseOf(transport, n).Some? && ResponseOf(transport, n).value.calls != []
    requires |CallsBefore(transport, n)| + |ResponseOf(transport, n).value.calls| <= maxToolCalls
    ensures Working(transport, maxToolCalls, n + 1)
    ensures CallsBefore(transport, n + 1) == CallsBefore(transport, n) + ResponseOf(transport, n).value.calls
    ensures ExecuteAll(NOTHING, CallsBefore(transport, n + 1))
         == ExecuteAll(ExecuteAll(NOTHING, CallsBefore(transport, n)), ResponseOf(transport, n).value.calls)
  {
    ExecuteAppended(NOTHING, CallsBefore(transport, n), ResponseOf(transport, n).value.calls);
  }

  lemma {:induction false} OutputAt(r: Recorded, calls: seq<ToolCall>, k: nat)
    requires k < |calls|
    ensures OutputsOf(r, calls)[k] == Execute(ExecuteAll(r, calls[..k]), calls[k]).1
  {
    var n := |calls| - 1;
    if k < n {
      OutputAt(r, calls[..n], k);
      assert calls[..n][..k] == calls[..k];
    }
  }

  /** The transport is shown every earlier response, and the answer to each of its calls by what was recorded before it. */
  lemma {:induction false} HistoryIsComplete(transport: Transport, maxToolCalls: nat, n: nat, i: nat, k: nat)
    requires Working(transport, maxToolCalls, n) && i < n && k < |ResponseOf(transport, i).value.calls|
    ensures |History(transport, n)| == n && History(transport, n)[i].response == ResponseOf(transport, i).value
    ensures var calls := ResponseOf(transport, i).value.calls;
            && |History(transport, n)[i].outputs| == |calls|
            && History(transport, n)[i].outputs[k] == Execute(ExecuteAll(NOTHING, CallsBefore(transport, i) + calls[..k]), calls[k]).1
  {
    HistoryGrows(transport, n, i);
    HistoryLength(transport, i);
    OneMoreShown(transport, i);
    var calls := ResponseOf(transport, i).value.calls;
    OutputAt(ExecuteAll(NOTHING, CallsBefore(transport, i)), calls, k);
    ExecuteAppended(NOTHING, CallsBefore(transport, i), calls[..k]);
  }

  lemma OneMoreShown(transport: Transport, n: nat)
    requires ResponseOf(transport, n).Some?
    ensures var response := ResponseOf(transport, n).value;
            History(transport, n + 1)
            == History(transport, n) + [Turn(response, OutputsOf(ExecuteAll(NOTHING, CallsBefore(transport, n)), response.calls))]
  {
  }

  lemma {:induction false} HistoryLength(transport: Transport, n: nat)
    requires forall m: nat :: m < n ==> ResponseOf(transport, m).Some?
    ensures |History(transport, n)| == n
  {
    if n > 0 {
      HistoryLength(transport, n - 1);
      OneMoreShown(transport, n - 1);
    }
  }

  lemma {:induction false} HistoryGrows(transport: Transport, n: nat, i: nat)
    requires (forall m: nat :: m < n ==> ResponseOf(transport, m).Some?) && i < n
    ensures |History(transport, n)| == n && |History(transport, i + 1)| == i + 1
    ensures History(transport, n)[i] == History(transport, i + 1)[i]
  {
    HistoryLength(transport, n);
    HistoryLength(transport, i + 1);
    if i < n - 1 {
      HistoryGrows(transport, n - 1, i);
      OneMoreShown(transport, n - 1);
    }
  }

  /** What calls recorded passes the plan's own checks, if there is something of each kind. */
  lemma RecordedIsOk(calls: seq<ToolCall>)
    ensures Sound(ExecuteAll(NOTHING, calls))
    ensures PlanOk(ExecuteAll(NOTHING, calls)) <==> SomethingOfEach(ExecuteAll(NOTHING, calls))
  {
    ExecuteAllKeepsSound(NOTHING, calls);
  }

  predicate SomethingOfEach(r: Recorded) { r.evidence != [] && r.hypotheses != [] && r.experiments != [] }

  /** The plan's own checks: something of each kind, and every reference resolved. */
  predicate PlanOk(r: Recorded) {
    && SomethingOfEach(r)
    && (forall i :: 0 <= i < |r.hypotheses| ==> Supported(r, r.hypotheses[i]))
    && (forall i :: 0 <= i < |r.experiments| ==> HasHypothesis(r, r.experiments[i].hypothesisId))
  }

  /**
   investigate. It stops at the first turn without tool calls and reports exactly what the calls before it recorded;
   it fails when the transport fails, when the next response would exceed the budget, or when something was never
   recorded, and for no other reason.
   */
  method Investigate(transport: Transport, maxToolCalls: nat) returns (r: Result<Plan, Failure>, ghost turns: nat)
    ensures turns <= maxToolCalls && Working(transport, maxToolCalls, turns)
    ensures r.Ok? ==>
              && ResponseOf(transport, turns).Some? && ResponseOf(transport, turns).value.calls == []
              && r.value.recorded == ExecuteAll(NOTHING, CallsBefore(transport, turns))
              && r.value.toolCalls == |CallsBefore(transport, turns)| <= maxToolCalls
              && Sound(r.value.recorded) && PlanOk(r.value.recorded)
              && r.value.summary == if ResponseOf(transport, turns).value.text != "" then ResponseOf(transport, turns).value.text
                                    else NO_SUMMARY
    ensures r == Err(NothingRecorded) <==>
              ResponseOf(transport, turns).Some? && ResponseOf(transport, turns).value.calls == []
              && !SomethingOfEach(ExecuteAll(NOTHING, CallsBefore(transport, turns)))
    ensures r == Err(TransportFailed) <==> ResponseOf(transport, turns).None?
    ensures r == Err(BudgetExceeded) <==>
              ResponseOf(transport, turns).Some? && ResponseOf(transport, turns).value.calls != []
              && |CallsBefore(transport, turns + 1)| > maxToolCalls
    ensures r != Err(OutOfTurns) && r != Err(UnresolvedReference)
  {
    var accumulator := new Accumulator();
    var history: seq<Turn> := [];
    var summary, toolCalls, completed := "", 0, false;
    var turn: nat := 0;
    while turn <= maxToolCalls
      invariant turn <= maxToolCalls + 1 && !completed
      invariant Working(transport, maxToolCalls, turn)
      invariant history == History(transport, turn) && toolCalls == |CallsBefore(transport, turn)|
      invariant accumulator.Contents() == ExecuteAll(NOTHING, CallsBefore(transport, turn))
      invariant fresh(accumulator)
    {
      EveryTurnCalls(transport, turn);
      var response := transport(history);
      if response.None? {
        return Err(TransportFailed), turn;
      }
      var calls := response.value.calls;
      if |calls| == 0 {
        summary := response.value.text;
        completed := true;
        break;
      }
      if toolCalls + |calls| > maxToolCalls {
        return Err(BudgetExceeded), turn;
      }
      OneMoreTurn(transport, maxToolCalls, turn);
      var outputs := accumulator.ExecuteCalls(calls);
      toolCalls := toolCalls + |calls|;
      history := history + [Turn(response.value, outputs)];
      turn := turn + 1;
    }
    EveryTurnCalls(transport, turn);
    if !completed {
      return Err(OutOfTurns), turn;
    }
    turns := turn;
    var recorded := accumulator.Contents();
    RecordedIsOk(CallsBefore(transport, turn));
    if !SomethingOfEach(recorded) {
      return Err(NothingRecorded), turn;
    }
    if !PlanOk(recorded) {
      return Err(UnresolvedReference), turn;
    }
    return Ok(Plan(recorded, if summary != "" then summary else NO_SUMMARY, toolCalls)), turn;
  }

  lemma {:induction false} ExecuteAppended(r: Recorded, calls: seq<ToolCall>, more: seq<ToolCall>)
    ensures ExecuteAll(r, calls + more) == ExecuteAll(ExecuteAll(r, calls), more)
  {
    if more == [] {
      assert calls + more == calls;
    } else {
      var n := |more| - 1;
      ExecuteAppended(r, calls, more[..n]);
      assert (calls + more)[..|calls| + n] == calls + more[..n];
    }
  }
}
