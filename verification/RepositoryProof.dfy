/**
 The proof that is kept of a repository reproduction: redacted runs, the verdict, the case led to its terminal state,
 and for a verified reproduction the bundle and its files.

 Assembling fails exactly for a verified reproduction whose oracle compares a field with something JSON cannot express;
 otherwise the result passes every cross-field rule.
 */
module RepositoryProof {
  import opened Wrappers
  import opened Json
  import opened CanonicalJson
  import opened Lifecycle
  import opened Lists
  import opened RepositoryEvidence
  import opened ReproductionBundle
  import F = FailureSignature
  import Minimization
  import Redaction
  import Texts
  import V = Verification

  // ---------------------------------------------------------------------------------------------
  // The terminal case
  // ---------------------------------------------------------------------------------------------

  function TerminalState(status: V.Status): CaseState {
    match status
    case VERIFIED => VERIFIED
    case UNSTABLE => UNSTABLE
    case NOT_REPRODUCED => NOT_REPRODUCED
    case BLOCKED => BLOCKED
  }

  /** The states a case goes through from DRAFT. */
  function Route(status: V.Status): seq<CaseState> {
    [INGESTING, INSPECTING, HYPOTHESIZING, EXPERIMENTING, VERIFYING]
    + if status == V.VERIFIED then [MINIMIZING, PACKAGING, VERIFIED] else [TerminalState(status)]
  }

  /** The case went along the route, one millisecond a step from `first` on, and is otherwise the same. */
  ghost predicate Travelled(initial: Case, c: Case, route: seq<CaseState>, first: int) {
    && c.id == initial.id && c.createdAt == initial.createdAt
    && |c.history| == |initial.history| + |route| && c.history[..|initial.history|] == initial.history
    && c.state == (if route == [] then initial.state else route[|route| - 1])
    && forall i :: 0 <= i < |route| ==> StepTaken(initial, c, route, first, i)
  }

  /** Step `i` of the route is entry `i` of what was added to the history. */
  predicate StepTaken(initial: Case, c: Case, route: seq<CaseState>, first: int, i: nat)
    requires i < |route| && |c.history| == |initial.history| + |route|
  {
    var e := c.history[|initial.history| + i];
    && e.to == route[i] && e.at == first + i
    && e.from == (if i == 0 then initial.state else route[i - 1])
    && e.to in AllowedCase(e.from)
  }

  /**
   Each step of the walk. The case only ever moves along an allowed transition, so no step can be refused.
   */
  method Walk(initial: Case, status: V.Status, first: int) returns (r: Option<Case>)
    requires initial.state == DRAFT
    ensures r.Some? && Travelled(initial, r.value, Route(status), first)
  {
    var route := Route(status);
    var current := initial;
    for sequence := 0 to |route|
      invariant Travelled(initial, current, route[..sequence], first)
    {
      RouteIsAllowed(status, sequence);
      var moved := TransitionCase(current, route[sequence], "", first + sequence);
      if moved.None? {
        return None;
      }
      OneStep(initial, current, moved.value, route, sequence, first);
      current := moved.value;
    }
    assert route[..|route|] == route;
    return Some(current);
  }

  lemma RouteIsAllowed(status: V.Status, i: nat)
    requires i < |Route(status)|
    ensures Route(status)[i] in AllowedCase(if i == 0 then DRAFT else Route(status)[i - 1])
  {
  }

  lemma OneStep(initial: Case, before: Case, after: Case, route: seq<CaseState>, i: nat, first: int)
    requires i < |route| && Travelled(initial, before, route[..i], first)
    requires TransitionCase(before, route[i], "", first + i) == Some(after)
    ensures Travelled(initial, after, route[..i + 1], first)
  {
    var h := |initial.history|;
    assert after.history[..h] == before.history[..h];
    var taken := route[..i + 1];
    forall k | 0 <= k < |taken|
      ensures StepTaken(initial, after, taken, first, k)
    {
      if k < i {
        assert StepTaken(initial, before, route[..i], first, k);
        assert after.history[h + k] == before.history[h + k];
      }
    }
  }

  /** terminalCase: legal, in strictly increasing time from no earlier than the creation of the case. */
  method TerminalCaseOf(initial: Case, status: V.Status, generatedAt: int) returns (r: Option<Case>)
    requires initial.state == DRAFT && initial.createdAt <= generatedAt
    ensures r.Some? && r.value.state == TerminalState(status) && r.value.id == initial.id
    ensures initial.history <= r.value.history
    ensures Coherent(initial) ==> Coherent(r.value)
    ensures var added := r.value.history[|initial.history|..];
            && |added| == (if status == V.VERIFIED then 8 else 6)
            && added[0].at >= initial.createdAt
            && (forall i :: 0 < i < |added| ==> added[i].at == added[i - 1].at + 1)
            && (if generatedAt - |added| >= initial.createdAt then added[|added| - 1].at == generatedAt - 1
                else added[0].at == initial.createdAt)
  {
    var count := if status == V.VERIFIED then 8 else 6;
    var first := if generatedAt - count > initial.createdAt then generatedAt - count else initial.createdAt;
    r := Walk(initial, status, first);
    TravelledIsCoherent(initial, r.value, Route(status), first);
    ghost var added := r.value.history[|initial.history|..];
    forall i | 0 <= i < |added|
      ensures added[i].at == first + i
    {
      assert StepTaken(initial, r.value, Route(status), first, i);
    }
  }

  lemma TravelledIsCoherent(initial: Case, c: Case, route: seq<CaseState>, first: int)
    requires Travelled(initial, c, route, first) && route != []
    ensures Coherent(initial) ==> Coherent(c)
  {
    if Coherent(initial) {
      var h := |initial.history|;
      forall i | 0 <= i < |c.history|
        ensures c.history[i].to in AllowedCase(c.history[i].from)
        ensures i > 0 ==> c.history[i].from == c.history[i - 1].to
      {
        if i < h {
          assert c.history[i] == initial.history[i];
          assert i > 0 ==> c.history[i - 1] == initial.history[i - 1];
        } else {
          assert StepTaken(initial, c, route, first, i - h);
          assert i > h ==> StepTaken(initial, c, route, first, i - h - 1);
          assert i == h && h > 0 ==> c.history[h - 1] == initial.history[h - 1];
        }
      }
      assert h > 0 ==> c.history[0] == initial.history[0];
      assert StepTaken(initial, c, route, first, |route| - 1) && StepTaken(initial, c, route, first, 0);
    }
  }

  // ---------------------------------------------------------------------------------------------
  // The proof
  // ---------------------------------------------------------------------------------------------

  datatype Proof = Proof(
    bundle: Option<Bundle>,
    caseRecord: Case,
    evidence: seq<EvidenceItem>,
    files: Files,
    hypotheses: seq<Hypothesis>,
    minimization: Option<Minimization.Outcome>,
    runs: seq<V.RunResult>,
    summary: V.Summary)

  /** The cross-field rules of the result schema, and the bounds of its lists. */
  ghost predicate ProofOk(reader: F.Reader, p: Proof) {
    && p.caseRecord.state == TerminalState(p.summary.status)
    && (p.summary.status == V.VERIFIED <==> p.bundle.Some?)
    && (p.summary.status == V.VERIFIED <==> p.minimization.Some?)
    && (p.summary.status == V.VERIFIED <==> p.files.Keys != {})
    && |p.evidence| >= 3 && (forall i :: 0 <= i < |p.evidence| ==> p.evidence[i].content != [] && p.evidence[i].source != [])
    && |p.hypotheses| >= 1
    && (forall i :: 0 <= i < |p.hypotheses| ==> HypothesisOk(p.hypotheses[i]) && Resolved(p.hypotheses[i], p.evidence))
    && 2 <= |p.runs| <= 6 && (forall i :: 0 <= i < |p.runs| ==> RunOk(p.runs[i]))
    && (p.bundle.Some? ==> BundleOk(reader, p.bundle.value))
    && (p.minimization.Some? ==> Minimization.OutcomeOk(p.minimization.value))
  }

  /** The hypothesis and the case say what the verdict says. */
  ghost predicate Echoes(p: Proof) {
    && |p.hypotheses| == 1
    && (p.hypotheses[0].status == Supported <==> p.summary.status == V.VERIFIED)
    && (p.hypotheses[0].status == Contradicted <==> p.summary.status == V.NOT_REPRODUCED)
    && (p.hypotheses[0].status == Inconclusive <==> p.summary.status in {V.UNSTABLE, V.BLOCKED})
    && match p.summary.status
       case VERIFIED => p.caseRecord.state == VERIFIED
       case UNSTABLE => p.caseRecord.state == UNSTABLE
       case NOT_REPRODUCED => p.caseRecord.state == NOT_REPRODUCED
       case BLOCKED => p.caseRecord.state == BLOCKED
  }

  /**
   What a proof shows of its runs and of the request for it: everything but the registered secrets.
   */
  ghost predicate Confidential(input: Input, p: Proof) {
    var bounded := [input.control] + input.candidates;
    && |p.runs| == |bounded| && (forall i :: 0 <= i < |bounded| ==> Persists(p.runs[i], bounded[i], input.secrets))
    && p.evidence == ProofEvidence(input)
    && (p.evidence[0].classification == Reported <==> input.issue.Some?)
    && IsRedaction(p.evidence[0].content, TitleOf(input), input.secrets)
  }

  lemma ProofIsConfidential(leaf: V.Leaf, input: Input, current: Case, bundle: Option<Bundle>, files: Files)
    ensures Confidential(input, ProofOf(leaf, input, current, bundle, files))
  {
    var bounded := [input.control] + input.candidates;
    RedactedIsRedaction(TitleOf(input), input.secrets);
    forall i | 0 <= i < |bounded|
      ensures Persists(PersistedRuns(bounded, input.secrets)[i], bounded[i], input.secrets)
    {
      PersistedRunPersists(bounded[i], input.secrets);
    }
  }

  /** Every piece of evidence a hypothesis names is in the proof. */
  ghost predicate Resolved(h: Hypothesis, evidence: seq<EvidenceItem>) {
    forall k :: 0 <= k < |h.evidenceIds| ==> exists i :: 0 <= i < |evidence| && evidence[i].id == h.evidenceIds[k]
  }

  lemma EvidenceResolves(reader: F.Reader, input: Input, status: V.Status)
    requires Accepted(reader, input)
    ensures HypothesisOk(ProofHypothesis(status)) && Resolved(ProofHypothesis(status), ProofEvidence(input))
    ensures forall i :: 0 <= i < 3 ==> ProofEvidence(input)[i].content != [] && ProofEvidence(input)[i].source != []
  {
    var evidence, h := ProofEvidence(input), ProofHypothesis(status);
    Redaction.RedactionKeepsNonEmpty(TitleOf(input), input.secrets);
    assert |evidence| == 3 && |h.evidenceIds| == 3;
    assert evidence[0].id == REQUEST == h.evidenceIds[0];
    assert evidence[1].id == PROVENANCE == h.evidenceIds[1];
    assert evidence[2].id == RUNS == h.evidenceIds[2];
    forall k | 0 <= k < |h.evidenceIds|
      ensures exists i :: 0 <= i < |evidence| && evidence[i].id == h.evidenceIds[k]
    {
      assert k == 0 || k == 1 || k == 2;
      assert evidence[k].id == h.evidenceIds[k];
    }
  }

  /** The bundle of a verified reproduction, before its hash. */
  function BaseOf(caseId: string, h: Hypothesis, oracle: V.Oracle, minimization: Minimization.Outcome,
                  runs: seq<V.RunResult>, summary: V.Summary): Base
  {
    Base(caseId, [h], oracle.id, oracle.version, minimization, oracle, runs, summary)
  }

  /** The verdict on the persisted runs of the input. */
  function Verdict(leaf: V.Leaf, input: Input): V.Summary {
    V.Verify(leaf, input.oracle, PersistedRun(input.control, input.secrets), PersistedRuns(input.candidates, input.secrets),
             input.requiredRuns)
  }

  /** Nothing the oracle compares a field with stops a verified reproduction from being packaged. */
  predicate Packageable(reader: F.Reader, e: V.Expression) { F.EveryField(F.Hashable, e) && F.EveryField(F.Readable(reader), e) }

  /**
   assembleRepositoryProof. Of all the checks on the way, only two can fail on an accepted input, and they do exactly
   for a verified reproduction whose oracle cannot be hashed, or cannot be read back.
   */
  method Assemble(leaf: V.Leaf, collation: Minimization.Collation, s: Schemas, input: Input, heading: Text, tail: Text)
    returns (r: Result<Proof, Failure>)
    requires Lawful(s) && Total(collation) && Accepted(s.reader, input)
    ensures r.Ok? <==> Verdict(leaf, input).status == V.VERIFIED ==> Packageable(s.reader, input.oracle.root)
    ensures r == Err(NotJson) <==>
              Verdict(leaf, input).status == V.VERIFIED && !F.EveryField(F.Hashable, input.oracle.root)
    ensures r.Ok? ==> ProofOk(s.reader, r.value) && r.value.summary == Verdict(leaf, input)
    ensures r.Ok? ==> r.value.runs == PersistedRuns([input.control] + input.candidates, input.secrets)
    ensures r.Ok? && r.value.bundle.Some? ==> Bundled(s, collation, input, r.value)
    ensures r.Ok? ==> r.value.caseRecord.id == input.initial.id && input.initial.history <= r.value.caseRecord.history
    ensures r.Ok? && Coherent(input.initial) ==> Coherent(r.value.caseRecord)
    ensures r.Ok? ==> Echoes(r.value) && Confidential(input, r.value)
    ensures r.Ok? && r.value.minimization.Some? ==> r.value.minimization.value.claim == Minimization.BaselineRetained
  {
    var summary := Verdict(leaf, input);
    var current := TerminalCaseOf(input.initial, summary.status, input.generatedAt);
    if current.None? {
      return Err(InvalidProof);
    }
    var packed := PackageVerified(leaf, collation, s, input, heading, tail);
    if packed.Err? {
      return Err(packed.error);
    }
    var (bundle, files) := packed.value;
    ProofIsOk(leaf, s.reader, input, current.value, bundle, files);
    ProofEchoes(leaf, input, current.value, bundle, files);
    ProofIsConfidential(leaf, input, current.value, bundle, files);
    return Ok(ProofOf(leaf, input, current.value, bundle, files));
  }

  /** The bundle and the files of a verified reproduction, and neither of any other. */
  method PackageVerified(leaf: V.Leaf, collation: Minimization.Collation, s: Schemas, input: Input, heading: Text, tail: Text)
    returns (r: Result<(Option<Bundle>, Files), Failure>)
    requires Lawful(s) && Total(collation) && Accepted(s.reader, input)
    ensures r.Ok? <==> Verdict(leaf, input).status == V.VERIFIED ==> Packageable(s.reader, input.oracle.root)
    ensures r == Err(NotJson) <==>
              Verdict(leaf, input).status == V.VERIFIED && !F.EveryField(F.Hashable, input.oracle.root)
    ensures r.Ok? ==> r.value.0.Some? == (Verdict(leaf, input).status == V.VERIFIED) == (r.value.1.Keys != {})
    ensures r.Ok? && r.value.0.Some? ==>
              && BundleOk(s.reader, r.value.0.value) && Packed(leaf, s, collation, input, r.value.0.value, r.value.1)
  {
    var control, candidates := PersistedRun(input.control, input.secrets), PersistedRuns(input.candidates, input.secrets);
    var summary := V.Verify(leaf, input.oracle, control, candidates, input.requiredRuns);
    if summary.status != V.VERIFIED {
      return Ok((None, map[]));
    }
    var h := ProofHypothesis(summary.status);
    EvidenceResolves(s.reader, input, summary.status);
    RunsPersisted(s.reader, input);
    var packed := Package(leaf, collation, s, input, input.initial.id, h, control, candidates, heading, tail);
    if packed.Err? {
      return Err(packed.error);
    }
    var files := Materialize(s, packed.value, heading, tail);
    MaterializedTellsBundle(s, packed.value, heading, tail);
    assert Readme in files;
    return Ok((Some(packed.value), files));
  }

  /** The bundle is of the parts of the proof, is named by their hash, and its files validate. */
  ghost predicate Packed(leaf: V.Leaf, s: Schemas, collation: Minimization.Collation, input: Input, bundle: Bundle, files: Files)
    requires Total(collation)
  {
    var b, summary := bundle.base, Verdict(leaf, input);
    && FilesOk(Parse, s, files) && FilesTell(s, bundle, files)
    && b == BaseOf(input.initial.id, ProofHypothesis(summary.status), input.oracle, b.minimization,
                   PersistedRuns([input.control] + input.candidates, input.secrets), summary)
    && b.minimization.claim == Minimization.BaselineRetained
    && Canonical(BaseValue(s, b)) && bundle.hash == HashOf(s, collation, b)
  }

  function ProofOf(leaf: V.Leaf, input: Input, current: Case, bundle: Option<Bundle>, files: Files): Proof {
    var summary := Verdict(leaf, input);
    Proof(bundle, current, ProofEvidence(input), files, [ProofHypothesis(summary.status)],
          if bundle.Some? then Some(bundle.value.base.minimization) else None,
          PersistedRuns([input.control] + input.candidates, input.secrets), summary)
  }

  lemma ProofIsOk(leaf: V.Leaf, reader: F.Reader, input: Input, current: Case, bundle: Option<Bundle>, files: Files)
    requires Accepted(reader, input) && current.state == TerminalState(Verdict(leaf, input).status)
    requires bundle.Some? == (Verdict(leaf, input).status == V.VERIFIED) == (files.Keys != {})
    requires bundle.Some? ==> BundleOk(reader, bundle.value)
    ensures ProofOk(reader, ProofOf(leaf, input, current, bundle, files))
  {
    EvidenceResolves(reader, input, Verdict(leaf, input).status);
    RunsPersisted(reader, input);
    assert |PersistedRuns([input.control] + input.candidates, input.secrets)| == 1 + |input.candidates|;
  }

  lemma ProofEchoes(leaf: V.Leaf, input: Input, current: Case, bundle: Option<Bundle>, files: Files)
    requires current.state == TerminalState(Verdict(leaf, input).status)
    ensures Echoes(ProofOf(leaf, input, current, bundle, files))
  {
  }

  /** The bundle of a proof is of its parts, is named by their hash, and its files validate. */
  ghost predicate Bundled(s: Schemas, collation: Minimization.Collation, input: Input, p: Proof)
    requires p.bundle.Some? && Total(collation)
  {
    var b := p.bundle.value.base;
    && FilesOk(Parse, s, p.files) && FilesTell(s, p.bundle.value, p.files)
    && b.caseId == input.initial.id && b.oracle == input.oracle && b.runLog == p.runs && b.summary == p.summary
    && Some(b.minimization) == p.minimization && b.hypotheses == p.hypotheses
    && Canonical(BaseValue(s, b)) && p.bundle.value.hash == HashOf(s, collation, b)
  }

  /** The bundle of a verified reproduction, once its files have been validated. */
  method Package(leaf: V.Leaf, collation: Minimization.Collation, s: Schemas, input: Input, caseId: string, h: Hypothesis,
                 control: V.RunResult, candidates: seq<V.RunResult>, heading: Text, tail: Text)
    returns (r: Result<Bundle, Failure>)
    requires Lawful(s) && Total(collation) && HypothesisOk(h) && F.OracleOk(s.reader, input.oracle)
    requires forall i :: 0 <= i < |[control] + candidates| ==> RunOk(([control] + candidates)[i])
    requires V.Verify(leaf, input.oracle, control, candidates, input.requiredRuns).status == V.VERIFIED
    ensures r.Ok? <==> Packageable(s.reader, input.oracle.root)
    ensures r == Err(NotJson) <==> !F.EveryField(F.Hashable, input.oracle.root)
    ensures r.Ok? ==> BundleOk(s.reader, r.value) && FilesOk(Parse, s, Materialize(s, r.value, heading, tail))
    ensures r.Ok? ==> Canonical(BaseValue(s, r.value.base)) && r.value.hash == HashOf(s, collation, r.value.base)
    ensures r.Ok? ==> r.value.base.minimization.claim == Minimization.BaselineRetained
    ensures r.Ok? ==>
              r.value.base == BaseOf(caseId, h, input.oracle, r.value.base.minimization, [control] + candidates,
                                     V.Verify(leaf, input.oracle, control, candidates, input.requiredRuns))
  {
    var summary := V.Verify(leaf, input.oracle, control, candidates, input.requiredRuns);
    var minimization := Minimization.Minimize(leaf, collation, input.oracle, control, candidates, [], input.requiredRuns);
    if minimization.None? {
      return Err(InvalidProof);
    }
    var base := BaseOf(caseId, h, input.oracle, minimization.value, [control] + candidates, summary);
    r := CreateBundle(s, collation, base);
    if r.Ok? {
      JsonRoundTrips();
      MaterializedValidates(Parse, s, r.value, heading, tail);
      var errors := ValidateFiles(Parse, s, Materialize(s, r.value, heading, tail));
      if errors != [] {
        r := Err(InvalidProof);
      }
    }
  }

  lemma RunsPersisted(reader: F.Reader, input: Input)
    requires Accepted(reader, input)
    ensures var runs := [PersistedRun(input.control, input.secrets)] + PersistedRuns(input.candidates, input.secrets);
            && runs == PersistedRuns([input.control] + input.candidates, input.secrets)
            && runs[1..] == PersistedRuns(input.candidates, input.secrets)
            && forall i :: 0 <= i < |runs| ==> RunOk(runs[i])
  {
    PersistedRunOk(input.control, input.secrets);
    forall i | 0 <= i < |input.candidates|
      ensures RunOk(PersistedRun(input.candidates[i], input.secrets))
    {
      PersistedRunOk(input.candidates[i], input.secrets);
    }
  }

  // ---------------------------------------------------------------------------------------------
  // Oracles that cannot be packaged
  // ---------------------------------------------------------------------------------------------

  const FIELD := Ascii("a")

  /** An object with one field. */
  function FieldOf(v: Value): Value { Obj([Member(FIELD, v)]) }

  function RunOf(output: Text): BoundedRun { BoundedRun(V.RunResult(FIELD, FIELD, FIELD, 1, [], []), output, []) }

  /** Three candidates with one output, and a control with another. */
  function SmallInput(initial: Case, origin: Origin, root: V.Expression, output: Text, other: Text): Input {
    Input(3, initial, RunOf(other), [RunOf(output), RunOf(output), RunOf(output)], initial.createdAt, None,
          V.Oracle(FIELD, 1, root), origin, [])
  }

  lemma SmallInputIsAccepted(reader: F.Reader, initial: Case, origin: Origin, root: V.Expression, output: Text, other: Text)
    requires initial.state == DRAFT && OriginOk(origin) && F.ExpressionOk(reader, root)
    ensures Accepted(reader, SmallInput(initial, origin, root, output, other))
  {
    assert |FIELD| == 1;
  }

  lemma ThreePersisted(r: BoundedRun)
    ensures var p := PersistedRun(r, []); PersistedRuns([r, r, r], []) == [p, p, p]
  {
  }

  /** An oracle that tells the candidates from the control gives a verified reproduction. */
  lemma SmallInputIsVerified(leaf: V.Leaf, initial: Case, origin: Origin, root: V.Expression, output: Text, other: Text)
    requires V.Evaluate(leaf, root, PersistedRun(RunOf(output), [])).matched
    requires !V.Evaluate(leaf, root, PersistedRun(RunOf(other), [])).matched
    ensures Verdict(leaf, SmallInput(initial, origin, root, output, other)).status == V.VERIFIED
  {
    var input := SmallInput(initial, origin, root, output, other);
    var control, candidate := PersistedRun(RunOf(other), []), PersistedRun(RunOf(output), []);
    ThreePersisted(RunOf(output));
    AlikeAreVerified(leaf, input.oracle, control, candidate);
  }

  lemma AlikeAreVerified(leaf: V.Leaf, oracle: V.Oracle, control: V.RunResult, candidate: V.RunResult)
    requires V.Matches(leaf, oracle, candidate) && !V.Matches(leaf, oracle, control)
    requires candidate.environmentHash == control.environmentHash
    ensures V.Verify(leaf, oracle, control, [candidate, candidate, candidate], 3).status == V.VERIFIED
  {
    V.VerdictMeans(leaf, oracle, control, [candidate, candidate, candidate], 3);
  }

  lemma FieldIsFound(v: Value)
    requires Plain(v)
    ensures Plain(FieldOf(v)) && F.AtPath(FieldOf(v), [FIELD]) == v
  {
    var members := [Member(FIELD, v)];
    assert Plain(members[0].value) && Lookup(members, FIELD) == Some(v);
    assert F.Own(FieldOf(v), FIELD) == v && [FIELD][1..] == [];
  }

  /** The output of a run, and what a field of it is compared with. */
  lemma FieldJudges(v: Value, equals: Value)
    requires Plain(v)
    ensures Plain(FieldOf(v))
    ensures V.Evaluate(F.FieldMatches, V.JsonField(V.Stdout, [FIELD], equals),
                       PersistedRun(RunOf(Print(FieldOf(v))), [])).matched
         == F.PrintedAlike(v, equals)
  {
    FieldIsFound(v);
    ParseUndoesPrint(FieldOf(v));
  }

  /** An accepted input whose verified reproduction cannot be hashed: undefined in a list matches a null in the output. */
  lemma UndefinedInListCannotBeHashed(reader: F.Reader, initial: Case, origin: Origin) returns (input: Input)
    requires initial.state == DRAFT && OriginOk(origin)
    ensures Accepted(reader, input) && Verdict(F.FieldMatches, input).status == V.VERIFIED
    ensures !F.EveryField(F.Hashable, input.oracle.root)
  {
    var nothing, equals := Atom(NULL), Arr([Undefined]);
    var root := V.JsonField(V.Stdout, [FIELD], equals);
    assert equals.items == [Undefined] + [] && AsJsonItems(equals.items) == [nothing];
    assert !CanonicalJson.Supported(equals.items[0]);
    assert Plain(nothing) && Plain(Arr([nothing]));
    FieldIsFound(nothing);
    FieldIsFound(Arr([nothing]));
    FieldJudges(nothing, equals);
    FieldJudges(Arr([nothing]), equals);
    assert AsJsonItems([nothing]) == [nothing];
    var output, other := Print(FieldOf(Arr([nothing]))), Print(FieldOf(nothing));
    SmallInputIsAccepted(reader, initial, origin, root, output, other);
    SmallInputIsVerified(F.FieldMatches, initial, origin, root, output, other);
    input := SmallInput(initial, origin, root, output, other);
  }
}
