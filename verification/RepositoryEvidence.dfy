/** What the proof of a repository reproduction is made from: the redacted runs, the evidence and the hypothesis. */
module RepositoryEvidence {
  import opened Wrappers
  import opened Json
  import opened Lifecycle
  import opened Lists
  import F = FailureSignature
  import Redaction
  import V = Verification

  // ---------------------------------------------------------------------------------------------
  // Input
  // ---------------------------------------------------------------------------------------------

  /** A run with the captured text of its streams. */
  datatype BoundedRun = BoundedRun(run: V.RunResult, stdout: Text, stderr: Text)

  datatype Issue = Issue(number: nat, title: Option<Text>)

  /** What was run: the repository and its commit, how many files it has, and the runtime. */
  datatype Origin = Origin(fullName: Text, commitSha: Text, fileCount: nat, runtime: Text)

  datatype Input = Input(
    requiredRuns: nat,
    initial: Case,
    control: BoundedRun,
    candidates: seq<BoundedRun>,
    generatedAt: int,
    issue: Option<Issue>,
    oracle: V.Oracle,
    origin: Origin,
    secrets: seq<Text>)

  predicate OriginOk(o: Origin) {
    && o.fullName != [] && o.fileCount > 0
    && |o.commitSha| == 40 && (forall i :: 0 <= i < 40 ==> Digit(o.commitSha[i]) || 0x61 <= o.commitSha[i] <= 0x66)
    && (o.runtime == Ascii("node22") || o.runtime == Ascii("node24"))
  }

  predicate RunOk(run: V.RunResult) { run.id != [] && run.command != [] && run.environmentHash != [] }

  /** What the schema of the input accepts, as far as the proof depends on it. */
  predicate Accepted(reader: F.Reader, input: Input) {
    && 3 <= input.requiredRuns <= 5
    && |input.candidates| == input.requiredRuns
    && input.initial.state == DRAFT
    && input.initial.createdAt <= input.generatedAt
    && RunOk(input.control.run)
    && (forall i :: 0 <= i < |input.candidates| ==> RunOk(input.candidates[i].run))
    && (input.issue.Some? ==> input.issue.value.number > 0 && input.issue.value.title != Some([]))
    && OriginOk(input.origin)
    && F.OracleOk(reader, input.oracle)
  }

  // ---------------------------------------------------------------------------------------------
  // Runs
  // ---------------------------------------------------------------------------------------------

  /** persistedRun: the redacted run with the redacted captures as its streams. */
  function PersistedRun(r: BoundedRun, secrets: seq<Text>): V.RunResult {
    V.RunResult(
      Redaction.RedactString(r.run.id, secrets),
      Redaction.RedactString(r.run.command, secrets),
      Redaction.RedactString(r.run.environmentHash, secrets),
      r.run.exitCode,
      Redaction.RedactString(r.stdout, secrets),
      Redaction.RedactString(r.stderr, secrets))
  }

  function PersistedRuns(runs: seq<BoundedRun>, secrets: seq<Text>): seq<V.RunResult> {
    Apply((r: BoundedRun) => PersistedRun(r, secrets), runs)
  }

  /** A redacted run still passes the schema of a run. */
  lemma PersistedRunOk(r: BoundedRun, secrets: seq<Text>)
    requires RunOk(r.run)
    ensures RunOk(PersistedRun(r, secrets))
  {
    Redaction.RedactionKeepsNonEmpty(r.run.id, secrets);
    Redaction.RedactionKeepsNonEmpty(r.run.command, secrets);
    Redaction.RedactionKeepsNonEmpty(r.run.environmentHash, secrets);
  }

  /** The texts of a run. */
  function TextsOf(run: V.RunResult): seq<Text> { [run.id, run.command, run.environmentHash, run.stdout, run.stderr] }

  /** No text of a persisted run shows a registered secret between its redaction markers. */
  lemma PersistedRunHidesSecrets(r: BoundedRun, secrets: seq<Text>, text: Text, piece: Text, secret: Text)
    requires text in TextsOf(PersistedRun(r, secrets)) && piece in Redaction.Split(text, [])
    requires secret in secrets && secret != []
    ensures !Redaction.Contains(piece, secret)
  {
    var run := PersistedRun(r, secrets);
    var original := if text == run.id then r.run.id
                    else if text == run.command then r.run.command
                    else if text == run.environmentHash then r.run.environmentHash
                    else if text == run.stdout then r.stdout else r.stderr;
    Redaction.NoSecretBetweenMarkers(original, secrets, piece, secret);
  }

  /** The text is the original with nothing but registered secrets and markers replaced, and shows no registered secret. */
  ghost predicate IsRedaction(text: Text, original: Text, secrets: seq<Text>) {
    Redaction.Hides(text, secrets) && Redaction.Shows(text, original, secrets)
  }

  /** The persisted run is the run it is made from, with each text redacted. */
  ghost predicate Persists(p: V.RunResult, r: BoundedRun, secrets: seq<Text>) {
    && p.exitCode == r.run.exitCode
    && IsRedaction(p.id, r.run.id, secrets)
    && IsRedaction(p.command, r.run.command, secrets)
    && IsRedaction(p.environmentHash, r.run.environmentHash, secrets)
    && IsRedaction(p.stdout, r.stdout, secrets)
    && IsRedaction(p.stderr, r.stderr, secrets)
  }

  lemma PersistedRunPersists(r: BoundedRun, secrets: seq<Text>)
    ensures Persists(PersistedRun(r, secrets), r, secrets)
  {
    RedactedIsRedaction(r.run.id, secrets);
    RedactedIsRedaction(r.run.command, secrets);
    RedactedIsRedaction(r.run.environmentHash, secrets);
    RedactedIsRedaction(r.stdout, secrets);
    RedactedIsRedaction(r.stderr, secrets);
  }

  lemma RedactedIsRedaction(original: Text, secrets: seq<Text>)
    ensures IsRedaction(Redaction.RedactString(original, secrets), original, secrets)
  {
    Redaction.RedactedHidesAndShows(original, secrets);
  }

  // ---------------------------------------------------------------------------------------------
  // Evidence and hypothesis
  // ---------------------------------------------------------------------------------------------

  datatype Classification = Observed | Reported | Unknown

  datatype EvidenceItem = EvidenceItem(id: string, classification: Classification, content: Text, source: Text)

  datatype HypothesisStatus = Proposed | Supported | Contradicted | Inconclusive

  datatype Hypothesis = Hypothesis(evidenceIds: seq<string>, status: HypothesisStatus, history: seq<(nat, HypothesisStatus)>)

  /** The rules of the hypothesis schema. */
  predicate HypothesisOk(h: Hypothesis) {
    && h.evidenceIds != [] && h.history != []
    && h.history[|h.history| - 1].1 == h.status
    && forall i :: 0 < i < |h.history| ==> h.history[i - 1].0 < h.history[i].0
  }

  const REQUEST := "evidence-repository-request"
  const PROVENANCE := "evidence-source-provenance"
  const RUNS := "evidence-clean-runs"
  const ACQUIRED := Ascii("Acquired immutable commit ")
  const AS := Ascii(" as ")
  const UNDER_POLICY := Ascii(" regular files under source policy ")
  const POLICY := Ascii("source-archive-v1.")
  const EXECUTED := Ascii("Executed one control and ")
  const IN_RUNTIME := Ascii(" clean candidates in ")
  const DENIED := Ascii(" with deny-all network policy.")
  const VALIDATOR := Ascii("ReproForge source validator")
  const RUNNER := Ascii("ReproForge isolated runner")
  const NO_TITLE := Ascii("No issue title was supplied with the repository request.")

  function TitleOf(input: Input): Text {
    if input.issue.Some? && input.issue.value.title.Some? then input.issue.value.title.value else NO_TITLE
  }

  function RequestSource(input: Input): Text {
    if input.issue.None? then Ascii("repository request")
    else input.origin.fullName + Ascii(" issue #") + Numeral(input.issue.value.number)
  }

  function ProvenanceSentence(o: Origin): Text {
    ACQUIRED + o.commitSha + AS + Numeral(o.fileCount) + UNDER_POLICY + POLICY
  }

  function RunsSentence(candidates: nat, o: Origin): Text {
    EXECUTED + Numeral(candidates) + IN_RUNTIME + o.runtime + DENIED
  }

  /** The texts of the evidence that are written as they are. */
  function FixedWording(input: Input): (wording: seq<Text>)
    ensures |wording| == 5
  {
    [RequestSource(input), ProvenanceSentence(input.origin), VALIDATOR, RunsSentence(|input.candidates|, input.origin), RUNNER]
  }

  /** proofEvidence: only the title of an issue is redacted. */
  function ProofEvidence(input: Input): seq<EvidenceItem> {
    EvidenceFrom(if input.issue.Some? then Reported else Unknown, Redaction.RedactString(TitleOf(input), input.secrets),
                 FixedWording(input))
  }

  function EvidenceFrom(classification: Classification, title: Text, wording: seq<Text>): (evidence: seq<EvidenceItem>)
    requires |wording| == 5
    ensures |evidence| == 3
  {
    [EvidenceItem(REQUEST, classification, title, wording[0]),
     EvidenceItem(PROVENANCE, Observed, wording[1], wording[2]),
     EvidenceItem(RUNS, Observed, wording[3], wording[4])]
  }

  ghost predicate EvidenceHides(evidence: seq<EvidenceItem>, secrets: seq<Text>) {
    forall i :: 0 <= i < |evidence| ==> Redaction.Hides(evidence[i].content, secrets) && Redaction.Hides(evidence[i].source, secrets)
  }

  /** The first item hides secrets and shows the rest of the title; all of the evidence hides them exactly when the fixed wording does. */
  lemma EvidenceHidesExactly(input: Input)
    ensures var evidence := ProofEvidence(input);
            && Redaction.Hides(evidence[0].content, input.secrets)
            && Redaction.Shows(evidence[0].content, TitleOf(input), input.secrets)
            && (EvidenceHides(evidence, input.secrets) <==>
                  forall i :: 0 <= i < 5 ==> Redaction.Hides(FixedWording(input)[i], input.secrets))
  {
    Redaction.RedactedHidesAndShows(TitleOf(input), input.secrets);
    RestHides(if input.issue.Some? then Reported else Unknown, Redaction.RedactString(TitleOf(input), input.secrets),
              FixedWording(input), input.secrets);
  }

  lemma RestHides(classification: Classification, title: Text, wording: seq<Text>, secrets: seq<Text>)
    requires |wording| == 5 && Redaction.Hides(title, secrets)
    ensures EvidenceHides(EvidenceFrom(classification, title, wording), secrets)
            <==> forall i :: 0 <= i < 5 ==> Redaction.Hides(wording[i], secrets)
  {
    var evidence := EvidenceFrom(classification, title, wording);
    if EvidenceHides(evidence, secrets) {
      forall i | 0 <= i < 5
        ensures Redaction.Hides(wording[i], secrets)
      {
        assert Redaction.Hides(evidence[(i + 1) / 2].content, secrets) && Redaction.Hides(evidence[(i + 1) / 2].source, secrets);
      }
    }
  }

  lemma {:induction false} NumeralHasNoBracket(n: nat)
    ensures Redaction.MARKER[0] !in Numeral(n)
  {
    if n >= 10 {
      NumeralHasNoBracket(n / 10);
    }
  }

  lemma AsciiHasNoBracket(words: string)
    requires forall i :: 0 <= i < |words| ==> words[i] < 0x80 as char && words[i] != '['
    ensures Redaction.MARKER[0] !in Ascii(words)
  {
  }

  lemma ProvenanceHasNoBracket(o: Origin)
    requires OriginOk(o)
    ensures Redaction.MARKER[0] !in ProvenanceSentence(o)
  {
    NumeralHasNoBracket(o.fileCount);
    AsciiHasNoBracket("Acquired immutable commit ");
    AsciiHasNoBracket(" as ");
    AsciiHasNoBracket(" regular files under source policy ");
    AsciiHasNoBracket("source-archive-v1.");
  }

  lemma RunsHaveNoBracket(o: Origin, candidates: nat)
    requires OriginOk(o)
    ensures Redaction.MARKER[0] !in RunsSentence(candidates, o)
  {
    NumeralHasNoBracket(candidates);
    AsciiHasNoBracket("Executed one control and ");
    AsciiHasNoBracket(" clean candidates in ");
    AsciiHasNoBracket(" with deny-all network policy.");
    AsciiHasNoBracket("node22");
    AsciiHasNoBracket("node24");
  }

  /** The two sentences show every registered secret that occurs in them. */
  lemma SentencesHideExactly(reader: F.Reader, input: Input)
    requires Accepted(reader, input)
    ensures forall i :: i == 1 || i == 2 ==>
              (Redaction.Hides(ProofEvidence(input)[i].content, input.secrets) <==>
               forall secret :: secret in input.secrets && secret != [] ==>
                 !Redaction.Contains(ProofEvidence(input)[i].content, secret))
  {
    ProvenanceHasNoBracket(input.origin);
    RunsHaveNoBracket(input.origin, |input.candidates|);
    Redaction.HidesWithoutBracket(ProvenanceSentence(input.origin), input.secrets);
    Redaction.HidesWithoutBracket(RunsSentence(|input.candidates|, input.origin), input.secrets);
  }

  lemma ShowsCommit(input: Input)
    ensures Redaction.Contains(ProofEvidence(input)[1].content, Ascii("commit"))
  {
    var sentence, secret := ProofEvidence(input)[1].content, Ascii("commit");
    assert |secret| == 6 && secret == sentence[19..25];
    assert Redaction.At(secret, sentence[19..]);
  }

  /** An accepted input whose evidence shows a registered secret: any with the secret `commit`. */
  lemma WordingShowsSecret(reader: F.Reader, input: Input)
    requires Accepted(reader, input) && Ascii("commit") in input.secrets
    ensures !EvidenceHides(ProofEvidence(input), input.secrets)
  {
    SentencesHideExactly(reader, input);
    ShowsCommit(input);
  }

  function ProofHypothesis(status: V.Status): Hypothesis {
    var verdict := match status
      case VERIFIED => Supported
      case NOT_REPRODUCED => Contradicted
      case UNSTABLE | BLOCKED => Inconclusive;
    Hypothesis([REQUEST, PROVENANCE, RUNS], verdict, [(0, Proposed), (1, verdict)])
  }
}
