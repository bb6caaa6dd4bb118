/**
 Export and restore of one tenant through relational rows.

 Export joins, orders and maps the rows of a tenant to a manifest; restore inserts a row for each part of a manifest.
 The main results: a restored tenant exports to the manifest it was restored from exactly when that manifest has the
 form export gives it, every exported manifest has that form, and restoring it into a store without that tenant
 cannot fail on any constraint of the tables.
 */
module TenantRestore {
  import opened Wrappers
  import opened Json
  import opened Lifecycle
  import opened Lists
  import opened TenantManifest

  // ---------------------------------------------------------------------------------------------
  // Rows
  // ---------------------------------------------------------------------------------------------

  datatype TenantRow = TenantRow(active: bool, createdAt: int, updatedAt: int, retentionUntil: Option<int>)

  /** The JSON column with the parts of a snapshot that have no column of their own. */
  datatype Domain = Domain(
    caseRecord: CaseRecord,
    repositorySource: Option<Meaning>,
    result: Option<Meaning>,
    sampleId: Option<Text>)

  datatype CaseRow = CaseRow(
    tenantId: Text,
    id: Text,
    sourceKind: Text,
    sourceDescriptor: Meaning,
    state: CaseState,
    domain: Domain,
    version: nat,
    createdAt: int,
    updatedAt: int,
    retentionUntil: int,
    deleted: bool)

  datatype JobRow = JobRow(
    tenantId: Text,
    id: Text,
    caseId: Text,
    state: JobState,
    progressPhase: Text,
    attempt: nat,
    maxAttempts: nat,
    nextAttemptAt: int,
    requestedAt: Option<int>,
    cancelledAt: Option<int>,
    failureCode: Option<Text>,
    failureMessage: Option<Text>,
    failureRetryable: Option<bool>,
    version: nat,
    createdAt: int,
    updatedAt: int,
    retentionUntil: int)

  datatype KeyRow = KeyRow(
    tenantId: Text,
    callerId: Text,
    idempotencyKey: Text,
    commandHash: Text,
    caseId: Text,
    jobId: Text,
    createdAt: int,
    expiresAt: int)

  datatype RetentionClass = SourceClass | RunClass | BundleClass | BackupClass

  /** The columns of a descriptor, and the columns of the artifact store. */
  datatype ArtifactRow = ArtifactRow(
    described: Artifact,
    retentionClass: RetentionClass,
    available: bool,
    etag: Text,
    verifiedAt: int)

  datatype SessionState = RUNNING | RESTORED | VERIFIED_RESTORE

  datatype Session = Session(
    backupSha256: Text,
    requestedBy: Text,
    state: SessionState,
    caseCount: nat,
    evidenceCount: nat,
    artifactCount: nat,
    byteCount: nat,
    startedAt: int,
    completedAt: Option<int>,
    verifiedAt: Option<int>)

  /** A row of `run_evidence` has one column for each field of the evidence. */
  datatype Tables = Tables(
    tenants: map<Text, TenantRow>,
    sessions: map<Text, Session>,
    cases: seq<CaseRow>,
    jobs: seq<JobRow>,
    keys: seq<KeyRow>,
    evidence: seq<Evidence>,
    artifacts: seq<ArtifactRow>)

  // ---------------------------------------------------------------------------------------------
  // Rows to parts
  // ---------------------------------------------------------------------------------------------

  datatype Joined = Joined(key: KeyRow, caseRow: CaseRow, job: JobRow)

  /** The failure columns are null together or set together. */
  predicate FailureWhole(job: JobRow) { job.failureCode.Some? == job.failureMessage.Some? == job.failureRetryable.Some? }

  function FailureOf(job: JobRow): Option<JobFailure> {
    if job.failureCode.Some? && job.failureMessage.Some? && job.failureRetryable.Some? then
      Some(JobFailure(job.failureCode.value, job.failureMessage.value, job.failureRetryable.value))
    else None
  }

  /** mapReproduction; `None` when the versions of case and job differ or a failure is half null. */
  function MapReproduction(row: Joined): Option<Reproduction> {
    var key, caseRow, job, domain := row.key, row.caseRow, row.job, row.caseRow.domain;
    if caseRow.version != job.version || !FailureWhole(job) then None
    else
      var snapshot := Snapshot(
        domain.caseRecord,
        Job(job.attempt, key.caseId, job.createdAt, FailureOf(job), job.id, job.progressPhase, job.state, job.updatedAt),
        domain.repositorySource, domain.result, domain.sampleId);
      var record := Record(
        key.callerId, caseRow.id, key.commandHash, caseRow.createdAt, key.idempotencyKey, job.id, None, None,
        snapshot, key.tenantId, caseRow.updatedAt, caseRow.version);
      Some(Reproduction(
        job.cancelledAt, job.requestedAt, caseRow.retentionUntil, key.createdAt, key.expiresAt, job.maxAttempts,
        job.nextAttemptAt, job.retentionUntil, record, caseRow.sourceDescriptor, caseRow.sourceKind))
  }

  // ---------------------------------------------------------------------------------------------
  // Parts to rows: the parameters of the INSERT statements
  // ---------------------------------------------------------------------------------------------

  function ToCase(r: Reproduction): CaseRow {
    var s := r.record.snapshot;
    CaseRow(
      r.record.tenantId, r.record.caseId, r.sourceKind, r.sourceDescriptor, s.caseRecord.state,
      Domain(s.caseRecord, s.repositorySource, s.result, s.sampleId),
      r.record.version, r.record.createdAt, r.record.updatedAt, r.caseRetentionUntil, false)
  }

  function ToJob(r: Reproduction): JobRow {
    var job := r.record.snapshot.job;
    JobRow(
      r.record.tenantId, r.record.jobId, r.record.caseId, job.state, job.progressPhase, job.attempt,
      r.jobMaxAttempts, r.jobNextAttemptAt, r.requestedAt, r.cancelledAt,
      if job.failure.Some? then Some(job.failure.value.code) else None,
      if job.failure.Some? then Some(job.failure.value.message) else None,
      if job.failure.Some? then Some(job.failure.value.retryable) else None,
      r.record.version, job.createdAt, job.updatedAt, r.jobRetentionUntil)
  }

  function ToKey(r: Reproduction): KeyRow {
    KeyRow(
      r.record.tenantId, r.record.callerId, r.record.idempotencyKey, r.record.commandHash,
      r.record.caseId, r.record.jobId, r.idempotencyCreatedAt, r.idempotencyExpiresAt)
  }

  function RetentionClassOf(kind: ArtifactKind): RetentionClass {
    match kind
    case BackupManifest => BackupClass
    case Bundle => BundleClass
    case Source => SourceClass
    case RunLog | RunOutput => RunClass
  }

  function Max(a: int, b: int): int { if a > b then a else b }

  function ToArtifact(a: Artifact, etag: Text, restoredAt: int): ArtifactRow {
    ArtifactRow(a, RetentionClassOf(a.kind), true, etag, Max(restoredAt, a.createdAt))
  }

  /** What a record becomes on its way through the tables: two fields have no column. */
  function Stripped(r: Reproduction): Reproduction {
    r.(record := r.record.(repositoryRequest := None, requestedBudget := None))
  }

  /** Reading back the rows of a reproduction loses the two fields and nothing else. */
  lemma MapUndoesInsert(r: Reproduction)
    requires RecordOk(r.record)
    ensures MapReproduction(Joined(ToKey(r), ToCase(r), ToJob(r))) == Some(Stripped(r))
  {
  }

  /** Each column is read into the field of its name; the case, the job and the key keep their own times. */
  lemma ColumnsAreFields(row: Joined)
    ensures MapReproduction(row).Some? <==> row.caseRow.version == row.job.version && FailureWhole(row.job)
    ensures MapReproduction(row).Some? ==>
              var r, key, caseRow, job := MapReproduction(row).value, row.key, row.caseRow, row.job;
              var record, snapshot := r.record, r.record.snapshot;
              && (r.cancelledAt, r.requestedAt) == (job.cancelledAt, job.requestedAt)
              && (r.caseRetentionUntil, r.jobRetentionUntil) == (caseRow.retentionUntil, job.retentionUntil)
              && (r.idempotencyCreatedAt, r.idempotencyExpiresAt) == (key.createdAt, key.expiresAt)
              && (r.jobMaxAttempts, r.jobNextAttemptAt) == (job.maxAttempts, job.nextAttemptAt)
              && (r.sourceDescriptor, r.sourceKind) == (caseRow.sourceDescriptor, caseRow.sourceKind)
              && (record.callerId, record.idempotencyKey, record.commandHash) == (key.callerId, key.idempotencyKey, key.commandHash)
              && (record.tenantId, record.caseId, record.jobId) == (key.tenantId, caseRow.id, job.id)
              && (record.createdAt, record.updatedAt, record.version) == (caseRow.createdAt, caseRow.updatedAt, caseRow.version)
              && (snapshot.job.id, snapshot.job.caseId, snapshot.job.state) == (job.id, key.caseId, job.state)
              && (snapshot.job.attempt, snapshot.job.progressPhase) == (job.attempt, job.progressPhase)
              && (snapshot.job.createdAt, snapshot.job.updatedAt) == (job.createdAt, job.updatedAt)
              && (snapshot.caseRecord, snapshot.result) == (caseRow.domain.caseRecord, caseRow.domain.result)
              && (snapshot.repositorySource, snapshot.sampleId) == (caseRow.domain.repositorySource, caseRow.domain.sampleId)
              && (snapshot.job.failure.Some? <==> job.failureCode.Some?)
              && (snapshot.job.failure.Some? ==>
                    var f := snapshot.job.failure.value;
                    (Some(f.code), Some(f.message), Some(f.retryable)) == (job.failureCode, job.failureMessage, job.failureRetryable))
  {
  }

  /** Rows that are read give back, when inserted, the rows they were read from. */
  lemma InsertUndoesMap(row: Joined)
    requires MapReproduction(row).Some?
    requires row.key.tenantId == row.caseRow.tenantId == row.job.tenantId
    requires row.key.caseId == row.caseRow.id == row.job.caseId && row.key.jobId == row.job.id
    ensures var r := MapReproduction(row).value;
            && ToKey(r) == row.key && ToJob(r) == row.job
            && ToCase(r) == row.caseRow.(state := row.caseRow.domain.caseRecord.state, deleted := false)
  {
  }

  // ---------------------------------------------------------------------------------------------
  // The order of the lists in a manifest
  // ---------------------------------------------------------------------------------------------

  /** The collation of the database: a strict total order on texts. */
  type Collation = (Text, Text) -> bool

  predicate Fewer(a: int, b: int) { a < b }

  function CaseOf(j: Joined): Text { j.caseRow.id }
  function JobOf(j: Joined): Text { j.job.id }
  function CallerOf(j: Joined): Text { j.key.callerId }
  function KeyOf(j: Joined): Text { j.key.idempotencyKey }
  predicate NoJoined(a: Joined, b: Joined) { false }

  /** ORDER BY c.id, j.id, i.caller_id, i.idempotency_key. */
  function JoinedOrder(collation: Collation): (Joined, Joined) -> bool {
    Lex(CaseOf, collation, Lex(JobOf, collation, Lex(CallerOf, collation, Lex(KeyOf, collation, NoJoined))))
  }

  function RowsOf(r: Reproduction): Joined { Joined(ToKey(r), ToCase(r), ToJob(r)) }

  /** The same order on the reproductions of a manifest. */
  function ReproductionOrder(collation: Collation): (Reproduction, Reproduction) -> bool {
    var order := JoinedOrder(collation);
    (a: Reproduction, b: Reproduction) => order(RowsOf(a), RowsOf(b))
  }

  function EvidenceJob(e: Evidence): Text { e.jobId }
  function EvidenceAttempt(e: Evidence): int { e.attempt }
  function EvidenceSequence(e: Evidence): int { e.sequence }
  predicate NoEvidence(a: Evidence, b: Evidence) { false }

  /** ORDER BY job_id, attempt, sequence. */
  function EvidenceOrder(collation: Collation): (Evidence, Evidence) -> bool {
    Lex(EvidenceJob, collation, Lex(EvidenceAttempt, Fewer, Lex(EvidenceSequence, Fewer, NoEvidence)))
  }

  function ArtifactCase(a: Artifact): Text { a.caseId }
  function ArtifactKindText(a: Artifact): Text { KindText(a.kind) }
  function ArtifactIdOf(a: Artifact): Text { a.artifactId }
  predicate NoArtifact(a: Artifact, b: Artifact) { false }

  /** ORDER BY case_id, kind, id. */
  function ArtifactOrder(collation: Collation): (Artifact, Artifact) -> bool {
    Lex(ArtifactCase, collation, Lex(ArtifactKindText, collation, Lex(ArtifactIdOf, collation, NoArtifact)))
  }

  function Described(row: ArtifactRow): Artifact { row.described }

  function ArtifactRowOrder(collation: Collation): (ArtifactRow, ArtifactRow) -> bool {
    var order := ArtifactOrder(collation);
    (a: ArtifactRow, b: ArtifactRow) => order(a.described, b.described)
  }

  lemma OrdersAreStrict(collation: Collation)
    requires Total(collation)
    ensures StrictOrder(JoinedOrder(collation)) && StrictOrder(EvidenceOrder(collation))
    ensures StrictOrder(ArtifactOrder(collation))
  {
    LexIsStrict(KeyOf, collation, NoJoined);
    LexIsStrict(CallerOf, collation, Lex(KeyOf, collation, NoJoined));
    LexIsStrict(JobOf, collation, Lex(CallerOf, collation, Lex(KeyOf, collation, NoJoined)));
    LexIsStrict(CaseOf, collation, Lex(JobOf, collation, Lex(CallerOf, collation, Lex(KeyOf, collation, NoJoined))));
    LexIsStrict(EvidenceSequence, Fewer, NoEvidence);
    LexIsStrict(EvidenceAttempt, Fewer, Lex(EvidenceSequence, Fewer, NoEvidence));
    LexIsStrict(EvidenceJob, collation, Lex(EvidenceAttempt, Fewer, Lex(EvidenceSequence, Fewer, NoEvidence)));
    LexIsStrict(ArtifactIdOf, collation, NoArtifact);
    LexIsStrict(ArtifactKindText, collation, Lex(ArtifactIdOf, collation, NoArtifact));
    LexIsStrict(ArtifactCase, collation, Lex(ArtifactKindText, collation, Lex(ArtifactIdOf, collation, NoArtifact)));
  }

  lemma DerivedOrdersAreStrict(collation: Collation)
    requires Total(collation)
    ensures StrictOrder(ReproductionOrder(collation)) && StrictOrder(ArtifactRowOrder(collation))
  {
    OrdersAreStrict(collation);
    var joined, order := JoinedOrder(collation), ReproductionOrder(collation);
    forall a: Reproduction, b: Reproduction, c: Reproduction
      ensures !order(a, a) && (order(a, b) && order(b, c) ==> order(a, c))
    {
      assert !joined(RowsOf(a), RowsOf(a));
      assert joined(RowsOf(a), RowsOf(b)) && joined(RowsOf(b), RowsOf(c)) ==> joined(RowsOf(a), RowsOf(c));
    }
    var described, rows := ArtifactOrder(collation), ArtifactRowOrder(collation);
    forall a: ArtifactRow, b: ArtifactRow, c: ArtifactRow
      ensures !rows(a, a) && (rows(a, b) && rows(b, c) ==> rows(a, c))
    {
      var x, y, z := a.described, b.described, c.described;
      assert !described(x, x) && (described(x, y) && described(y, z) ==> described(x, z));
    }
  }

  // ---------------------------------------------------------------------------------------------
  // Export
  // ---------------------------------------------------------------------------------------------

  datatype ExportError = NotFound | NotQuiescent | CorruptState

  function FindCase(cases: seq<CaseRow>, tenantId: Text, id: Text): (r: Option<CaseRow>)
    ensures r.Some? ==> r.value in cases && r.value.tenantId == tenantId && r.value.id == id
  {
    if cases == [] then None
    else if cases[0].tenantId == tenantId && cases[0].id == id then Some(cases[0])
    else FindCase(cases[1..], tenantId, id)
  }

  function FindJobRow(jobs: seq<JobRow>, tenantId: Text, caseId: Text, id: Text): (r: Option<JobRow>)
    ensures r.Some? ==>
              r.value in jobs && r.value.tenantId == tenantId && r.value.caseId == caseId && r.value.id == id
  {
    if jobs == [] then None
    else if jobs[0].tenantId == tenantId && jobs[0].caseId == caseId && jobs[0].id == id then Some(jobs[0])
    else FindJobRow(jobs[1..], tenantId, caseId, id)
  }

  /** The inner join; the primary keys of cases and jobs leave at most one match. */
  function JoinRows(t: Tables, keys: seq<KeyRow>): seq<Joined> {
    if keys == [] then []
    else
      var key := keys[0];
      var caseRow := FindCase(t.cases, key.tenantId, key.caseId);
      var job := FindJobRow(t.jobs, key.tenantId, key.caseId, key.jobId);
      (if caseRow.Some? && job.Some? then [Joined(key, caseRow.value, job.value)] else []) + JoinRows(t, keys[1..])
  }

  function MapAll(rows: seq<Joined>): (r: Option<seq<Reproduction>>)
    ensures r.Some? <==> forall i :: 0 <= i < |rows| ==> MapReproduction(rows[i]).Some?
    ensures r.Some? ==> |r.value| == |rows|
    ensures r.Some? ==> forall i :: 0 <= i < |rows| ==> Some(r.value[i]) == MapReproduction(rows[i])
  {
    if rows == [] then Some([])
    else
      var first, rest := MapReproduction(rows[0]), MapAll(rows[1..]);
      if first.Some? && rest.Some? then Some([first.value] + rest.value) else None
  }

  function LiveCase(tenantId: Text): CaseRow -> bool { (c: CaseRow) => c.tenantId == tenantId && !c.deleted }
  function JobIn(tenantId: Text): JobRow -> bool { (j: JobRow) => j.tenantId == tenantId }
  function KeyIn(tenantId: Text): KeyRow -> bool { (k: KeyRow) => k.tenantId == tenantId }
  function EvidenceIn(tenantId: Text): Evidence -> bool { (e: Evidence) => e.tenantId == tenantId }
  function ArtifactIn(tenantId: Text): ArtifactRow -> bool { (a: ArtifactRow) => a.described.tenantId == tenantId }
  function AvailableIn(tenantId: Text): ArtifactRow -> bool {
    (a: ArtifactRow) => a.described.tenantId == tenantId && a.available
  }

  /** As many live cases as jobs and keys, every artifact available, and nothing still running. */
  predicate Quiescent(t: Tables, tenantId: Text) {
    var cases, jobs := Where(LiveCase(tenantId), t.cases), Where(JobIn(tenantId), t.jobs);
    && |cases| == |jobs| == |Where(KeyIn(tenantId), t.keys)|
    && |Where(ArtifactIn(tenantId), t.artifacts)| == |Where(AvailableIn(tenantId), t.artifacts)|
    && (forall i :: 0 <= i < |cases| ==> TerminalCase(cases[i].state))
    && (forall i :: 0 <= i < |jobs| ==> TerminalJob(jobs[i].state))
  }

  /** The rows of the artifacts in a manifest, in its order. */
  function ArtifactRows(collation: Collation, t: Tables, tenantId: Text): seq<ArtifactRow> {
    Sort(ArtifactRowOrder(collation), Where(AvailableIn(tenantId), t.artifacts))
  }

  /** The manifest that the rows of a tenant form, before it is checked. */
  function Collected(collation: Collation, t: Tables, tenantId: Text, createdAt: int): Option<Manifest>
    requires tenantId in t.tenants
  {
    var tenant := t.tenants[tenantId];
    var joined := Sort(JoinedOrder(collation), JoinRows(t, Where(KeyIn(tenantId), t.keys)));
    var reproductions := MapAll(joined);
    if reproductions.None? then None
    else
      Some(Manifest(
        Apply(Described, ArtifactRows(collation, t, tenantId)),
        createdAt,
        Sort(EvidenceOrder(collation), Where(EvidenceIn(tenantId), t.evidence)),
        reproductions.value,
        Tenant(tenant.createdAt, tenant.retentionUntil, tenantId, tenant.updatedAt)))
  }

  /** The manifest part of buildArchive. */
  ghost function Export(collation: Collation, t: Tables, tenantId: Text, createdAt: int): Result<Manifest, ExportError> {
    if tenantId !in t.tenants then Err(NotFound)
    else if !t.tenants[tenantId].active || !Quiescent(t, tenantId) then Err(NotQuiescent)
    else
      var m := Collected(collation, t, tenantId, createdAt);
      if m.Some? && Consistent(m.value) then Ok(m.value) else Err(CorruptState)
  }

  // ---------------------------------------------------------------------------------------------
  // The constraints of the tables
  // ---------------------------------------------------------------------------------------------

  predicate Alphanumeric(c: CodeUnit) { Digit(c) || 0x41 <= c <= 0x5A || 0x61 <= c <= 0x7A }

  /** `.`, `_`, `:` and `-` besides letters and digits. */
  predicate IdUnit(c: CodeUnit) { Alphanumeric(c) || c in [0x2E, 0x5F, 0x3A, 0x2D] }

  /** The format of an identifier. */
  predicate IdOk(id: Text) {
    1 <= |id| <= 128 && Alphanumeric(id[0]) && forall i :: 0 <= i < |id| ==> IdUnit(id[i])
  }

  /** An upper-case letter, then upper-case letters, digits and underscores. */
  predicate CodeOk(code: Text) {
    && 1 <= |code| <= 96 && 0x41 <= code[0] <= 0x5A
    && forall i :: 0 <= i < |code| ==> 0x41 <= code[i] <= 0x5A || Digit(code[i]) || code[i] == 0x5F
  }

  const SOURCE_KINDS: seq<Text> := [Ascii("trusted-sample"), Ascii("github")]

  const PHASES: seq<Text> := [
    Ascii("DRAFT"), Ascii("INGESTING"), Ascii("INSPECTING"), Ascii("HYPOTHESIZING"), Ascii("EXPERIMENTING"),
    Ascii("VERIFYING"), Ascii("MINIMIZING"), Ascii("PACKAGING"), Ascii("VERIFIED"), Ascii("UNSTABLE"),
    Ascii("NOT_REPRODUCED"), Ascii("BLOCKED"), Ascii("CANCELLED")]

  const EVIDENCE_KINDS: seq<Text> := [
    Ascii("positive-control"), Ascii("negative-control"), Ascii("environment"), Ascii("observation"), Ascii("output")]

  predicate TenantRowOk(id: Text, row: TenantRow) {
    IdOk(id) && row.createdAt <= row.updatedAt && (row.retentionUntil.Some? ==> row.createdAt < row.retentionUntil.value)
  }

  predicate CaseRowOk(row: CaseRow) {
    && row.version >= 1 && row.createdAt <= row.updatedAt && row.createdAt < row.retentionUntil
    && IdOk(row.id) && row.sourceKind in SOURCE_KINDS && row.sourceDescriptor.Fields?
  }

  predicate JobRowOk(row: JobRow) {
    && row.maxAttempts > 0 && row.attempt <= row.maxAttempts
    && (row.cancelledAt.Some? ==> row.createdAt <= row.cancelledAt.value)
    && (row.requestedAt.Some? ==> row.createdAt <= row.requestedAt.value)
    && (row.state == Failed ==> FailureOf(row).Some?)
    && (row.state != Failed ==> row.failureCode.None? && row.failureMessage.None? && row.failureRetryable.None?)
    && row.version >= 1 && row.createdAt <= row.updatedAt && row.createdAt < row.retentionUntil
    && IdOk(row.id) && row.progressPhase in PHASES && FailureTextOk(row) && CancellationOk(row)
  }

  predicate FailureTextOk(row: JobRow) {
    && (row.failureCode.Some? ==> CodeOk(row.failureCode.value))
    && (row.failureMessage.Some? ==> 1 <= |row.failureMessage.value| <= 512)
  }

  /** Only a cancelled job has a time of cancellation; only it and a running job may have a request. */
  predicate CancellationOk(row: JobRow) {
    if row.state == Cancelled then row.requestedAt.Some? == row.cancelledAt.Some?
    else row.cancelledAt.None? && (row.requestedAt.Some? ==> row.state == Running)
  }

  /** What a trigger asks of a job when it is inserted. */
  predicate Stamped(row: JobRow) { row.state == Cancelled ==> row.requestedAt.Some? && row.cancelledAt.Some? }

  predicate KeyRowOk(row: KeyRow) {
    && row.createdAt < row.expiresAt
    && IdOk(row.callerId) && 1 <= |row.idempotencyKey| <= 128 && HexText(row.commandHash)
  }

  predicate EvidenceRowOk(row: Evidence) {
    && row.attempt >= 1 && row.sequence >= 1 && row.createdAt < row.retentionUntil
    && row.kind in EVIDENCE_KINDS && row.environment.Fields? && row.evidence.Fields?
    && (row.commandHash.Some? ==> HexText(row.commandHash.value)) && (row.leaseOwner.Some? ==> IdOk(row.leaseOwner.value))
  }

  predicate EtagOk(etag: Text) { 1 <= |etag| <= 512 }

  predicate ArtifactRowOk(row: ArtifactRow) {
    var a := row.described;
    && a.objectKey == ContentKey(a.tenantId, a.caseId, a.kind, a.sha256)
    && a.createdAt < a.retentionUntil
    && a.createdAt <= row.verifiedAt
    && IdOk(a.artifactId) && HexText(a.sha256) && EtagOk(row.etag)
  }

  predicate SessionOk(s: Session) {
    && HexText(s.backupSha256) && IdOk(s.requestedBy)
    && match s.state
       case RUNNING => s.completedAt.None? && s.verifiedAt.None?
       case RESTORED => s.completedAt.Some? && s.verifiedAt.None?
       case VERIFIED_RESTORE => s.completedAt.Some? && s.verifiedAt.Some? && s.completedAt.value <= s.verifiedAt.value
  }

  predicate CasesApart(a: CaseRow, b: CaseRow) { a.tenantId != b.tenantId || a.id != b.id }
  predicate JobsApart(a: JobRow, b: JobRow) { a.tenantId != b.tenantId || a.id != b.id }
  predicate KeysApart(a: KeyRow, b: KeyRow) {
    a.tenantId != b.tenantId || a.callerId != b.callerId || a.idempotencyKey != b.idempotencyKey
  }
  predicate EvidenceApart(a: Evidence, b: Evidence) { a.tenantId != b.tenantId || EvidenceId(a) != EvidenceId(b) }
  /** The content identity is unique as well, since it determines the object key. */
  predicate ArtifactsApart(a: ArtifactRow, b: ArtifactRow) {
    var x, y := a.described, b.described;
    (x.tenantId != y.tenantId || x.artifactId != y.artifactId) && x.objectKey != y.objectKey
  }

  predicate CaseExists(t: Tables, tenantId: Text, id: Text) {
    exists i :: 0 <= i < |t.cases| && t.cases[i].tenantId == tenantId && t.cases[i].id == id
  }

  predicate JobExists(t: Tables, tenantId: Text, caseId: Text, id: Text) {
    exists i :: 0 <= i < |t.jobs| && t.jobs[i].tenantId == tenantId && t.jobs[i].caseId == caseId && t.jobs[i].id == id
  }

  predicate CanInsertCase(t: Tables, row: CaseRow) {
    && CaseRowOk(row) && row.tenantId in t.tenants
    && forall i :: 0 <= i < |t.cases| ==> CasesApart(t.cases[i], row)
  }

  predicate CanInsertJob(t: Tables, row: JobRow) {
    && JobRowOk(row) && Stamped(row) && CaseExists(t, row.tenantId, row.caseId)
    && forall i :: 0 <= i < |t.jobs| ==> JobsApart(t.jobs[i], row)
  }

  predicate CanInsertKey(t: Tables, row: KeyRow) {
    && KeyRowOk(row) && JobExists(t, row.tenantId, row.caseId, row.jobId)
    && forall i :: 0 <= i < |t.keys| ==> KeysApart(t.keys[i], row)
  }

  /** A trigger lets evidence of a finished job in only while its tenant is being restored. */
  predicate Restoring(t: Tables, tenantId: Text) { tenantId in t.sessions && t.sessions[tenantId].state == RUNNING }

  predicate CanInsertEvidence(t: Tables, row: Evidence) {
    && EvidenceRowOk(row) && Restoring(t, row.tenantId) && JobExists(t, row.tenantId, row.caseId, row.jobId)
    && forall i :: 0 <= i < |t.evidence| ==> EvidenceApart(t.evidence[i], row)
  }

  predicate CanInsertArtifact(t: Tables, row: ArtifactRow) {
    && ArtifactRowOk(row) && CaseExists(t, row.described.tenantId, row.described.caseId)
    && forall i :: 0 <= i < |t.artifacts| ==> ArtifactsApart(t.artifacts[i], row)
  }

  /** Every constraint of the tables holds. */
  ghost predicate Valid(t: Tables) {
    && (forall id :: id in t.tenants ==> TenantRowOk(id, t.tenants[id]))
    && (forall id :: id in t.sessions ==> id in t.tenants && SessionOk(t.sessions[id]))
    && (forall i :: 0 <= i < |t.cases| ==> CaseRowOk(t.cases[i]) && t.cases[i].tenantId in t.tenants)
    && (forall i :: 0 <= i < |t.jobs| ==>
          JobRowOk(t.jobs[i]) && t.jobs[i].tenantId in t.tenants && CaseExists(t, t.jobs[i].tenantId, t.jobs[i].caseId))
    && (forall i :: 0 <= i < |t.keys| ==>
          KeyRowOk(t.keys[i]) && t.keys[i].tenantId in t.tenants
          && JobExists(t, t.keys[i].tenantId, t.keys[i].caseId, t.keys[i].jobId))
    && (forall i :: 0 <= i < |t.evidence| ==> EvidenceRowOk(t.evidence[i]) && t.evidence[i].tenantId in t.tenants)
    && (forall i :: 0 <= i < |t.artifacts| ==>
          ArtifactRowOk(t.artifacts[i]) && t.artifacts[i].described.tenantId in t.tenants)
    && Pairwise(CasesApart, t.cases) && Pairwise(JobsApart, t.jobs) && Pairwise(KeysApart, t.keys)
    && Pairwise(EvidenceApart, t.evidence) && Pairwise(ArtifactsApart, t.artifacts)
  }

  // ---------------------------------------------------------------------------------------------
  // The tables after a restore
  // ---------------------------------------------------------------------------------------------

  function ByteCount(artifacts: seq<Artifact>): nat {
    if artifacts == [] then 0 else artifacts[0].byteCount + ByteCount(artifacts[1..])
  }

  function WithTenant(t: Tables, m: Manifest, sha256: Text, requestedBy: Text, at: int): Tables {
    var id := m.tenant.tenantId;
    t.(tenants := t.tenants[id := TenantRow(true, m.tenant.createdAt, m.tenant.updatedAt, m.tenant.retentionUntil)],
       sessions := t.sessions[id := Session(sha256, requestedBy, RUNNING, |m.reproductions|, |m.evidence|, |m.artifacts|,
                                            ByteCount(m.artifacts), at, None, None)])
  }

  function WithReproductions(t: Tables, rs: seq<Reproduction>): Tables {
    t.(cases := t.cases + Apply(ToCase, rs), jobs := t.jobs + Apply(ToJob, rs), keys := t.keys + Apply(ToKey, rs))
  }

  function WithEvidence(t: Tables, es: seq<Evidence>): Tables { t.(evidence := t.evidence + es) }

  function ToArtifacts(artifacts: seq<Artifact>, etags: map<Text, Text>, at: int): (r: seq<ArtifactRow>)
    requires forall i :: 0 <= i < |artifacts| ==> artifacts[i].objectKey in etags
    ensures |r| == |artifacts|
    ensures forall i :: 0 <= i < |r| ==> r[i] == ToArtifact(artifacts[i], etags[artifacts[i].objectKey], at)
  {
    seq(|artifacts|, i requires 0 <= i < |artifacts| => ToArtifact(artifacts[i], etags[artifacts[i].objectKey], at))
  }

  predicate Uploaded(artifacts: seq<Artifact>, etags: map<Text, Text>) {
    forall i :: 0 <= i < |artifacts| ==> artifacts[i].objectKey in etags
  }

  function WithArtifacts(t: Tables, artifacts: seq<Artifact>, etags: map<Text, Text>, at: int): Tables
    requires Uploaded(artifacts, etags)
  {
    t.(artifacts := t.artifacts + ToArtifacts(artifacts, etags, at))
  }

  function Completed(t: Tables, id: Text, at: int): Tables
    requires id in t.sessions
  {
    t.(sessions := t.sessions[id := t.sessions[id].(state := RESTORED, completedAt := Some(at))])
  }

  /** The tables after restoring the manifest into `t`. */
  function Restored(t: Tables, m: Manifest, sha256: Text, requestedBy: Text, etags: map<Text, Text>, at: int): Tables
    requires Uploaded(m.artifacts, etags)
  {
    var rows := WithArtifacts(
      WithEvidence(WithReproductions(WithTenant(t, m, sha256, requestedBy, at), m.reproductions), m.evidence),
      m.artifacts, etags, at);
    Completed(rows, m.tenant.tenantId, at)
  }

  // ---------------------------------------------------------------------------------------------
  // Exporting a restored tenant
  // ---------------------------------------------------------------------------------------------

  /** The form export gives a manifest: its lists are ordered, and two fields are absent. */
  ghost predicate ExportForm(collation: Collation, m: Manifest) {
    && Sorted(ReproductionOrder(collation), m.reproductions)
    && Sorted(EvidenceOrder(collation), m.evidence)
    && Sorted(ArtifactOrder(collation), m.artifacts)
    && forall i :: 0 <= i < |m.reproductions| ==> Stripped(m.reproductions[i]) == m.reproductions[i]
  }

  predicate EvidenceAscends(collation: Collation, a: Evidence, b: Evidence) {
    || collation(a.jobId, b.jobId)
    || (a.jobId == b.jobId && (a.attempt < b.attempt || (a.attempt == b.attempt && a.sequence < b.sequence)))
  }

  predicate ArtifactAscends(collation: Collation, a: Artifact, b: Artifact) {
    || collation(a.caseId, b.caseId)
    || (a.caseId == b.caseId
        && (collation(KindText(a.kind), KindText(b.kind)) || (a.kind == b.kind && collation(a.artifactId, b.artifactId))))
  }

  lemma KindTextsDiffer(a: ArtifactKind, b: ArtifactKind)
    ensures KindText(a) == KindText(b) <==> a == b
  {
    assert |KindText(Source)| == 6 && |KindText(RunLog)| == 7 && |KindText(RunOutput)| == 10;
    assert |KindText(Bundle)| == 6 && |KindText(BackupManifest)| == 15;
    assert KindText(Source)[0] != KindText(Bundle)[0];
  }

  /**
   In an accepted manifest that form is: reproductions ascend by case, since no two are of one case; evidence by job,
   attempt and sequence; artifacts by case, kind and id; and no reproduction has a request or a requested budget.
   */
  lemma ExportFormExactly(collation: Collation, m: Manifest)
    requires Consistent(m)
    ensures ExportForm(collation, m)
       <==> && (forall i, j :: 0 <= i < j < |m.reproductions| ==>
                  collation(m.reproductions[i].record.caseId, m.reproductions[j].record.caseId))
            && (forall i, j :: 0 <= i < j < |m.evidence| ==> EvidenceAscends(collation, m.evidence[i], m.evidence[j]))
            && (forall i, j :: 0 <= i < j < |m.artifacts| ==> ArtifactAscends(collation, m.artifacts[i], m.artifacts[j]))
            && (forall r :: r in m.reproductions ==> r.record.repositoryRequest.None? && r.record.requestedBudget.None?)
  {
    var rs := m.reproductions;
    forall i, j | 0 <= i < j < |rs|
      ensures ReproductionOrder(collation)(rs[i], rs[j]) <==> collation(rs[i].record.caseId, rs[j].record.caseId)
    {
      assert Apart(rs[i], rs[j]);
      ByCaseFirst(collation, RowsOf(rs[i]), RowsOf(rs[j]));
    }
    forall a, b
      ensures EvidenceOrder(collation)(a, b) <==> EvidenceAscends(collation, a, b)
    {
      EvidenceOrderIs(collation, a, b);
    }
    forall a, b
      ensures ArtifactOrder(collation)(a, b) <==> ArtifactAscends(collation, a, b)
    {
      ArtifactOrderIs(collation, a, b);
    }
    assert forall i :: 0 <= i < |rs| ==> rs[i] in rs;
  }

  lemma ByCaseFirst(collation: Collation, a: Joined, b: Joined)
    requires CaseOf(a) != CaseOf(b)
    ensures JoinedOrder(collation)(a, b) <==> collation(CaseOf(a), CaseOf(b))
  {
  }

  lemma EvidenceOrderIs(collation: Collation, a: Evidence, b: Evidence)
    ensures EvidenceOrder(collation)(a, b) <==> EvidenceAscends(collation, a, b)
  {
    var bySequence := Lex(EvidenceSequence, Fewer, NoEvidence);
    LexMeans(EvidenceSequence, Fewer, NoEvidence, a, b);
    LexMeans(EvidenceAttempt, Fewer, bySequence, a, b);
    LexMeans(EvidenceJob, collation, Lex(EvidenceAttempt, Fewer, bySequence), a, b);
  }

  lemma ArtifactOrderIs(collation: Collation, a: Artifact, b: Artifact)
    ensures ArtifactOrder(collation)(a, b) <==> ArtifactAscends(collation, a, b)
  {
    KindTextsDiffer(a.kind, b.kind);
    var byId := Lex(ArtifactIdOf, collation, NoArtifact);
    LexMeans(ArtifactIdOf, collation, NoArtifact, a, b);
    LexMeans(ArtifactKindText, collation, byId, a, b);
    LexMeans(ArtifactCase, collation, Lex(ArtifactKindText, collation, byId), a, b);
  }

  /** No row of the tenant is left in any table: foreign keys lead to `tenants`. */
  ghost predicate NoRows(t: Tables, id: Text) {
    && (forall i :: 0 <= i < |t.cases| ==> t.cases[i].tenantId != id)
    && (forall i :: 0 <= i < |t.jobs| ==> t.jobs[i].tenantId != id)
    && (forall i :: 0 <= i < |t.keys| ==> t.keys[i].tenantId != id)
    && (forall i :: 0 <= i < |t.evidence| ==> t.evidence[i].tenantId != id)
    && (forall i :: 0 <= i < |t.artifacts| ==> t.artifacts[i].described.tenantId != id)
  }

  lemma AbsentHasNoRows(t: Tables, id: Text)
    requires Valid(t) && id !in t.tenants
    ensures NoRows(t, id)
  {
  }

  lemma {:induction false} FindCaseAt(cases: seq<CaseRow>, k: nat)
    requires k < |cases| && forall i :: 0 <= i < k ==> CasesApart(cases[i], cases[k])
    ensures FindCase(cases, cases[k].tenantId, cases[k].id) == Some(cases[k])
  {
    if k > 0 {
      assert CasesApart(cases[0], cases[k]);
      FindCaseAt(cases[1..], k - 1);
    }
  }

  lemma {:induction false} FindJobAt(jobs: seq<JobRow>, k: nat)
    requires k < |jobs| && forall i :: 0 <= i < k ==> JobsApart(jobs[i], jobs[k])
    ensures FindJobRow(jobs, jobs[k].tenantId, jobs[k].caseId, jobs[k].id) == Some(jobs[k])
  {
    if k > 0 {
      assert JobsApart(jobs[0], jobs[k]);
      FindJobAt(jobs[1..], k - 1);
    }
  }

  /** The key row of a reproduction joins with the case and the job inserted with it. */
  lemma JoinsItsOwn(t: Tables, cases: seq<CaseRow>, jobs: seq<JobRow>, tenantId: Text, rs: seq<Reproduction>, n: nat)
    requires t.cases == cases + Apply(ToCase, rs) && t.jobs == jobs + Apply(ToJob, rs)
    requires forall k :: 0 <= k < |cases| ==> cases[k].tenantId != tenantId
    requires forall k :: 0 <= k < |jobs| ==> jobs[k].tenantId != tenantId
    requires ReproductionsAgree(tenantId, rs) && n < |rs|
    ensures JoinsWithOwn(t, rs[n])
  {
    var c, j := |cases| + n, |jobs| + n;
    assert t.cases[c] == ToCase(rs[n]) && t.jobs[j] == ToJob(rs[n]);
    forall i | 0 <= i < c
      ensures CasesApart(t.cases[i], t.cases[c])
    {
      assert i >= |cases| ==> t.cases[i] == ToCase(rs[i - |cases|]) && Apart(rs[i - |cases|], rs[n]);
    }
    forall i | 0 <= i < j
      ensures JobsApart(t.jobs[i], t.jobs[j])
    {
      assert i >= |jobs| ==> t.jobs[i] == ToJob(rs[i - |jobs|]) && Apart(rs[i - |jobs|], rs[n]);
    }
    FindCaseAt(t.cases, c);
    FindJobAt(t.jobs, j);
  }

  /** The key of the reproduction joins with its case and its job. */
  predicate JoinsWithOwn(t: Tables, r: Reproduction) {
    && FindCase(t.cases, r.record.tenantId, r.record.caseId) == Some(ToCase(r))
    && FindJobRow(t.jobs, r.record.tenantId, r.record.caseId, r.record.jobId) == Some(ToJob(r))
  }

  /** The join finds the rows that were inserted together. */
  lemma {:induction false} JoinFindsOwn(t: Tables, rs: seq<Reproduction>)
    requires forall i :: 0 <= i < |rs| ==> JoinsWithOwn(t, rs[i])
    ensures JoinRows(t, Apply(ToKey, rs)) == Apply(RowsOf, rs)
  {
    if rs != [] {
      var keys := Apply(ToKey, rs);
      JoinFindsOwn(t, rs[1..]);
      assert keys[0] == ToKey(rs[0]) && keys[1..] == Apply(ToKey, rs[1..]);
      assert JoinRows(t, keys) == [RowsOf(rs[0])] + JoinRows(t, keys[1..]) by {
        assert JoinsWithOwn(t, rs[0]);
      }
      assert Apply(RowsOf, rs) == [RowsOf(rs[0])] + Apply(RowsOf, rs[1..]);
    }
  }

  /** The part of a table that belongs to a tenant is what was appended for it. */
  lemma WhereAppended<T>(p: T -> bool, before: seq<T>, appended: seq<T>)
    requires forall i :: 0 <= i < |before| ==> !p(before[i])
    requires forall i :: 0 <= i < |appended| ==> p(appended[i])
    ensures Where(p, before + appended) == appended
  {
    WhereAppend(p, before, appended);
    WhereAll(p, appended);
  }

  /** The rows of the reproductions are in the order of the reproductions. */
  lemma RowsAreSorted(collation: Collation, rs: seq<Reproduction>)
    requires Total(collation) && Sorted(ReproductionOrder(collation), rs)
    ensures Sort(JoinedOrder(collation), Apply(RowsOf, rs)) == Apply(RowsOf, rs)
  {
    var joined, order := Apply(RowsOf, rs), JoinedOrder(collation);
    forall i, j | 0 <= i < j < |joined|
      ensures order(joined[i], joined[j])
    {
      assert ReproductionOrder(collation)(rs[i], rs[j]);
    }
    OrdersAreStrict(collation);
    SortKeepsSorted(order, joined);
  }

  lemma RowsMapBack(rs: seq<Reproduction>)
    requires forall i :: 0 <= i < |rs| ==> RecordOk(rs[i].record)
    ensures MapAll(Apply(RowsOf, rs)) == Some(Apply(Stripped, rs))
  {
    forall i | 0 <= i < |rs|
      ensures MapReproduction(Apply(RowsOf, rs)[i]) == Some(Stripped(rs[i]))
    {
      MapUndoesInsert(rs[i]);
    }
    var mapped := MapAll(Apply(RowsOf, rs));
    assert mapped.value == Apply(Stripped, rs);
  }

  /** The reproductions read back from a restored tenant. */
  lemma RestoredReproductions(collation: Collation, t: Tables, id: Text, rs: seq<Reproduction>)
    requires Total(collation) && NoRows(t, id)
    requires ReproductionsAgree(id, rs) && Sorted(ReproductionOrder(collation), rs)
    requires forall i :: 0 <= i < |rs| ==> RecordOk(rs[i].record)
    ensures var after := WithReproductions(t, rs);
            && Where(KeyIn(id), after.keys) == Apply(ToKey, rs)
            && MapAll(Sort(JoinedOrder(collation), JoinRows(after, Apply(ToKey, rs)))) == Some(Apply(Stripped, rs))
  {
    WhereAppended(KeyIn(id), t.keys, Apply(ToKey, rs));
    forall i | 0 <= i < |rs|
      ensures JoinsWithOwn(WithReproductions(t, rs), rs[i])
    {
      JoinsItsOwn(WithReproductions(t, rs), t.cases, t.jobs, id, rs, i);
    }
    JoinFindsOwn(WithReproductions(t, rs), rs);
    RowsAreSorted(collation, rs);
    RowsMapBack(rs);
  }

  /** The artifacts read back from a restored tenant. */
  lemma RestoredArtifacts(collation: Collation, t: Tables, id: Text, artifacts: seq<Artifact>,
                          etags: map<Text, Text>, at: int)
    requires Total(collation) && NoRows(t, id) && Uploaded(artifacts, etags)
    requires Sorted(ArtifactOrder(collation), artifacts)
    requires forall i :: 0 <= i < |artifacts| ==> artifacts[i].tenantId == id
    ensures var after := WithArtifacts(t, artifacts, etags, at);
            && Where(ArtifactIn(id), after.artifacts) == ToArtifacts(artifacts, etags, at)
            && Where(AvailableIn(id), after.artifacts) == ToArtifacts(artifacts, etags, at)
            && ArtifactRows(collation, after, id) == ToArtifacts(artifacts, etags, at)
            && Apply(Described, ArtifactRows(collation, after, id)) == artifacts
  {
    var rows := ToArtifacts(artifacts, etags, at);
    WhereAppended(ArtifactIn(id), t.artifacts, rows);
    WhereAppended(AvailableIn(id), t.artifacts, rows);
    forall i, j | 0 <= i < j < |rows|
      ensures ArtifactRowOrder(collation)(rows[i], rows[j])
    {
      assert ArtifactOrder(collation)(artifacts[i], artifacts[j]);
    }
    DerivedOrdersAreStrict(collation);
    SortKeepsSorted(ArtifactRowOrder(collation), rows);
  }

  lemma RestoredIsQuiescent(t: Tables, m: Manifest, sha256: Text, requestedBy: Text, etags: map<Text, Text>, at: int)
    requires Consistent(m) && NoRows(t, m.tenant.tenantId) && Uploaded(m.artifacts, etags)
    ensures Quiescent(Restored(t, m, sha256, requestedBy, etags, at), m.tenant.tenantId)
  {
    var id, rs := m.tenant.tenantId, m.reproductions;
    forall i | 0 <= i < |rs|
      ensures TerminalCase(ToCase(rs[i]).state) && TerminalJob(ToJob(rs[i]).state)
      ensures LiveCase(id)(ToCase(rs[i])) && JobIn(id)(ToJob(rs[i])) && KeyIn(id)(ToKey(rs[i]))
    {
      assert ReproductionOk(rs[i]);
    }
    WhereAppended(LiveCase(id), t.cases, Apply(ToCase, rs));
    WhereAppended(JobIn(id), t.jobs, Apply(ToJob, rs));
    WhereAppended(KeyIn(id), t.keys, Apply(ToKey, rs));
    WhereAppended(ArtifactIn(id), t.artifacts, ToArtifacts(m.artifacts, etags, at));
    WhereAppended(AvailableIn(id), t.artifacts, ToArtifacts(m.artifacts, etags, at));
  }

  /** What a restored tenant exports to, when the lists of the manifest are ordered. */
  lemma RestoredCollects(collation: Collation, t: Tables, m: Manifest, sha256: Text, requestedBy: Text,
                         etags: map<Text, Text>, at: int)
    requires Total(collation) && Consistent(m) && NoRows(t, m.tenant.tenantId) && Uploaded(m.artifacts, etags)
    requires ExportForm(collation, m)
    ensures var after := Restored(t, m, sha256, requestedBy, etags, at);
            Collected(collation, after, m.tenant.tenantId, m.createdAt) == Some(m)
  {
    var id, rs := m.tenant.tenantId, m.reproductions;
    var after := Restored(t, m, sha256, requestedBy, etags, at);
    RestoredParts(collation, t, m, after, etags, at);
  }

  lemma RestoredParts(collation: Collation, t: Tables, m: Manifest, after: Tables, etags: map<Text, Text>, at: int)
    requires Total(collation) && Consistent(m) && NoRows(t, m.tenant.tenantId) && Uploaded(m.artifacts, etags)
    requires ExportForm(collation, m)
    requires after.cases == t.cases + Apply(ToCase, m.reproductions)
    requires after.jobs == t.jobs + Apply(ToJob, m.reproductions)
    requires after.keys == t.keys + Apply(ToKey, m.reproductions)
    requires after.evidence == t.evidence + m.evidence
    requires after.artifacts == t.artifacts + ToArtifacts(m.artifacts, etags, at)
    ensures var id := m.tenant.tenantId;
            && MapAll(Sort(JoinedOrder(collation), JoinRows(after, Where(KeyIn(id), after.keys)))) == Some(m.reproductions)
            && Sort(EvidenceOrder(collation), Where(EvidenceIn(id), after.evidence)) == m.evidence
            && Apply(Described, ArtifactRows(collation, after, id)) == m.artifacts
  {
    var id, rs := m.tenant.tenantId, m.reproductions;
    assert MapAll(Sort(JoinedOrder(collation), JoinRows(after, Where(KeyIn(id), after.keys)))) == Some(rs) by {
      assert forall i :: 0 <= i < |rs| ==> ReproductionOk(rs[i]);
      RestoredReproductions(collation, t, id, rs);
      SameJoin(after, WithReproductions(t, rs), Apply(ToKey, rs));
      assert Apply(Stripped, rs) == rs;
    }
    assert Sort(EvidenceOrder(collation), Where(EvidenceIn(id), after.evidence)) == m.evidence by {
      WhereAppended(EvidenceIn(id), t.evidence, m.evidence);
      OrdersAreStrict(collation);
      SortKeepsSorted(EvidenceOrder(collation), m.evidence);
    }
    assert Apply(Described, ArtifactRows(collation, after, id)) == m.artifacts by {
      RestoredArtifacts(collation, t, id, m.artifacts, etags, at);
      assert after.artifacts == WithArtifacts(t, m.artifacts, etags, at).artifacts;
    }
  }

  /** The join looks at cases and jobs only. */
  lemma {:induction false} SameJoin(t: Tables, u: Tables, keys: seq<KeyRow>)
    requires t.cases == u.cases && t.jobs == u.jobs
    ensures JoinRows(t, keys) == JoinRows(u, keys)
  {
    if keys != [] {
      SameJoin(t, u, keys[1..]);
    }
  }

  // ---------------------------------------------------------------------------------------------
  // Every exported manifest has the form of an export
  // ---------------------------------------------------------------------------------------------

  predicate KeyOrder(a: Joined, b: Joined) { KeysApart(a.key, b.key) }

  lemma {:induction false} JoinedFromKeys(t: Tables, keys: seq<KeyRow>, row: Joined)
    requires row in JoinRows(t, keys)
    ensures row.key in keys && row.caseRow in t.cases && row.job in t.jobs
    ensures row.key.tenantId == row.caseRow.tenantId == row.job.tenantId
    ensures row.key.caseId == row.caseRow.id == row.job.caseId && row.key.jobId == row.job.id
  {
    assert keys == [keys[0]] + keys[1..];
    if row in JoinRows(t, keys[1..]) {
      JoinedFromKeys(t, keys[1..], row);
    }
  }

  lemma {:induction false} JoinedPairwise(t: Tables, keys: seq<KeyRow>)
    requires Pairwise(KeysApart, keys)
    ensures Pairwise(KeyOrder, JoinRows(t, keys))
  {
    if keys != [] {
      var rest := JoinRows(t, keys[1..]);
      JoinedPairwise(t, keys[1..]);
      forall j | 0 <= j < |rest|
        ensures KeysApart(keys[0], rest[j].key)
      {
        JoinedFromKeys(t, keys[1..], rest[j]);
        var k :| 0 < k < |keys| && keys[k] == rest[j].key;
      }
    }
  }

  /** No two rows of a tenant tie. */
  lemma JoinedCompare(collation: Collation, a: Joined, b: Joined)
    requires Total(collation) && KeyOrder(a, b) && a.key.tenantId == b.key.tenantId
    ensures JoinedOrder(collation)(a, b) || JoinedOrder(collation)(b, a)
  {
    if CaseOf(a) == CaseOf(b) && JobOf(a) == JobOf(b) && CallerOf(a) == CallerOf(b) {
      assert KeyOf(a) != KeyOf(b);
    }
  }

  /** The rows joined for a tenant, in order. */
  lemma JoinedInOrder(collation: Collation, t: Tables, id: Text)
    requires Total(collation) && Valid(t)
    ensures var rows := JoinRows(t, Where(KeyIn(id), t.keys));
            var joined := Sort(JoinedOrder(collation), rows);
            Sorted(JoinedOrder(collation), joined) && SameElements(joined, rows)
  {
    var keys := Where(KeyIn(id), t.keys);
    var rows := JoinRows(t, keys);
    WherePairwise(KeysApart, KeyIn(id), t.keys);
    JoinedPairwise(t, keys);
    forall i, j | 0 <= i < j < |rows|
      ensures JoinedOrder(collation)(rows[i], rows[j]) || JoinedOrder(collation)(rows[j], rows[i])
    {
      JoinedFromKeys(t, keys, rows[i]);
      JoinedFromKeys(t, keys, rows[j]);
      WhereMeans(KeyIn(id), t.keys, rows[i].key);
      WhereMeans(KeyIn(id), t.keys, rows[j].key);
      assert KeyOrder(rows[i], rows[j]);
      JoinedCompare(collation, rows[i], rows[j]);
    }
    OrdersAreStrict(collation);
    SortSorts(JoinedOrder(collation), rows);
  }

  lemma EvidenceCompare(collation: Collation, a: Evidence, b: Evidence)
    requires Total(collation) && EvidenceId(a) != EvidenceId(b)
    ensures EvidenceOrder(collation)(a, b) || EvidenceOrder(collation)(b, a)
  {
    if EvidenceJob(a) == EvidenceJob(b) && EvidenceAttempt(a) == EvidenceAttempt(b) {
      assert Fewer(EvidenceSequence(a), EvidenceSequence(b)) || Fewer(EvidenceSequence(b), EvidenceSequence(a));
    } else if EvidenceJob(a) == EvidenceJob(b) {
      assert Fewer(EvidenceAttempt(a), EvidenceAttempt(b)) || Fewer(EvidenceAttempt(b), EvidenceAttempt(a));
    }
  }

  lemma ArtifactCompare(collation: Collation, a: Artifact, b: Artifact)
    requires Total(collation) && a.artifactId != b.artifactId
    ensures ArtifactOrder(collation)(a, b) || ArtifactOrder(collation)(b, a)
  {
    if ArtifactCase(a) == ArtifactCase(b) && ArtifactKindText(a) == ArtifactKindText(b) {
      assert ArtifactIdOf(a) != ArtifactIdOf(b);
    }
  }

  lemma EvidenceInOrder(collation: Collation, t: Tables, id: Text)
    requires Total(collation) && Valid(t)
    ensures var es := Where(EvidenceIn(id), t.evidence);
            var sorted := Sort(EvidenceOrder(collation), es);
            Sorted(EvidenceOrder(collation), sorted) && SameElements(sorted, es)
  {
    var es, order := Where(EvidenceIn(id), t.evidence), EvidenceOrder(collation);
    WherePairwise(EvidenceApart, EvidenceIn(id), t.evidence);
    forall i, j | 0 <= i < j < |es|
      ensures order(es[i], es[j]) || order(es[j], es[i])
    {
      WhereMeans(EvidenceIn(id), t.evidence, es[i]);
      WhereMeans(EvidenceIn(id), t.evidence, es[j]);
      EvidenceCompare(collation, es[i], es[j]);
    }
    OrdersAreStrict(collation);
    SortSorts(order, es);
  }

  lemma ArtifactsInOrder(collation: Collation, t: Tables, id: Text)
    requires Total(collation) && Valid(t)
    ensures var rows := ArtifactRows(collation, t, id);
            Sorted(ArtifactOrder(collation), Apply(Described, rows)) && SameElements(rows, Where(AvailableIn(id), t.artifacts))
  {
    var rows, order := Where(AvailableIn(id), t.artifacts), ArtifactRowOrder(collation);
    WherePairwise(ArtifactsApart, AvailableIn(id), t.artifacts);
    forall i, j | 0 <= i < j < |rows|
      ensures order(rows[i], rows[j]) || order(rows[j], rows[i])
    {
      WhereMeans(AvailableIn(id), t.artifacts, rows[i]);
      WhereMeans(AvailableIn(id), t.artifacts, rows[j]);
      ArtifactCompare(collation, rows[i].described, rows[j].described);
    }
    DerivedOrdersAreStrict(collation);
    SortSorts(order, rows);
    var sorted := ArtifactRows(collation, t, id);
    forall i, j | 0 <= i < j < |sorted|
      ensures ArtifactOrder(collation)(sorted[i].described, sorted[j].described)
    {
      assert order(sorted[i], sorted[j]);
    }
  }

  /** Where a reproduction of an exported manifest comes from. */
  lemma ReproductionSource(collation: Collation, t: Tables, id: Text, createdAt: int, i: nat) returns (row: Joined)
    requires Total(collation) && Valid(t) && id in t.tenants
    requires Collected(collation, t, id, createdAt).Some?
    requires i < |Collected(collation, t, id, createdAt).value.reproductions|
    ensures MapReproduction(row) == Some(Collected(collation, t, id, createdAt).value.reproductions[i])
    ensures row.key in t.keys && row.caseRow in t.cases && row.job in t.jobs
    ensures row.key.tenantId == row.caseRow.tenantId == row.job.tenantId == id
    ensures row.key.caseId == row.caseRow.id == row.job.caseId && row.key.jobId == row.job.id
  {
    var keys := Where(KeyIn(id), t.keys);
    var joined := Sort(JoinedOrder(collation), JoinRows(t, keys));
    JoinedInOrder(collation, t, id);
    row := joined[i];
    assert row in joined;
    JoinedFromKeys(t, keys, row);
    WhereMeans(KeyIn(id), t.keys, row.key);
  }

  /** Export orders the lists and leaves the two fields out. */
  lemma ExportIsInForm(collation: Collation, t: Tables, id: Text, createdAt: int)
    requires Total(collation) && Valid(t) && id in t.tenants
    requires Collected(collation, t, id, createdAt).Some?
    ensures ExportForm(collation, Collected(collation, t, id, createdAt).value)
  {
    var m := Collected(collation, t, id, createdAt).value;
    var joined := Sort(JoinedOrder(collation), JoinRows(t, Where(KeyIn(id), t.keys)));
    JoinedInOrder(collation, t, id);
    EvidenceInOrder(collation, t, id);
    ArtifactsInOrder(collation, t, id);
    var rs, order := m.reproductions, ReproductionOrder(collation);
    forall i, j | 0 <= i < j < |rs|
      ensures order(rs[i], rs[j])
    {
      var a := ReproductionSource(collation, t, id, createdAt, i);
      var b := ReproductionSource(collation, t, id, createdAt, j);
      assert Some(rs[i]) == MapReproduction(joined[i]) && Some(rs[j]) == MapReproduction(joined[j]);
      assert JoinedOrder(collation)(joined[i], joined[j]);
      SameKeys(collation, joined[i], rs[i], joined[j], rs[j]);
    }
  }

  /** A mapped reproduction sorts where its rows sort. */
  lemma SameKeys(collation: Collation, a: Joined, r: Reproduction, b: Joined, s: Reproduction)
    requires MapReproduction(a) == Some(r) && MapReproduction(b) == Some(s) && JoinedOrder(collation)(a, b)
    ensures ReproductionOrder(collation)(r, s)
  {
    var x, y := RowsOf(r), RowsOf(s);
    LexSame(KeyOf, collation, NoJoined, a, b, x, y);
    LexSame(CallerOf, collation, Lex(KeyOf, collation, NoJoined), a, b, x, y);
    LexSame(JobOf, collation, Lex(CallerOf, collation, Lex(KeyOf, collation, NoJoined)), a, b, x, y);
    LexSame(CaseOf, collation, Lex(JobOf, collation, Lex(CallerOf, collation, Lex(KeyOf, collation, NoJoined))),
            a, b, x, y);
  }

  /**
   Restoring a manifest and exporting the tenant again gives the same manifest exactly when the manifest has the
   form of an export. An archive with a repository request or a requested budget, or with its lists in another
   order, restores but does not verify.
   */
  lemma ExportUndoesRestore(collation: Collation, t: Tables, m: Manifest, sha256: Text, requestedBy: Text,
                            etags: map<Text, Text>, at: int)
    requires Total(collation) && Valid(t) && m.tenant.tenantId !in t.tenants
    requires Consistent(m) && Uploaded(m.artifacts, etags)
    requires Valid(Restored(t, m, sha256, requestedBy, etags, at))
    ensures Export(collation, Restored(t, m, sha256, requestedBy, etags, at), m.tenant.tenantId, m.createdAt) == Ok(m)
       <==> ExportForm(collation, m)
  {
    var id := m.tenant.tenantId;
    var after := Restored(t, m, sha256, requestedBy, etags, at);
    AbsentHasNoRows(t, id);
    if ExportForm(collation, m) {
      RestoredIsQuiescent(t, m, sha256, requestedBy, etags, at);
      RestoredCollects(collation, t, m, sha256, requestedBy, etags, at);
    }
    if Export(collation, after, id, m.createdAt) == Ok(m) {
      ExportIsInForm(collation, after, id, m.createdAt);
    }
  }
}
