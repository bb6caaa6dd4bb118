/**
 The manifest of a tenant backup and the checks that span its parts: every part belongs to the tenant, identities
 are unique, and every reference resolves.
 */
module TenantManifest {
  import opened Wrappers
  import opened Json
  import opened Lifecycle

  // ---------------------------------------------------------------------------------------------
  // Data; instants are milliseconds
  // ---------------------------------------------------------------------------------------------

  datatype ArtifactKind = Source | RunLog | RunOutput | Bundle | BackupManifest

  datatype Artifact = Artifact(
    artifactId: Text,
    byteCount: nat,
    caseId: Text,
    createdAt: int,
    kind: ArtifactKind,
    objectKey: Text,
    retentionUntil: int,
    sha256: Text,
    tenantId: Text)

  datatype JobFailure = JobFailure(code: Text, message: Text, retryable: bool)

  datatype Job = Job(
    attempt: nat,
    caseId: Text,
    createdAt: int,
    failure: Option<JobFailure>,
    id: Text,
    progressPhase: Text,
    state: JobState,
    updatedAt: int)

  /** The case inside a snapshot; `rest` is what the backup does not look at. */
  datatype CaseRecord = CaseRecord(id: Text, state: CaseState, rest: Meaning)

  datatype Snapshot = Snapshot(
    caseRecord: CaseRecord,
    job: Job,
    repositorySource: Option<Meaning>,
    result: Option<Meaning>,
    sampleId: Option<Text>)

  datatype Record = Record(
    callerId: Text,
    caseId: Text,
    commandHash: Text,
    createdAt: int,
    idempotencyKey: Text,
    jobId: Text,
    repositoryRequest: Option<Meaning>,
    requestedBudget: Option<Meaning>,
    snapshot: Snapshot,
    tenantId: Text,
    updatedAt: int,
    version: nat)

  datatype Reproduction = Reproduction(
    cancelledAt: Option<int>,
    requestedAt: Option<int>,
    caseRetentionUntil: int,
    idempotencyCreatedAt: int,
    idempotencyExpiresAt: int,
    jobMaxAttempts: nat,
    jobNextAttemptAt: int,
    jobRetentionUntil: int,
    record: Record,
    sourceDescriptor: Meaning,
    sourceKind: Text)

  datatype Evidence = Evidence(
    attempt: nat,
    caseId: Text,
    commandHash: Option<Text>,
    createdAt: int,
    durationMs: Option<nat>,
    environment: Meaning,
    evidence: Meaning,
    exitCode: Option<int>,
    jobId: Text,
    kind: Text,
    leaseOwner: Option<Text>,
    passed: Option<bool>,
    retentionUntil: int,
    sequence: nat,
    tenantId: Text)

  datatype Tenant = Tenant(createdAt: int, retentionUntil: Option<int>, tenantId: Text, updatedAt: int)

  datatype Manifest = Manifest(
    artifacts: seq<Artifact>,
    createdAt: int,
    evidence: seq<Evidence>,
    reproductions: seq<Reproduction>,
    tenant: Tenant)

  // ---------------------------------------------------------------------------------------------
  // Checks within one part
  // ---------------------------------------------------------------------------------------------

  predicate RecordOk(r: Record) {
    && r.caseId == r.snapshot.caseRecord.id == r.snapshot.job.caseId
    && r.jobId == r.snapshot.job.id
    && r.createdAt <= r.updatedAt
    && r.version > 0
    && r.snapshot.sampleId.Some? == r.snapshot.repositorySource.None?
  }

  predicate ReproductionOk(r: Reproduction) {
    var job := r.record.snapshot.job;
    && RecordOk(r.record)
    && TerminalCase(r.record.snapshot.caseRecord.state)
    && TerminalJob(job.state)
    && (job.state == Cancelled <==> r.requestedAt.Some?)
    && (r.requestedAt.Some? <==> r.cancelledAt.Some?)
    && (job.state == Succeeded ==> r.record.snapshot.caseRecord.state == VERIFIED)
    && r.record.createdAt < r.caseRetentionUntil
    && job.createdAt < r.jobRetentionUntil
    && r.idempotencyCreatedAt < r.idempotencyExpiresAt
    && job.attempt <= r.jobMaxAttempts
  }

  function KindText(kind: ArtifactKind): Text {
    match kind
    case Source => Ascii("source")
    case RunLog => Ascii("run-log")
    case RunOutput => Ascii("run-output")
    case Bundle => Ascii("bundle")
    case BackupManifest => Ascii("backup-manifest")
  }

  /** Where the body of an artifact is stored: the key says whose it is and what its content is. */
  function ContentKey(tenantId: Text, caseId: Text, kind: ArtifactKind, sha256: Text): Text {
    Ascii("tenants/") + tenantId + Ascii("/cases/") + caseId + Ascii("/") + KindText(kind) + Ascii("/") + sha256
  }

  predicate ArtifactOk(a: Artifact) {
    && a.byteCount <= 1_073_741_824
    && HexText(a.sha256)
    && 1 <= |a.objectKey| <= 512
    && a.objectKey == ContentKey(a.tenantId, a.caseId, a.kind, a.sha256)
    && a.createdAt < a.retentionUntil
  }

  predicate PartsOk(m: Manifest) {
    && (forall i :: 0 <= i < |m.reproductions| ==> ReproductionOk(m.reproductions[i]))
    && (forall i :: 0 <= i < |m.evidence| ==> m.evidence[i].createdAt < m.evidence[i].retentionUntil)
    && (forall i :: 0 <= i < |m.artifacts| ==> ArtifactOk(m.artifacts[i]))
  }

  // ---------------------------------------------------------------------------------------------
  // Checks across parts
  // ---------------------------------------------------------------------------------------------

  ghost predicate ReproductionsAgree(tenantId: Text, rs: seq<Reproduction>) { FirstAgree(tenantId, rs, |rs|) }

  ghost predicate FirstAgree(tenantId: Text, rs: seq<Reproduction>, n: nat)
    requires n <= |rs|
  {
    && (forall i :: 0 <= i < n ==> rs[i].record.tenantId == tenantId)
    && (forall i, j :: 0 <= i < j < n ==> Apart(rs[i], rs[j]))
  }

  predicate Apart(r: Reproduction, s: Reproduction) {
    r.record.caseId != s.record.caseId && r.record.jobId != s.record.jobId && Caller(r) != Caller(s)
  }

  function Caller(r: Reproduction): (Text, Text) { (r.record.callerId, r.record.idempotencyKey) }

  predicate Attempted(rs: seq<Reproduction>, e: Evidence) {
    exists i :: 0 <= i < |rs| && IsAttempt(rs[i].record, e)
  }

  predicate IsAttempt(r: Record, e: Evidence) {
    r.jobId == e.jobId && r.caseId == e.caseId && e.attempt <= r.snapshot.job.attempt
  }

  function EvidenceId(e: Evidence): (Text, nat, nat) { (e.jobId, e.attempt, e.sequence) }

  ghost predicate EvidenceAgrees(tenantId: Text, rs: seq<Reproduction>, es: seq<Evidence>) {
    && (forall i :: 0 <= i < |es| ==> es[i].tenantId == tenantId && Attempted(rs, es[i]))
    && (forall i, j :: 0 <= i < j < |es| ==> EvidenceId(es[i]) != EvidenceId(es[j]))
  }

  predicate HasCase(rs: seq<Reproduction>, caseId: Text) { exists i :: 0 <= i < |rs| && rs[i].record.caseId == caseId }

  ghost predicate ArtifactsAgree(tenantId: Text, rs: seq<Reproduction>, artifacts: seq<Artifact>) {
    && (forall i :: 0 <= i < |artifacts| ==> artifacts[i].tenantId == tenantId && HasCase(rs, artifacts[i].caseId))
    && (forall i, j :: 0 <= i < j < |artifacts| ==>
          artifacts[i].artifactId != artifacts[j].artifactId && artifacts[i].objectKey != artifacts[j].objectKey)
  }

  predicate HasBundle(artifacts: seq<Artifact>, caseId: Text) {
    exists i :: 0 <= i < |artifacts| && artifacts[i].caseId == caseId && artifacts[i].kind == Bundle
  }

  predicate BundlePresent(artifacts: seq<Artifact>, r: Reproduction) {
    r.record.snapshot.job.state == Succeeded ==> HasBundle(artifacts, r.record.caseId)
  }

  /** A manifest whose parts are in order and fit together. */
  ghost predicate Consistent(m: Manifest) {
    var tenantId := m.tenant.tenantId;
    && PartsOk(m)
    && ReproductionsAgree(tenantId, m.reproductions)
    && EvidenceAgrees(tenantId, m.reproductions, m.evidence)
    && ArtifactsAgree(tenantId, m.reproductions, m.artifacts)
    && forall i :: 0 <= i < |m.reproductions| ==> BundlePresent(m.artifacts, m.reproductions[i])
  }

  // ---------------------------------------------------------------------------------------------
  // A manifest
  // ---------------------------------------------------------------------------------------------

  const FIRST_ID := Ascii("a")

  function ZeroHash(): Text { seq(64, _ => 0x30) }

  /** A blocked case and its failed job, which was given a budget; the descriptor has a JSON null inside a list. */
  function BlockedReproduction(): Reproduction {
    var job := Job(0, FIRST_ID, 0, Some(JobFailure(Ascii("E"), Ascii("e"), false)), FIRST_ID, Ascii("DRAFT"), Failed, 0);
    var snapshot := Snapshot(CaseRecord(FIRST_ID, BLOCKED, Fields(map[])), job, None, None, Some(FIRST_ID));
    var record := Record(FIRST_ID, FIRST_ID, ZeroHash(), 0, FIRST_ID, FIRST_ID, None, Some(Fields(map[])), snapshot,
                         FIRST_ID, 0, 1);
    Reproduction(None, None, 1, 0, 1, 1, 0, 1, record, Fields(map[FIRST_ID := List([Token(NULL)])]), Ascii("trusted-sample"))
  }

  function SmallManifest(): Manifest { Manifest([], 0, [], [BlockedReproduction()], Tenant(0, None, FIRST_ID, 0)) }

  lemma SmallIsConsistent()
    ensures Consistent(SmallManifest())
  {
  }

  // ---------------------------------------------------------------------------------------------
  // The loops of the check: each pushes issues, and a manifest without issues is accepted
  // ---------------------------------------------------------------------------------------------

  ghost predicate ApartFromFirst(rs: seq<Reproduction>, i: nat)
    requires i < |rs|
  {
    forall k :: 0 <= k < i ==> Apart(rs[k], rs[i])
  }

  lemma OneMoreAgrees(tenantId: Text, rs: seq<Reproduction>, i: nat)
    requires i < |rs|
    ensures FirstAgree(tenantId, rs, i + 1)
       <==> FirstAgree(tenantId, rs, i) && rs[i].record.tenantId == tenantId && ApartFromFirst(rs, i)
  {
  }

  /** The sets hold what the first `n` reproductions have used. */
  ghost predicate Seen(rs: seq<Reproduction>, n: nat, caseIds: set<Text>, jobIds: set<Text>, callers: set<(Text, Text)>)
    requires n <= |rs|
  {
    && (forall c :: c in caseIds <==> exists k :: 0 <= k < n && rs[k].record.caseId == c)
    && (forall j :: j in jobIds <==> exists k :: 0 <= k < n && rs[k].record.jobId == j)
    && (forall c :: c in callers <==> exists k :: 0 <= k < n && Caller(rs[k]) == c)
  }

  lemma ClashMeans(rs: seq<Reproduction>, i: nat, caseIds: set<Text>, jobIds: set<Text>, callers: set<(Text, Text)>)
    requires i < |rs| && Seen(rs, i, caseIds, jobIds, callers)
    ensures rs[i].record.caseId in caseIds || rs[i].record.jobId in jobIds || Caller(rs[i]) in callers
       <==> !ApartFromFirst(rs, i)
  {
  }

  lemma SeenGrows(rs: seq<Reproduction>, i: nat, caseIds: set<Text>, jobIds: set<Text>, callers: set<(Text, Text)>)
    requires i < |rs| && Seen(rs, i, caseIds, jobIds, callers)
    ensures var r := rs[i].record;
            Seen(rs, i + 1, caseIds + {r.caseId}, jobIds + {r.jobId}, callers + {Caller(rs[i])})
  {
  }

  method CheckReproductions(tenantId: Text, rs: seq<Reproduction>) returns (ok: bool, caseIds: set<Text>)
    ensures ok <==> ReproductionsAgree(tenantId, rs)
    ensures forall c :: c in caseIds <==> HasCase(rs, c)
  {
    ok := true;
    caseIds := {};
    var jobIds: set<Text>, callers: set<(Text, Text)> := {}, {};
    var i := 0;
    while i < |rs|
      invariant 0 <= i <= |rs|
      invariant ok <==> FirstAgree(tenantId, rs, i)
      invariant Seen(rs, i, caseIds, jobIds, callers)
    {
      var r := rs[i].record;
      var clash := r.caseId in caseIds || r.jobId in jobIds || Caller(rs[i]) in callers;
      OneMoreAgrees(tenantId, rs, i);
      ClashMeans(rs, i, caseIds, jobIds, callers);
      SeenGrows(rs, i, caseIds, jobIds, callers);
      if r.tenantId != tenantId || clash {
        ok := false;
      }
      caseIds := caseIds + {r.caseId};
      jobIds := jobIds + {r.jobId};
      callers := callers + {Caller(rs[i])};
      i := i + 1;
    }
  }

  /** `reproductions.find(({ record }) => record.jobId === jobId)`. */
  function FindJob(rs: seq<Reproduction>, jobId: Text): (r: Option<Reproduction>)
    ensures r.Some? ==> r.value in rs && r.value.record.jobId == jobId
    ensures r.None? ==> forall i :: 0 <= i < |rs| ==> rs[i].record.jobId != jobId
  {
    if rs == [] then None
    else if rs[0].record.jobId == jobId then Some(rs[0])
    else FindJob(rs[1..], jobId)
  }

  /** Job identities being unique, the first reproduction found is the only one. */
  lemma FindJobFindsTheOne(tenantId: Text, rs: seq<Reproduction>, e: Evidence)
    requires ReproductionsAgree(tenantId, rs)
    ensures Attempted(rs, e) <==> var r := FindJob(rs, e.jobId); r.Some? && IsAttempt(r.value.record, e)
  {
    var r := FindJob(rs, e.jobId);
    if r.Some? {
      var k :| 0 <= k < |rs| && rs[k] == r.value;
      if Attempted(rs, e) {
        var i :| 0 <= i < |rs| && IsAttempt(rs[i].record, e);
        assert i == k;
      }
    }
  }

  /** The first reproduction with the job of the evidence has its attempt. */
  predicate FirstAttempted(rs: seq<Reproduction>, e: Evidence) {
    var r := FindJob(rs, e.jobId);
    r.Some? && IsAttempt(r.value.record, e)
  }

  /** What the loop checks: all of the tenant, each an attempt of the first reproduction found, no identity twice. */
  ghost predicate EvidenceChecks(tenantId: Text, rs: seq<Reproduction>, es: seq<Evidence>) {
    && (forall i :: 0 <= i < |es| ==> es[i].tenantId == tenantId && FirstAttempted(rs, es[i]))
    && (forall i, j :: 0 <= i < j < |es| ==> EvidenceId(es[i]) != EvidenceId(es[j]))
  }

  /** Where job identities are unique that is agreement. */
  lemma ChecksAreAgreement(tenantId: Text, rs: seq<Reproduction>, es: seq<Evidence>)
    requires ReproductionsAgree(tenantId, rs)
    ensures EvidenceChecks(tenantId, rs, es) <==> EvidenceAgrees(tenantId, rs, es)
  {
    forall i | 0 <= i < |es|
      ensures FirstAttempted(rs, es[i]) <==> Attempted(rs, es[i])
    {
      FindJobFindsTheOne(tenantId, rs, es[i]);
    }
  }

  method CheckEvidence(tenantId: Text, rs: seq<Reproduction>, es: seq<Evidence>) returns (ok: bool)
    ensures ok <==> EvidenceChecks(tenantId, rs, es)
    ensures ReproductionsAgree(tenantId, rs) ==> (ok <==> EvidenceAgrees(tenantId, rs, es))
  {
    ok := true;
    var identities: set<(Text, nat, nat)> := {};
    var i := 0;
    while i < |es|
      invariant 0 <= i <= |es|
      invariant ok <==> EvidenceChecks(tenantId, rs, es[..i])
      invariant forall d :: d in identities <==> exists k :: 0 <= k < i && EvidenceId(es[k]) == d
    {
      var e := es[i];
      var found := FindJob(rs, e.jobId);
      assert es[..i + 1] == es[..i] + [e];
      if e.tenantId != tenantId || found.None? || found.value.record.caseId != e.caseId
         || e.attempt > found.value.record.snapshot.job.attempt || EvidenceId(e) in identities
      {
        ok := false;
      }
      identities := identities + {EvidenceId(e)};
      i := i + 1;
    }
    assert es[..i] == es;
    if ReproductionsAgree(tenantId, rs) {
      ChecksAreAgreement(tenantId, rs, es);
    }
  }

  method CheckArtifacts(tenantId: Text, caseIds: set<Text>, rs: seq<Reproduction>, artifacts: seq<Artifact>)
    returns (ok: bool)
    requires forall c :: c in caseIds <==> HasCase(rs, c)
    ensures ok <==> ArtifactsAgree(tenantId, rs, artifacts)
  {
    ok := true;
    var artifactIds: set<Text>, objectKeys: set<Text> := {}, {};
    var i := 0;
    while i < |artifacts|
      invariant 0 <= i <= |artifacts|
      invariant ok <==> ArtifactsAgree(tenantId, rs, artifacts[..i])
      invariant forall d :: d in artifactIds <==> exists k :: 0 <= k < i && artifacts[k].artifactId == d
      invariant forall d :: d in objectKeys <==> exists k :: 0 <= k < i && artifacts[k].objectKey == d
    {
      var a := artifacts[i];
      assert artifacts[..i + 1] == artifacts[..i] + [a];
      if a.tenantId != tenantId || a.caseId !in caseIds || a.artifactId in artifactIds || a.objectKey in objectKeys {
        ok := false;
      }
      artifactIds := artifactIds + {a.artifactId};
      objectKeys := objectKeys + {a.objectKey};
      i := i + 1;
    }
    assert artifacts[..i] == artifacts;
  }

  /** A manifest is accepted exactly when it is consistent. */
  method CheckManifest(m: Manifest) returns (ok: bool)
    ensures ok <==> Consistent(m)
  {
    var tenantId := m.tenant.tenantId;
    var reproductionsOk, caseIds := CheckReproductions(tenantId, m.reproductions);
    var evidenceOk := CheckEvidence(tenantId, m.reproductions, m.evidence);
    var artifactsOk := CheckArtifacts(tenantId, caseIds, m.reproductions, m.artifacts);
    ok := PartsOk(m) && reproductionsOk && evidenceOk && artifactsOk;
    var i := 0;
    ghost var before := ok;
    while i < |m.reproductions|
      invariant 0 <= i <= |m.reproductions|
      invariant ok <==> before && forall k :: 0 <= k < i ==> BundlePresent(m.artifacts, m.reproductions[k])
    {
      var r := m.reproductions[i].record;
      if r.snapshot.job.state == Succeeded && !HasBundle(m.artifacts, r.caseId) {
        ok := false;
      }
      i := i + 1;
    }
  }

  // ---------------------------------------------------------------------------------------------
  // What an accepted manifest promises
  // ---------------------------------------------------------------------------------------------

  /** Exactly one reproduction has the case of the artifact. */
  ghost predicate HasOneCase(rs: seq<Reproduction>, caseId: Text) {
    && HasCase(rs, caseId)
    && forall i, j :: 0 <= i < |rs| && 0 <= j < |rs| && rs[i].record.caseId == caseId == rs[j].record.caseId ==> i == j
  }

  /** Exactly one reproduction has the job of the evidence, and it is of that case and made that attempt. */
  ghost predicate HasOneAttempt(rs: seq<Reproduction>, e: Evidence) {
    && Attempted(rs, e)
    && forall i, j :: 0 <= i < |rs| && 0 <= j < |rs| && rs[i].record.jobId == e.jobId == rs[j].record.jobId ==> i == j
  }

  /** How a reproduction ended: with a bundle of its case, by a cancellation that has both times, or otherwise. */
  ghost predicate Ended(r: Reproduction, artifacts: seq<Artifact>) {
    var job, state := r.record.snapshot.job, r.record.snapshot.caseRecord.state;
    && (r.requestedAt.Some? <==> job.state == Cancelled) && (r.cancelledAt.Some? <==> job.state == Cancelled)
    && state in {VERIFIED, UNSTABLE, NOT_REPRODUCED, BLOCKED, CANCELLED}
    && match job.state
       case Succeeded => state == VERIFIED && exists a :: a in artifacts && a.caseId == r.record.caseId && a.kind == Bundle
       case Failed | Cancelled => true
       case Queued | Running => false
  }

  /** Everything of a reproduction is kept for some time after it was made. */
  ghost predicate KeptInOrder(r: Reproduction) {
    && r.record.createdAt <= r.record.updatedAt && r.record.createdAt < r.caseRetentionUntil
    && r.record.snapshot.job.createdAt < r.jobRetentionUntil && r.idempotencyCreatedAt < r.idempotencyExpiresAt
  }

  /**
   Every part of an accepted manifest is the tenant's. Every reproduction has ended, every piece of evidence is of one
   attempt of one job, every artifact of one case, and where the body of an artifact is stored tells whose it is.
   */
  lemma ConsistentMeans(m: Manifest)
    requires Consistent(m)
    ensures var tenantId := m.tenant.tenantId;
            && (forall r :: r in m.reproductions ==>
                  && r.record.tenantId == tenantId && Ended(r, m.artifacts)
                  && r.record.snapshot.caseRecord.id == r.record.caseId == r.record.snapshot.job.caseId
                  && r.record.snapshot.job.id == r.record.jobId
                  && (r.record.snapshot.sampleId.Some? <==> r.record.snapshot.repositorySource.None?)
                  && r.record.snapshot.job.attempt <= r.jobMaxAttempts && r.record.version > 0 && KeptInOrder(r))
            && (forall e :: e in m.evidence ==>
                  e.tenantId == tenantId && HasOneAttempt(m.reproductions, e) && e.createdAt < e.retentionUntil)
            && (forall a :: a in m.artifacts ==>
                  && a.tenantId == tenantId && HasOneCase(m.reproductions, a.caseId)
                  && a.createdAt < a.retentionUntil && a.byteCount <= 0x4000_0000 && HexText(a.sha256) && |a.objectKey| <= 512
                  && a.objectKey == Ascii("tenants/") + tenantId + Ascii("/cases/") + a.caseId + Ascii("/") + KindText(a.kind)
                                    + Ascii("/") + a.sha256)
  {
    var rs := m.reproductions;
    forall caseId | HasCase(rs, caseId)
      ensures HasOneCase(rs, caseId)
    {
      assert forall i, j :: 0 <= i < j < |rs| ==> Apart(rs[i], rs[j]);
    }
    forall e | Attempted(rs, e)
      ensures HasOneAttempt(rs, e)
    {
      assert forall i, j :: 0 <= i < j < |rs| ==> Apart(rs[i], rs[j]);
    }
    forall r | r in rs
      ensures Ended(r, m.artifacts)
    {
      var i :| 0 <= i < |rs| && rs[i] == r;
      if r.record.snapshot.job.state == Succeeded {
        BundleIsThere(m.artifacts, rs[i]);
      }
    }
  }

  lemma BundleIsThere(artifacts: seq<Artifact>, r: Reproduction)
    requires BundlePresent(artifacts, r) && r.record.snapshot.job.state == Succeeded
    ensures exists a :: a in artifacts && a.caseId == r.record.caseId && a.kind == Bundle
  {
    var i :| 0 <= i < |artifacts| && artifacts[i].caseId == r.record.caseId && artifacts[i].kind == Bundle;
    assert artifacts[i] in artifacts;
  }
}
