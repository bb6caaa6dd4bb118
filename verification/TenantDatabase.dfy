/**
 The statements of a restore against the tables of the database.

 The transaction commits exactly the rows of the manifest or changes nothing, keeps every constraint, and cannot fail
 on an exported manifest of a tenant that is not there.
 */
module TenantDatabase {
  import opened Wrappers
  import opened Json
  import opened Lifecycle
  import opened Lists
  import opened TenantManifest
  import opened TenantRestore
  import opened TenantIsolation

  datatype RestoreError = TargetExists | RestoreFailed

  // ---------------------------------------------------------------------------------------------
  // When the inserts succeed
  // ---------------------------------------------------------------------------------------------

  predicate RowsOk(r: Reproduction) { CaseRowOk(ToCase(r)) && JobRowOk(ToJob(r)) && KeyRowOk(ToKey(r)) }

  /** The rows of the manifest meet the constraints that concern one row. */
  ghost predicate ManifestRowsOk(m: Manifest) {
    && TenantRowOk(m.tenant.tenantId, TenantRow(true, m.tenant.createdAt, m.tenant.updatedAt, m.tenant.retentionUntil))
    && (forall i :: 0 <= i < |m.reproductions| ==> RowsOk(m.reproductions[i]))
    && (forall i :: 0 <= i < |m.evidence| ==> EvidenceRowOk(m.evidence[i]))
    && (forall i :: 0 <= i < |m.artifacts| ==> IdOk(m.artifacts[i].artifactId))
  }

  /** The rows that a row of the join was made of meet their constraints. */
  lemma JoinedRowsOk(t: Tables, row: Joined)
    requires Valid(t) && row.key in t.keys && row.caseRow in t.cases && row.job in t.jobs
    ensures CaseRowOk(row.caseRow) && JobRowOk(row.job) && KeyRowOk(row.key)
  {
  }

  lemma MappedRowsOk(row: Joined)
    requires CaseRowOk(row.caseRow) && JobRowOk(row.job) && KeyRowOk(row.key) && MapReproduction(row).Some?
    requires row.key.tenantId == row.caseRow.tenantId == row.job.tenantId
    requires row.key.caseId == row.caseRow.id == row.job.caseId && row.key.jobId == row.job.id
    ensures RowsOk(MapReproduction(row).value)
  {
    InsertUndoesMap(row);
  }

  lemma ExportedReproductionOk(collation: Collation, t: Tables, id: Text, createdAt: int, i: nat)
    requires Total(collation) && Valid(t) && id in t.tenants
    requires Collected(collation, t, id, createdAt).Some?
    requires i < |Collected(collation, t, id, createdAt).value.reproductions|
    ensures RowsOk(Collected(collation, t, id, createdAt).value.reproductions[i])
  {
    var row := ReproductionSource(collation, t, id, createdAt, i);
    JoinedRowsOk(t, row);
    MappedRowsOk(row);
  }

  lemma ExportedEvidenceOk(collation: Collation, t: Tables, id: Text)
    requires Total(collation) && Valid(t)
    ensures forall e :: e in Sort(EvidenceOrder(collation), Where(EvidenceIn(id), t.evidence)) ==> EvidenceRowOk(e)
  {
    EvidenceInOrder(collation, t, id);
    forall e | e in Sort(EvidenceOrder(collation), Where(EvidenceIn(id), t.evidence))
      ensures EvidenceRowOk(e)
    {
      WhereMeans(EvidenceIn(id), t.evidence, e);
    }
  }

  /** Every exported manifest meets them, since its rows did. */
  lemma ExportedRowsOk(collation: Collation, t: Tables, id: Text, createdAt: int)
    requires Total(collation) && Valid(t)
    requires Export(collation, t, id, createdAt).Ok?
    ensures ManifestRowsOk(Export(collation, t, id, createdAt).value)
  {
    CollectedRowsOk(collation, t, id, createdAt);
  }

  lemma CollectedRowsOk(collation: Collation, t: Tables, id: Text, createdAt: int)
    requires Total(collation) && Valid(t) && id in t.tenants && t.tenants[id].active
    requires Collected(collation, t, id, createdAt).Some?
    ensures ManifestRowsOk(Collected(collation, t, id, createdAt).value)
  {
    var m := Collected(collation, t, id, createdAt).value;
    assert TenantRowOk(id, t.tenants[id]);
    forall i | 0 <= i < |m.reproductions|
      ensures RowsOk(m.reproductions[i])
    {
      ExportedReproductionOk(collation, t, id, createdAt, i);
    }
    ExportedEvidenceOk(collation, t, id);
    assert forall i :: 0 <= i < |m.evidence| ==> m.evidence[i] in m.evidence;
    ExportedArtifactsOk(collation, t, id);
  }

  lemma ExportedArtifactsOk(collation: Collation, t: Tables, id: Text)
    requires Total(collation) && Valid(t)
    ensures forall i :: 0 <= i < |ArtifactRows(collation, t, id)| ==> ArtifactRowOk(ArtifactRows(collation, t, id)[i])
  {
    var rows := ArtifactRows(collation, t, id);
    ArtifactsInOrder(collation, t, id);
    forall i | 0 <= i < |rows|
      ensures ArtifactRowOk(rows[i])
    {
      assert rows[i] in rows;
      WhereMeans(AvailableIn(id), t.artifacts, rows[i]);
    }
  }

  /** A key starts with the tenant, and the tenant ends at a slash. */
  lemma KeyStartsWithTenant(a: Artifact)
    ensures var key, start := ContentKey(a.tenantId, a.caseId, a.kind, a.sha256), Ascii("tenants/");
            && |key| > |start| + |a.tenantId|
            && key[|start|..|start| + |a.tenantId|] == a.tenantId
            && key[|start| + |a.tenantId|] == 0x2F
  {
    var key, start, middle := ContentKey(a.tenantId, a.caseId, a.kind, a.sha256), Ascii("tenants/"), Ascii("/cases/");
    var head := start + a.tenantId + middle;
    assert head <= head + a.caseId <= head + a.caseId + Ascii("/") <= key;
    assert middle[0] == 0x2F;
    assert head[|start|..|start| + |a.tenantId|] == a.tenantId && head[|start| + |a.tenantId|] == 0x2F;
  }

  /** The key of an object tells whose it is. */
  lemma KeyTellsTenant(a: Artifact, b: Artifact)
    requires IdOk(a.tenantId) && IdOk(b.tenantId)
    requires ContentKey(a.tenantId, a.caseId, a.kind, a.sha256) == ContentKey(b.tenantId, b.caseId, b.kind, b.sha256)
    ensures a.tenantId == b.tenantId
  {
    var rest := ContentKey(a.tenantId, a.caseId, a.kind, a.sha256)[|Ascii("tenants/")|..];
    KeyStartsWithTenant(a);
    KeyStartsWithTenant(b);
    IdHasNoSlash(a.tenantId);
    IdHasNoSlash(b.tenantId);
    EndsAtSlash(rest, a.tenantId, b.tenantId);
  }

  lemma IdHasNoSlash(id: Text)
    requires IdOk(id)
    ensures 0x2F !in id
  {
    assert !IdUnit(0x2F);
  }

  lemma EndsAtSlash(rest: Text, a: Text, b: Text)
    requires |a| < |rest| && rest[..|a|] == a && rest[|a|] == 0x2F && 0x2F !in a
    requires |b| < |rest| && rest[..|b|] == b && rest[|b|] == 0x2F && 0x2F !in b
    ensures a == b
  {
    assert forall i :: 0 <= i < |a| ==> rest[i] == a[i];
    assert forall i :: 0 <= i < |b| ==> rest[i] == b[i];
  }

  // ---------------------------------------------------------------------------------------------
  // Constraints that concern several rows
  // ---------------------------------------------------------------------------------------------

  lemma CaseFits(t: Tables, rs: seq<Reproduction>, i: nat, id: Text)
    requires NoRows(t, id) && ReproductionsAgree(id, rs) && i < |rs| && RowsOk(rs[i]) && id in t.tenants
    ensures CanInsertCase(WithReproductions(t, rs[..i]), ToCase(rs[i]))
  {
    var now := WithReproductions(t, rs[..i]);
    forall k | 0 <= k < |now.cases|
      ensures CasesApart(now.cases[k], ToCase(rs[i]))
    {
      assert k >= |t.cases| ==> now.cases[k] == ToCase(rs[k - |t.cases|]) && Apart(rs[k - |t.cases|], rs[i]);
    }
  }

  lemma JobFits(t: Tables, rs: seq<Reproduction>, i: nat, id: Text, now: Tables)
    requires NoRows(t, id) && ReproductionsAgree(id, rs) && i < |rs| && RowsOk(rs[i])
    requires Stamped(ToJob(rs[i]))
    requires now.cases == WithReproductions(t, rs[..i]).cases + [ToCase(rs[i])]
    requires now.jobs == WithReproductions(t, rs[..i]).jobs
    ensures CanInsertJob(now, ToJob(rs[i]))
  {
    assert now.cases[|now.cases| - 1] == ToCase(rs[i]);
    forall k | 0 <= k < |now.jobs|
      ensures JobsApart(now.jobs[k], ToJob(rs[i]))
    {
      assert k >= |t.jobs| ==> now.jobs[k] == ToJob(rs[k - |t.jobs|]) && Apart(rs[k - |t.jobs|], rs[i]);
    }
  }

  lemma KeyFits(t: Tables, rs: seq<Reproduction>, i: nat, id: Text, now: Tables)
    requires NoRows(t, id) && ReproductionsAgree(id, rs) && i < |rs| && RowsOk(rs[i])
    requires now.jobs == WithReproductions(t, rs[..i]).jobs + [ToJob(rs[i])]
    requires now.keys == WithReproductions(t, rs[..i]).keys
    ensures CanInsertKey(now, ToKey(rs[i]))
  {
    assert now.jobs[|now.jobs| - 1] == ToJob(rs[i]);
    forall k | 0 <= k < |now.keys|
      ensures KeysApart(now.keys[k], ToKey(rs[i]))
    {
      assert k >= |t.keys| ==> now.keys[k] == ToKey(rs[k - |t.keys|]) && Apart(rs[k - |t.keys|], rs[i]);
    }
  }

  /** The rows of a reproduction are in the tables. */
  ghost predicate HasRows(t: Tables, r: Reproduction) {
    CaseExists(t, r.record.tenantId, r.record.caseId) && JobExists(t, r.record.tenantId, r.record.caseId, r.record.jobId)
  }

  ghost predicate EvidenceInsertable(t: Tables, id: Text, rs: seq<Reproduction>, es: seq<Evidence>) {
    && (forall k :: 0 <= k < |rs| ==> HasRows(t, rs[k]))
    && (forall k :: 0 <= k < |t.evidence| ==> t.evidence[k].tenantId != id)
    && Restoring(t, id) && ReproductionsAgree(id, rs) && EvidenceAgrees(id, rs, es)
    && forall i :: 0 <= i < |es| ==> EvidenceRowOk(es[i])
  }

  ghost predicate ArtifactsInsertable(t: Tables, id: Text, rs: seq<Reproduction>, artifacts: seq<Artifact>,
                                      etags: map<Text, Text>, at: int)
  {
    && (forall k :: 0 <= k < |rs| ==> HasRows(t, rs[k]))
    && ReproductionsAgree(id, rs) && ArtifactsAgree(id, rs, artifacts) && Uploaded(artifacts, etags)
    && (forall i :: 0 <= i < |artifacts| ==> ArtifactRowOk(ToArtifact(artifacts[i], etags[artifacts[i].objectKey], at)))
    && (forall k :: 0 <= k < |t.artifacts| ==> t.artifacts[k].described.tenantId != id)
    && (forall k, i :: 0 <= k < |t.artifacts| && 0 <= i < |artifacts| ==>
          t.artifacts[k].described.objectKey != artifacts[i].objectKey)
  }

  lemma RowsArePresent(t: Tables, rs: seq<Reproduction>, k: nat)
    requires k < |rs|
    ensures HasRows(WithReproductions(t, rs), rs[k])
  {
    var now := WithReproductions(t, rs);
    assert now.cases[|t.cases| + k] == ToCase(rs[k]) && now.jobs[|t.jobs| + k] == ToJob(rs[k]);
  }

  lemma EvidenceFits(t: Tables, rs: seq<Reproduction>, es: seq<Evidence>, i: nat, id: Text)
    requires EvidenceInsertable(t, id, rs, es) && i < |es|
    ensures CanInsertEvidence(WithEvidence(t, es[..i]), es[i])
  {
    var now := WithEvidence(t, es[..i]);
    assert Attempted(rs, es[i]);
    var k :| 0 <= k < |rs| && IsAttempt(rs[k].record, es[i]);
    assert HasRows(t, rs[k]);
    forall j | 0 <= j < |now.evidence|
      ensures EvidenceApart(now.evidence[j], es[i])
    {
      assert j >= |t.evidence| ==> now.evidence[j] == es[j - |t.evidence|];
    }
  }

  predicate KeyIsContent(a: Artifact) {
    IdOk(a.tenantId) && a.objectKey == ContentKey(a.tenantId, a.caseId, a.kind, a.sha256)
  }

  lemma OtherTenantsKeysDiffer(t: Tables, a: Artifact)
    requires forall k :: 0 <= k < |t.artifacts| ==> KeyIsContent(t.artifacts[k].described)
    requires forall k :: 0 <= k < |t.artifacts| ==> t.artifacts[k].described.tenantId != a.tenantId
    requires KeyIsContent(a)
    ensures forall k :: 0 <= k < |t.artifacts| ==> t.artifacts[k].described.objectKey != a.objectKey
  {
    forall k | 0 <= k < |t.artifacts|
      ensures t.artifacts[k].described.objectKey != a.objectKey
    {
      if t.artifacts[k].described.objectKey == a.objectKey {
        KeyTellsTenant(t.artifacts[k].described, a);
      }
    }
  }

  lemma ArtifactFits(t: Tables, rs: seq<Reproduction>, artifacts: seq<Artifact>, etags: map<Text, Text>, at: int,
                     i: nat, id: Text)
    requires forall k :: 0 <= k < |rs| ==> HasRows(t, rs[k])
    requires ReproductionsAgree(id, rs) && ArtifactsAgree(id, rs, artifacts) && Uploaded(artifacts, etags)
    requires i < |artifacts|
    requires forall k :: 0 <= k < |t.artifacts| ==>
               t.artifacts[k].described.tenantId != id && t.artifacts[k].described.objectKey != artifacts[i].objectKey
    ensures var now := WithArtifacts(t, artifacts[..i], etags, at);
            && CaseExists(now, artifacts[i].tenantId, artifacts[i].caseId)
            && forall k :: 0 <= k < |now.artifacts| ==>
                 ArtifactsApart(now.artifacts[k], ToArtifact(artifacts[i], etags[artifacts[i].objectKey], at))
  {
    var a := artifacts[i];
    var now := WithArtifacts(t, artifacts[..i], etags, at);
    assert HasCase(rs, a.caseId);
    var c :| 0 <= c < |rs| && rs[c].record.caseId == a.caseId;
    assert HasRows(t, rs[c]);
    forall k | 0 <= k < |now.artifacts|
      ensures ArtifactsApart(now.artifacts[k], ToArtifact(a, etags[a.objectKey], at))
    {
      assert k >= |t.artifacts| ==> now.artifacts[k].described == artifacts[k - |t.artifacts|];
    }
  }

  // ---------------------------------------------------------------------------------------------
  // An accepted insert keeps every constraint
  // ---------------------------------------------------------------------------------------------

  lemma PairwiseAppend<T>(r: (T, T) -> bool, xs: seq<T>, x: T)
    requires Pairwise(r, xs) && forall i :: 0 <= i < |xs| ==> r(xs[i], x)
    ensures Pairwise(r, xs + [x])
  {
  }

  lemma CaseStillExists(t: Tables, row: CaseRow, tenantId: Text, id: Text)
    requires CaseExists(t, tenantId, id)
    ensures CaseExists(t.(cases := t.cases + [row]), tenantId, id)
  {
    var i :| 0 <= i < |t.cases| && t.cases[i].tenantId == tenantId && t.cases[i].id == id;
    assert (t.cases + [row])[i] == t.cases[i];
  }

  lemma JobStillExists(t: Tables, row: JobRow, tenantId: Text, caseId: Text, id: Text)
    requires JobExists(t, tenantId, caseId, id)
    ensures JobExists(t.(jobs := t.jobs + [row]), tenantId, caseId, id)
  {
    var i :| 0 <= i < |t.jobs| && t.jobs[i].tenantId == tenantId && t.jobs[i].caseId == caseId && t.jobs[i].id == id;
    assert (t.jobs + [row])[i] == t.jobs[i];
  }

  lemma CaseKeepsValid(t: Tables, row: CaseRow)
    requires Valid(t) && CanInsertCase(t, row)
    ensures Valid(t.(cases := t.cases + [row]))
  {
    var u := t.(cases := t.cases + [row]);
    PairwiseAppend(CasesApart, t.cases, row);
    forall i | 0 <= i < |u.jobs|
      ensures CaseExists(u, u.jobs[i].tenantId, u.jobs[i].caseId)
    {
      CaseStillExists(t, row, t.jobs[i].tenantId, t.jobs[i].caseId);
    }
    forall i | 0 <= i < |u.keys|
      ensures JobExists(u, u.keys[i].tenantId, u.keys[i].caseId, u.keys[i].jobId)
    {
      assert JobExists(t, t.keys[i].tenantId, t.keys[i].caseId, t.keys[i].jobId);
    }
  }

  lemma JobKeepsValid(t: Tables, row: JobRow)
    requires Valid(t) && CanInsertJob(t, row)
    ensures Valid(t.(jobs := t.jobs + [row]))
  {
    var u := t.(jobs := t.jobs + [row]);
    PairwiseAppend(JobsApart, t.jobs, row);
    forall i | 0 <= i < |u.jobs|
      ensures CaseExists(u, u.jobs[i].tenantId, u.jobs[i].caseId) && u.jobs[i].tenantId in u.tenants
    {
      assert CaseExists(t, u.jobs[i].tenantId, u.jobs[i].caseId);
    }
    forall i | 0 <= i < |u.keys|
      ensures JobExists(u, u.keys[i].tenantId, u.keys[i].caseId, u.keys[i].jobId)
    {
      JobStillExists(t, row, t.keys[i].tenantId, t.keys[i].caseId, t.keys[i].jobId);
    }
  }

  /** Growing tables that no foreign key points to. */
  lemma LeafKeepsValid(t: Tables, u: Tables)
    requires Valid(t)
    requires u == t.(keys := u.keys, evidence := u.evidence, artifacts := u.artifacts)
    requires forall i :: 0 <= i < |u.keys| ==>
               KeyRowOk(u.keys[i]) && JobExists(t, u.keys[i].tenantId, u.keys[i].caseId, u.keys[i].jobId)
    requires forall i :: 0 <= i < |u.evidence| ==> EvidenceRowOk(u.evidence[i]) && u.evidence[i].tenantId in t.tenants
    requires forall i :: 0 <= i < |u.artifacts| ==>
               ArtifactRowOk(u.artifacts[i]) && u.artifacts[i].described.tenantId in t.tenants
    requires Pairwise(KeysApart, u.keys) && Pairwise(EvidenceApart, u.evidence) && Pairwise(ArtifactsApart, u.artifacts)
    ensures Valid(u)
  {
    forall i | 0 <= i < |u.keys|
      ensures JobExists(u, u.keys[i].tenantId, u.keys[i].caseId, u.keys[i].jobId) && u.keys[i].tenantId in u.tenants
    {
      JobsTenantExists(t, u.keys[i].tenantId, u.keys[i].caseId, u.keys[i].jobId);
    }
    forall i | 0 <= i < |u.jobs|
      ensures CaseExists(u, u.jobs[i].tenantId, u.jobs[i].caseId)
    {
      assert CaseExists(t, t.jobs[i].tenantId, t.jobs[i].caseId);
    }
  }

  lemma JobsTenantExists(t: Tables, tenantId: Text, caseId: Text, id: Text)
    requires Valid(t) && JobExists(t, tenantId, caseId, id)
    ensures tenantId in t.tenants
  {
    var i :| 0 <= i < |t.jobs| && t.jobs[i].tenantId == tenantId && t.jobs[i].caseId == caseId && t.jobs[i].id == id;
  }

  lemma CasesTenantExists(t: Tables, tenantId: Text, id: Text)
    requires Valid(t) && CaseExists(t, tenantId, id)
    ensures tenantId in t.tenants
  {
    var i :| 0 <= i < |t.cases| && t.cases[i].tenantId == tenantId && t.cases[i].id == id;
  }

  lemma KeyKeepsValid(t: Tables, row: KeyRow)
    requires Valid(t) && CanInsertKey(t, row)
    ensures Valid(t.(keys := t.keys + [row]))
  {
    PairwiseAppend(KeysApart, t.keys, row);
    LeafKeepsValid(t, t.(keys := t.keys + [row]));
  }

  lemma EvidenceKeepsValid(t: Tables, row: Evidence)
    requires Valid(t) && CanInsertEvidence(t, row)
    ensures Valid(t.(evidence := t.evidence + [row]))
  {
    PairwiseAppend(EvidenceApart, t.evidence, row);
    JobsTenantExists(t, row.tenantId, row.caseId, row.jobId);
    LeafKeepsValid(t, t.(evidence := t.evidence + [row]));
  }

  lemma ArtifactKeepsValid(t: Tables, row: ArtifactRow)
    requires Valid(t) && CanInsertArtifact(t, row)
    ensures Valid(t.(artifacts := t.artifacts + [row]))
  {
    PairwiseAppend(ArtifactsApart, t.artifacts, row);
    CasesTenantExists(t, row.described.tenantId, row.described.caseId);
    LeafKeepsValid(t, t.(artifacts := t.artifacts + [row]));
  }

  // ---------------------------------------------------------------------------------------------
  // The statements
  // ---------------------------------------------------------------------------------------------

  lemma OneMoreReproduction(t: Tables, rs: seq<Reproduction>, i: nat, now: Tables)
    requires i < |rs| && now == WithReproductions(t, rs[..i])
    ensures WithReproductions(t, rs[..i + 1])
         == now.(cases := now.cases + [ToCase(rs[i])], jobs := now.jobs + [ToJob(rs[i])], keys := now.keys + [ToKey(rs[i])])
  {
    assert Apply(ToCase, rs[..i + 1]) == Apply(ToCase, rs[..i]) + [ToCase(rs[i])];
    assert Apply(ToJob, rs[..i + 1]) == Apply(ToJob, rs[..i]) + [ToJob(rs[i])];
    assert Apply(ToKey, rs[..i + 1]) == Apply(ToKey, rs[..i]) + [ToKey(rs[i])];
  }

  /** The reproductions can all be inserted. */
  ghost predicate Insertable(t: Tables, id: Text, rs: seq<Reproduction>) {
    && id in t.tenants && NoRows(t, id) && ReproductionsAgree(id, rs)
    && forall i :: 0 <= i < |rs| ==> RowsOk(rs[i]) && Stamped(ToJob(rs[i]))
  }

  lemma TenantKeepsValid(t: Tables, m: Manifest, sha256: Text, requestedBy: Text, at: int)
    requires Valid(t)
    requires TenantRowOk(m.tenant.tenantId,
                         TenantRow(true, m.tenant.createdAt, m.tenant.updatedAt, m.tenant.retentionUntil))
    requires HexText(sha256) && IdOk(requestedBy)
    ensures Valid(WithTenant(t, m, sha256, requestedBy, at))
  {
    var u := WithTenant(t, m, sha256, requestedBy, at);
    forall i | 0 <= i < |u.jobs|
      ensures CaseExists(u, u.jobs[i].tenantId, u.jobs[i].caseId)
    {
      assert CaseExists(t, t.jobs[i].tenantId, t.jobs[i].caseId);
    }
    forall i | 0 <= i < |u.keys|
      ensures JobExists(u, u.keys[i].tenantId, u.keys[i].caseId, u.keys[i].jobId)
    {
      assert JobExists(t, t.keys[i].tenantId, t.keys[i].caseId, t.keys[i].jobId);
    }
  }

  lemma CompletionKeepsValid(t: Tables, id: Text, at: int)
    requires Valid(t) && Restoring(t, id)
    ensures Valid(Completed(t, id, at))
  {
    var u := Completed(t, id, at);
    forall i | 0 <= i < |u.jobs|
      ensures CaseExists(u, u.jobs[i].tenantId, u.jobs[i].caseId)
    {
      assert CaseExists(t, t.jobs[i].tenantId, t.jobs[i].caseId);
    }
    forall i | 0 <= i < |u.keys|
      ensures JobExists(u, u.keys[i].tenantId, u.keys[i].caseId, u.keys[i].jobId)
    {
      assert JobExists(t, t.keys[i].tenantId, t.keys[i].caseId, t.keys[i].jobId);
    }
  }

  /** The manifest can be restored: nothing in the tables or in the manifest stands in the way. */
  ghost predicate Restorable(t: Tables, m: Manifest, etags: map<Text, Text>) {
    && m.tenant.tenantId !in t.tenants && Consistent(m) && ManifestRowsOk(m)
    && Uploaded(m.artifacts, etags) && EtagsOk(m.artifacts, etags)
  }

  predicate EtagsOk(artifacts: seq<Artifact>, etags: map<Text, Text>)
    requires Uploaded(artifacts, etags)
  {
    forall i :: 0 <= i < |artifacts| ==> EtagOk(etags[artifacts[i].objectKey])
  }

  lemma ReproductionsFit(t: Tables, m: Manifest, etags: map<Text, Text>, u: Tables)
    requires Valid(t) && Restorable(t, m, etags) && m.tenant.tenantId in u.tenants
    requires u.cases == t.cases && u.jobs == t.jobs && u.keys == t.keys && u.evidence == t.evidence
    requires u.artifacts == t.artifacts
    ensures Insertable(u, m.tenant.tenantId, m.reproductions)
  {
    AbsentHasNoRows(t, m.tenant.tenantId);
  }

  lemma AllEvidenceFits(t: Tables, m: Manifest, etags: map<Text, Text>, u: Tables)
    requires Valid(t) && Restorable(t, m, etags)
    requires u.cases == WithReproductions(t, m.reproductions).cases
    requires u.jobs == WithReproductions(t, m.reproductions).jobs && u.evidence == t.evidence
    requires Restoring(u, m.tenant.tenantId)
    ensures EvidenceInsertable(u, m.tenant.tenantId, m.reproductions, m.evidence)
  {
    AbsentHasNoRows(t, m.tenant.tenantId);
    forall k | 0 <= k < |m.reproductions|
      ensures HasRows(u, m.reproductions[k])
    {
      RowsArePresent(t, m.reproductions, k);
      SameRows(WithReproductions(t, m.reproductions), u, m.reproductions[k]);
    }
  }

  lemma SameRows(t: Tables, u: Tables, r: Reproduction)
    requires HasRows(t, r) && t.cases == u.cases && t.jobs == u.jobs
    ensures HasRows(u, r)
  {
  }

  lemma AllArtifactsFit(t: Tables, m: Manifest, etags: map<Text, Text>, at: int, u: Tables)
    requires Valid(t) && Restorable(t, m, etags)
    requires u.cases == WithReproductions(t, m.reproductions).cases
    requires u.jobs == WithReproductions(t, m.reproductions).jobs && u.artifacts == t.artifacts
    ensures ArtifactsInsertable(u, m.tenant.tenantId, m.reproductions, m.artifacts, etags, at)
  {
    var id := m.tenant.tenantId;
    AbsentHasNoRows(t, id);
    forall k | 0 <= k < |m.reproductions|
      ensures HasRows(u, m.reproductions[k])
    {
      RowsArePresent(t, m.reproductions, k);
      SameRows(WithReproductions(t, m.reproductions), u, m.reproductions[k]);
    }
    forall i | 0 <= i < |m.artifacts|
      ensures ArtifactRowOk(ToArtifact(m.artifacts[i], etags[m.artifacts[i].objectKey], at))
      ensures forall k :: 0 <= k < |u.artifacts| ==> u.artifacts[k].described.objectKey != m.artifacts[i].objectKey
    {
      ArtifactRowFits(t, id, m.artifacts[i], etags[m.artifacts[i].objectKey], at);
    }
  }

  lemma ArtifactRowFits(t: Tables, id: Text, a: Artifact, etag: Text, at: int)
    requires Valid(t) && NoRows(t, id) && IdOk(id) && a.tenantId == id && ArtifactOk(a)
    requires IdOk(a.artifactId) && EtagOk(etag)
    ensures ArtifactRowOk(ToArtifact(a, etag, at))
    ensures forall k :: 0 <= k < |t.artifacts| ==> t.artifacts[k].described.objectKey != a.objectKey
  {
    forall k | 0 <= k < |t.artifacts|
      ensures KeyIsContent(t.artifacts[k].described)
    {
      assert ArtifactRowOk(t.artifacts[k]);
    }
    OtherTenantsKeysDiffer(t, a);
  }

  const NO_ROWS := Tables(map[], map[], [], [], [], [], [])

  lemma SmallRowsOk()
    ensures ManifestRowsOk(SmallManifest())
  {
    assert SOURCE_KINDS[0] == Ascii("trusted-sample") && PHASES[0] == Ascii("DRAFT");
  }

  lemma SmallIsRestorable()
    ensures Valid(NO_ROWS) && Restorable(NO_ROWS, SmallManifest(), map[])
  {
    SmallIsConsistent();
    SmallRowsOk();
  }

  /** The tenant was restored from this very backup. */
  predicate AlreadyRestored(t: Tables, id: Text, sha256: Text) {
    id in t.sessions && t.sessions[id].backupSha256 == sha256 && t.sessions[id].state != RUNNING
  }

  class Database {
    var tables: Tables

    constructor (initial: Tables)
      ensures tables == initial
    {
      tables := initial;
    }

    method InsertCase(row: CaseRow) returns (ok: bool)
      requires Valid(tables)
      modifies this
      ensures Valid(tables)
      ensures ok <==> CanInsertCase(old(tables), row)
      ensures tables == if ok then old(tables).(cases := old(tables).cases + [row]) else old(tables)
    {
      ok := CanInsertCase(tables, row);
      if ok {
        CaseKeepsValid(tables, row);
        tables := tables.(cases := tables.cases + [row]);
      }
    }

    method InsertJob(row: JobRow) returns (ok: bool)
      requires Valid(tables)
      modifies this
      ensures Valid(tables)
      ensures ok <==> CanInsertJob(old(tables), row)
      ensures tables == if ok then old(tables).(jobs := old(tables).jobs + [row]) else old(tables)
    {
      ok := CanInsertJob(tables, row);
      if ok {
        JobKeepsValid(tables, row);
        tables := tables.(jobs := tables.jobs + [row]);
      }
    }

    method InsertKey(row: KeyRow) returns (ok: bool)
      requires Valid(tables)
      modifies this
      ensures Valid(tables)
      ensures ok <==> CanInsertKey(old(tables), row)
      ensures tables == if ok then old(tables).(keys := old(tables).keys + [row]) else old(tables)
    {
      ok := CanInsertKey(tables, row);
      if ok {
        KeyKeepsValid(tables, row);
        tables := tables.(keys := tables.keys + [row]);
      }
    }

    method InsertEvidence(row: Evidence) returns (ok: bool)
      requires Valid(tables)
      modifies this
      ensures Valid(tables)
      ensures ok <==> CanInsertEvidence(old(tables), row)
      ensures tables == if ok then old(tables).(evidence := old(tables).evidence + [row]) else old(tables)
    {
      ok := CanInsertEvidence(tables, row);
      if ok {
        EvidenceKeepsValid(tables, row);
        tables := tables.(evidence := tables.evidence + [row]);
      }
    }

    method InsertArtifact(row: ArtifactRow) returns (ok: bool)
      requires Valid(tables)
      modifies this
      ensures Valid(tables)
      ensures ok <==> CanInsertArtifact(old(tables), row)
      ensures tables == if ok then old(tables).(artifacts := old(tables).artifacts + [row]) else old(tables)
    {
      ok := CanInsertArtifact(tables, row);
      if ok {
        ArtifactKeepsValid(tables, row);
        tables := tables.(artifacts := tables.artifacts + [row]);
      }
    }

    /** Case, job and key of one reproduction. */
    method InsertReproduction(ghost before: Tables, id: Text, rs: seq<Reproduction>, i: nat) returns (ok: bool)
      requires i < |rs| && Valid(tables) && tables == WithReproductions(before, rs[..i])
      modifies this
      ensures ok ==> Valid(tables) && tables == WithReproductions(before, rs[..i + 1])
      ensures Insertable(before, id, rs) ==> ok
    {
      if Insertable(before, id, rs) {
        CaseFits(before, rs, i, id);
      }
      ok := InsertCase(ToCase(rs[i]));
      if !ok {
        return;
      }
      if Insertable(before, id, rs) {
        JobFits(before, rs, i, id, tables);
      }
      ok := InsertJob(ToJob(rs[i]));
      if !ok {
        return;
      }
      if Insertable(before, id, rs) {
        KeyFits(before, rs, i, id, tables);
      }
      ok := InsertKey(ToKey(rs[i]));
      OneMoreReproduction(before, rs, i, WithReproductions(before, rs[..i]));
    }

    /** Those of each reproduction in turn. */
    method InsertReproductions(id: Text, rs: seq<Reproduction>) returns (ok: bool)
      requires Valid(tables)
      modifies this
      ensures ok ==> Valid(tables) && tables == WithReproductions(old(tables), rs)
      ensures Insertable(old(tables), id, rs) ==> ok
    {
      ghost var before := tables;
      assert WithReproductions(before, []) == before;
      for i := 0 to |rs|
        invariant Valid(tables)
        invariant tables == WithReproductions(before, rs[..i])
      {
        ok := InsertReproduction(before, id, rs, i);
        if !ok {
          return;
        }
      }
      assert rs[..|rs|] == rs;
      ok := true;
    }

    /** The evidence can all be inserted. */
    method InsertAllEvidence(id: Text, rs: seq<Reproduction>, es: seq<Evidence>) returns (ok: bool)
      requires Valid(tables)
      modifies this
      ensures ok ==> Valid(tables) && tables == WithEvidence(old(tables), es)
      ensures EvidenceInsertable(old(tables), id, rs, es) ==> ok
    {
      ghost var before := tables;
      assert WithEvidence(before, []) == before;
      for i := 0 to |es|
        invariant Valid(tables)
        invariant tables == WithEvidence(before, es[..i])
      {
        if EvidenceInsertable(before, id, rs, es) {
          EvidenceFits(before, rs, es, i, id);
        }
        ok := InsertEvidence(es[i]);
        if !ok {
          return;
        }
        OneMoreEvidence(before, es, i);
      }
      assert es[..|es|] == es;
      ok := true;
    }

    /** One row for each artifact, with the etag of its object; fails when an object was not uploaded. */
    method InsertArtifacts(id: Text, rs: seq<Reproduction>, artifacts: seq<Artifact>, etags: map<Text, Text>, at: int)
      returns (ok: bool)
      requires Valid(tables)
      modifies this
      ensures ok ==> Uploaded(artifacts, etags) && Valid(tables)
      ensures ok ==> tables == WithArtifacts(old(tables), artifacts, etags, at)
      ensures ArtifactsInsertable(old(tables), id, rs, artifacts, etags, at) ==> ok
    {
      ghost var before := tables;
      assert WithArtifacts(before, [], etags, at) == before;
      for i := 0 to |artifacts|
        invariant Valid(tables)
        invariant Uploaded(artifacts[..i], etags)
        invariant tables == WithArtifacts(before, artifacts[..i], etags, at)
      {
        var a := artifacts[i];
        if a.objectKey !in etags {
          return false;
        }
        if ArtifactsInsertable(before, id, rs, artifacts, etags, at) {
          ArtifactFits(before, rs, artifacts, etags, at, i, id);
        }
        ok := InsertArtifact(ToArtifact(a, etags[a.objectKey], at));
        if !ok {
          return;
        }
        OneMoreArtifact(before, artifacts, etags, at, i);
      }
      assert artifacts[..|artifacts|] == artifacts;
      ok := true;
    }

    /**
     restoreTransaction: commits exactly the rows of the manifest, or changes nothing. It cannot fail on a manifest
     that meets the constraints, for a tenant that is not there.
     */
    method RestoreTransaction(m: Manifest, sha256: Text, requestedBy: Text, etags: map<Text, Text>, at: int)
      returns (r: Result<bool, RestoreError>)
      requires Valid(tables)
      modifies this
      ensures Valid(tables)
      ensures r.Ok? && r.value ==>
                && m.tenant.tenantId !in old(tables).tenants && Uploaded(m.artifacts, etags)
                && tables == Restored(old(tables), m, sha256, requestedBy, etags, at)
      ensures r.Err? || !r.value ==> tables == old(tables)
      ensures IsOwn(m) ==> LeavesOthers(old(tables), tables, m.tenant.tenantId)
      ensures r.Ok? && !r.value <==>
                m.tenant.tenantId in old(tables).tenants && AlreadyRestored(old(tables), m.tenant.tenantId, sha256)
      ensures HexText(sha256) && IdOk(requestedBy) && Restorable(old(tables), m, etags) ==> r.Ok? && r.value
    {
      var id, snapshot := m.tenant.tenantId, tables;
      if id in tables.tenants {
        return if AlreadyRestored(tables, id, sha256) then Ok(false) else Err(TargetExists);
      }
      var row := TenantRow(true, m.tenant.createdAt, m.tenant.updatedAt, m.tenant.retentionUntil);
      if !TenantRowOk(id, row) || !HexText(sha256) || !IdOk(requestedBy) {
        return Err(RestoreFailed);
      }
      TenantKeepsValid(tables, m, sha256, requestedBy, at);
      tables := WithTenant(tables, m, sha256, requestedBy, at);
      var ok := InsertRows(snapshot, m, etags, at);
      if !ok {
        tables := snapshot;
        return Err(RestoreFailed);
      }
      CompletionKeepsValid(tables, id, at);
      tables := Completed(tables, id, at);
      if IsOwn(m) {
        RestoreLeavesOthers(snapshot, m, sha256, requestedBy, etags, at);
      }
      return Ok(true);
    }

    /** The rows below the tenant and its session. */
    method InsertRows(ghost before: Tables, m: Manifest, etags: map<Text, Text>, at: int) returns (ok: bool)
      requires Valid(tables) && Valid(before) && m.tenant.tenantId in tables.tenants && Restoring(tables, m.tenant.tenantId)
      requires tables.cases == before.cases && tables.jobs == before.jobs && tables.keys == before.keys
      requires tables.evidence == before.evidence && tables.artifacts == before.artifacts
      modifies this
      ensures ok ==>
                && Uploaded(m.artifacts, etags) && Valid(tables)
                && tables == WithArtifacts(WithEvidence(WithReproductions(old(tables), m.reproductions), m.evidence),
                                           m.artifacts, etags, at)
      ensures Restorable(before, m, etags) ==> ok
    {
      var id := m.tenant.tenantId;
      if Restorable(before, m, etags) {
        ReproductionsFit(before, m, etags, tables);
      }
      ok := InsertReproductions(id, m.reproductions);
      if !ok {
        return;
      }
      if Restorable(before, m, etags) {
        AllEvidenceFits(before, m, etags, tables);
      }
      ok := InsertAllEvidence(id, m.reproductions, m.evidence);
      if !ok {
        return;
      }
      if Restorable(before, m, etags) {
        AllArtifactsFit(before, m, etags, at, tables);
      }
      ok := InsertArtifacts(id, m.reproductions, m.artifacts, etags, at);
    }
  }

  /** A backup that an empty store restores and then exports as something else: the budget has no column. */
  method BudgetIsLost(collation: Collation, sha256: Text, requestedBy: Text, at: int) returns (tables: Tables)
    requires Total(collation) && HexText(sha256) && IdOk(requestedBy)
    ensures Consistent(SmallManifest()) && Valid(tables)
    ensures tables == Restored(NO_ROWS, SmallManifest(), sha256, requestedBy, map[], at)
    ensures Export(collation, tables, FIRST_ID, 0) != Ok(SmallManifest())
  {
    SmallIsRestorable();
    var db := new Database(NO_ROWS);
    var restored := db.RestoreTransaction(SmallManifest(), sha256, requestedBy, map[], at);
    tables := db.tables;
    var r := SmallManifest().reproductions[0];
    assert Stripped(r) != r;
    ExportUndoesRestore(collation, NO_ROWS, SmallManifest(), sha256, requestedBy, map[], at);
  }

  lemma OneMoreEvidence(t: Tables, es: seq<Evidence>, i: nat)
    requires i < |es|
    ensures WithEvidence(t, es[..i + 1]).evidence == WithEvidence(t, es[..i]).evidence + [es[i]]
  {
    assert es[..i + 1] == es[..i] + [es[i]];
  }

  lemma OneMoreArtifact(t: Tables, artifacts: seq<Artifact>, etags: map<Text, Text>, at: int, i: nat)
    requires i < |artifacts| && Uploaded(artifacts[..i], etags) && artifacts[i].objectKey in etags
    ensures Uploaded(artifacts[..i + 1], etags)
    ensures WithArtifacts(t, artifacts[..i + 1], etags, at).artifacts
         == WithArtifacts(t, artifacts[..i], etags, at).artifacts
            + [ToArtifact(artifacts[i], etags[artifacts[i].objectKey], at)]
  {
    assert artifacts[..i + 1] == artifacts[..i] + [artifacts[i]];
    assert ToArtifacts(artifacts[..i + 1], etags, at)
        == ToArtifacts(artifacts[..i], etags, at) + [ToArtifact(artifacts[i], etags[artifacts[i].objectKey], at)];
  }
}
