/**
 Tenants do not touch each other: what a tenant exports depends on its own rows only, and restoring a tenant leaves the
 rows of every other as they were.
 */
module TenantIsolation {
  import opened Wrappers
  import opened Json
  import opened Lists
  import opened TenantManifest
  import opened TenantRestore

  function CaseIn(tenantId: Text): CaseRow -> bool { (c: CaseRow) => c.tenantId == tenantId }

  /** What the tables hold of a tenant, its entry in the ledger of restores apart. */
  datatype Part = Part(
    tenant: Option<TenantRow>,
    cases: seq<CaseRow>,
    jobs: seq<JobRow>,
    keys: seq<KeyRow>,
    evidence: seq<Evidence>,
    artifacts: seq<ArtifactRow>)

  function PartOf(t: Tables, id: Text): Part {
    Part(if id in t.tenants then Some(t.tenants[id]) else None, Where(CaseIn(id), t.cases), Where(JobIn(id), t.jobs),
         Where(KeyIn(id), t.keys), Where(EvidenceIn(id), t.evidence), Where(ArtifactIn(id), t.artifacts))
  }

  // ---------------------------------------------------------------------------------------------
  // What a tenant exports
  // ---------------------------------------------------------------------------------------------

  lemma {:induction false} WhereWithin<T(!new)>(p: T -> bool, q: T -> bool, xs: seq<T>)
    requires forall x :: p(x) ==> q(x)
    ensures Where(p, Where(q, xs)) == Where(p, xs)
  {
    if xs != [] {
      WhereWithin(p, q, xs[1..]);
      assert q(xs[0]) ==> ([xs[0]] + Where(q, xs[1..]))[1..] == Where(q, xs[1..]);
    }
  }

  lemma {:induction false} FindsOwnCase(cases: seq<CaseRow>, tenantId: Text, id: Text)
    ensures FindCase(Where(CaseIn(tenantId), cases), tenantId, id) == FindCase(cases, tenantId, id)
  {
    if cases != [] {
      var rest := Where(CaseIn(tenantId), cases[1..]);
      FindsOwnCase(cases[1..], tenantId, id);
      assert ([cases[0]] + rest)[1..] == rest;
    }
  }

  lemma {:induction false} FindsOwnJob(jobs: seq<JobRow>, tenantId: Text, caseId: Text, id: Text)
    ensures FindJobRow(Where(JobIn(tenantId), jobs), tenantId, caseId, id) == FindJobRow(jobs, tenantId, caseId, id)
  {
    if jobs != [] {
      var rest := Where(JobIn(tenantId), jobs[1..]);
      FindsOwnJob(jobs[1..], tenantId, caseId, id);
      assert ([jobs[0]] + rest)[1..] == rest;
    }
  }

  lemma {:induction false} JoinsOwnRows(t: Tables, u: Tables, id: Text, keys: seq<KeyRow>)
    requires PartOf(t, id) == PartOf(u, id) && forall i :: 0 <= i < |keys| ==> keys[i].tenantId == id
    ensures JoinRows(t, keys) == JoinRows(u, keys)
  {
    if keys != [] {
      var key := keys[0];
      FindsOwnCase(t.cases, id, key.caseId);
      FindsOwnCase(u.cases, id, key.caseId);
      FindsOwnJob(t.jobs, id, key.caseId, key.jobId);
      FindsOwnJob(u.jobs, id, key.caseId, key.jobId);
      JoinsOwnRows(t, u, id, keys[1..]);
    }
  }

  lemma CountsOwnRows(t: Tables, u: Tables, id: Text)
    requires PartOf(t, id) == PartOf(u, id)
    ensures Quiescent(t, id) == Quiescent(u, id)
    ensures Where(AvailableIn(id), t.artifacts) == Where(AvailableIn(id), u.artifacts)
  {
    WhereWithin(LiveCase(id), CaseIn(id), t.cases);
    WhereWithin(LiveCase(id), CaseIn(id), u.cases);
    WhereWithin(AvailableIn(id), ArtifactIn(id), t.artifacts);
    WhereWithin(AvailableIn(id), ArtifactIn(id), u.artifacts);
  }

  lemma OwnKeysJoinAlike(t: Tables, u: Tables, id: Text)
    requires PartOf(t, id) == PartOf(u, id)
    ensures JoinRows(t, Where(KeyIn(id), t.keys)) == JoinRows(u, Where(KeyIn(id), u.keys))
  {
    var keys := Where(KeyIn(id), t.keys);
    forall i | 0 <= i < |keys|
      ensures keys[i].tenantId == id
    {
      WhereMeans(KeyIn(id), t.keys, keys[i]);
    }
    JoinsOwnRows(t, u, id, keys);
  }

  lemma CollectsOwnRows(collation: Collation, t: Tables, u: Tables, id: Text, createdAt: int)
    requires PartOf(t, id) == PartOf(u, id) && id in t.tenants
    ensures id in u.tenants && u.tenants[id] == t.tenants[id]
    ensures Collected(collation, t, id, createdAt) == Collected(collation, u, id, createdAt)
  {
    assert PartOf(t, id).tenant == PartOf(u, id).tenant;
    CountsOwnRows(t, u, id);
    OwnKeysJoinAlike(t, u, id);
    assert ArtifactRows(collation, t, id) == ArtifactRows(collation, u, id);
  }

  /** What a tenant exports depends on its own rows only. */
  lemma ExportsOwnRows(collation: Collation, t: Tables, u: Tables, id: Text, createdAt: int)
    requires PartOf(t, id) == PartOf(u, id)
    ensures Export(collation, t, id, createdAt) == Export(collation, u, id, createdAt)
  {
    CountsOwnRows(t, u, id);
    if id in t.tenants {
      CollectsOwnRows(collation, t, u, id, createdAt);
    } else {
      assert PartOf(t, id).tenant == PartOf(u, id).tenant;
    }
  }

  // ---------------------------------------------------------------------------------------------
  // What a restore leaves alone
  // ---------------------------------------------------------------------------------------------

  lemma {:induction false} WhereNoMore<T>(p: T -> bool, xs: seq<T>, more: seq<T>)
    requires forall i :: 0 <= i < |more| ==> !p(more[i])
    ensures Where(p, xs + more) == Where(p, xs)
  {
    if xs == [] {
      WhereAppend(p, more, []);
      assert xs + more == more && more + [] == more;
    } else {
      WhereNoMore(p, xs[1..], more);
      assert (xs + more)[1..] == xs[1..] + more;
    }
  }

  /** Every part of the manifest is the tenant's. */
  ghost predicate IsOwn(m: Manifest) {
    && (forall i :: 0 <= i < |m.reproductions| ==> m.reproductions[i].record.tenantId == m.tenant.tenantId)
    && (forall i :: 0 <= i < |m.evidence| ==> m.evidence[i].tenantId == m.tenant.tenantId)
    && (forall i :: 0 <= i < |m.artifacts| ==> m.artifacts[i].tenantId == m.tenant.tenantId)
  }

  lemma ConsistentIsOwn(m: Manifest)
    requires Consistent(m)
    ensures IsOwn(m)
  {
  }

  /** Neither the rows of another tenant nor its entry in the ledger change. */
  ghost predicate LeavesOthers(t: Tables, u: Tables, own: Text) {
    forall id :: id != own ==>
      && PartOf(u, id) == PartOf(t, id)
      && (id in t.sessions <==> id in u.sessions) && (id in t.sessions ==> u.sessions[id] == t.sessions[id])
  }

  lemma RestoreLeavesOthers(t: Tables, m: Manifest, sha256: Text, requestedBy: Text, etags: map<Text, Text>, at: int)
    requires Uploaded(m.artifacts, etags) && IsOwn(m)
    ensures LeavesOthers(t, Restored(t, m, sha256, requestedBy, etags, at), m.tenant.tenantId)
  {
    forall id | id != m.tenant.tenantId
      ensures PartOf(Restored(t, m, sha256, requestedBy, etags, at), id) == PartOf(t, id)
    {
      WhereNoMore(CaseIn(id), t.cases, Apply(ToCase, m.reproductions));
      WhereNoMore(JobIn(id), t.jobs, Apply(ToJob, m.reproductions));
      WhereNoMore(KeyIn(id), t.keys, Apply(ToKey, m.reproductions));
      WhereNoMore(EvidenceIn(id), t.evidence, m.evidence);
      WhereNoMore(ArtifactIn(id), t.artifacts, ToArtifacts(m.artifacts, etags, at));
    }
  }

  lemma LeavesOthersTransitively(t: Tables, u: Tables, w: Tables, own: Text)
    requires LeavesOthers(t, u, own) && LeavesOthers(u, w, own)
    ensures LeavesOthers(t, w, own)
  {
    forall id | id != own
      ensures PartOf(w, id) == PartOf(t, id)
    {
      assert PartOf(u, id) == PartOf(t, id);
    }
  }

  /** Restoring a tenant changes nothing that another tenant exports. */
  lemma OthersExportTheSame(collation: Collation, t: Tables, m: Manifest, sha256: Text, requestedBy: Text, etags: map<Text, Text>,
                            at: int, id: Text, createdAt: int)
    requires Uploaded(m.artifacts, etags) && Consistent(m) && id != m.tenant.tenantId
    ensures Export(collation, Restored(t, m, sha256, requestedBy, etags, at), id, createdAt) == Export(collation, t, id, createdAt)
  {
    RestoreLeavesOthers(t, m, sha256, requestedBy, etags, at);
    ExportsOwnRows(collation, Restored(t, m, sha256, requestedBy, etags, at), t, id, createdAt);
  }

  /** The ledger names the backup, who asked for it, what it held and when it was restored. */
  lemma RestoreIsRecorded(t: Tables, m: Manifest, sha256: Text, requestedBy: Text, etags: map<Text, Text>, at: int)
    requires Uploaded(m.artifacts, etags)
    ensures var u := Restored(t, m, sha256, requestedBy, etags, at);
            && m.tenant.tenantId in u.sessions
            && var s := u.sessions[m.tenant.tenantId];
               && s.backupSha256 == sha256 && s.requestedBy == requestedBy && s.state == RESTORED
               && (s.caseCount, s.evidenceCount, s.artifactCount) == (|m.reproductions|, |m.evidence|, |m.artifacts|)
               && s.byteCount == Sum((a: Artifact) => a.byteCount, m.artifacts)
               && s.startedAt == at && s.completedAt == Some(at) && s.verifiedAt == None
  {
    BytesAddUp(m.artifacts);
  }

  lemma {:induction false} BytesAddUp(artifacts: seq<Artifact>)
    ensures ByteCount(artifacts) == Sum((a: Artifact) => a.byteCount, artifacts)
  {
    if artifacts != [] {
      var size: Artifact -> nat := (a: Artifact) => a.byteCount;
      BytesAddUp(artifacts[1..]);
      SumWithout(size, artifacts, 0);
      assert artifacts[..0] + artifacts[1..] == artifacts[1..];
    }
  }
}
