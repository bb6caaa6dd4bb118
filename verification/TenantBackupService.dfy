/**
 The tenant backup service: calls to the private blob provider, which may fail, around the restore transaction.

 Restoring never changes or removes an object that was there before; a restore that succeeds has verified that the
 tenant exports to the backup again; restoring an exported backup succeeds when the provider does not fail, and
 restoring it once more changes no row of the tenant.
 */
module TenantBackupService {
  import opened Wrappers
  import opened Json
  import opened Lists
  import opened TenantManifest
  import opened TenantRestore
  import opened TenantIsolation
  import opened TenantDatabase
  import opened ExportCompleteness
  import Base64

  type Bytes = Base64.Bytes

  datatype Blob = Blob(bytes: Bytes, etag: Text)

  /** A verified archive. */
  datatype Archive = Archive(manifest: Manifest, sha256: Text, objects: map<Text, Bytes>)

  datatype ServiceError = InvalidRequester | TenantExists | TransactionFailed | ProviderUnavailable | ObjectConflict | VerificationFailed

  /** An object this restore relies on: whether it created the object, and its etag. */
  datatype Upload = Upload(created: bool, etag: Text)

  /**
   What goes wrong at the provider without the service knowing or being able to help it: an object was stored and the
   reply lost, or an object of this service could not be taken back.
   */
  datatype Fault = LostReply(key: Text) | FailedRemoval(key: Text)

  /** The objects named by the faults from position `start` on. */
  ghost function Named(faults: seq<Fault>, start: nat): set<Text>
    requires start <= |faults|
  {
    set j | start <= j < |faults| :: faults[j].key
  }

  lemma NamedGrows(faults: seq<Fault>, f: Fault, start: nat)
    requires start <= |faults|
    ensures Named(faults + [f], start) == Named(faults, start) + {f.key}
  {
    var more := faults + [f];
    assert more[|faults|] == f;
    forall key | key in Named(faults, start)
      ensures key in Named(more, start)
    {
      var j :| start <= j < |faults| && faults[j].key == key;
      assert more[j].key == key;
    }
  }

  /** Nothing that was stored is changed or gone. */
  ghost predicate Kept(before: map<Text, Blob>, after: map<Text, Blob>) {
    forall key :: key in before ==> key in after && after[key] == before[key]
  }

  predicate Referenced(t: Tables, key: Text) {
    exists i :: 0 <= i < |t.artifacts| && t.artifacts[i].described.objectKey == key
  }

  ghost predicate Bodies(artifacts: seq<Artifact>, objects: map<Text, Bytes>) {
    forall i :: 0 <= i < |artifacts| ==>
      artifacts[i].objectKey in objects && |objects[artifacts[i].objectKey]| == artifacts[i].byteCount
  }

  /** Every object of the list is stored with its body, under the etag recorded for it. */
  ghost predicate Stored(artifacts: seq<Artifact>, objects: map<Text, Bytes>, uploaded: map<Text, Upload>,
                         blobs: map<Text, Blob>)
    requires Bodies(artifacts, objects)
  {
    forall i :: 0 <= i < |artifacts| ==>
      var key := artifacts[i].objectKey;
      key in uploaded && key in blobs && blobs[key] == Blob(objects[key], uploaded[key].etag)
  }

  predicate Agrees(blobs: map<Text, Blob>, key: Text, body: Bytes) {
    key in blobs ==> blobs[key].bytes == body && EtagOk(blobs[key].etag)
  }

  ghost predicate EtagsFit(uploaded: map<Text, Upload>) { forall key :: key in uploaded ==> EtagOk(uploaded[key].etag) }

  /** Objects that are stored already have the bodies of the backup, and etags that a row can hold. */
  ghost predicate NoConflict(artifacts: seq<Artifact>, objects: map<Text, Bytes>, blobs: map<Text, Blob>)
    requires Bodies(artifacts, objects)
  {
    forall i :: 0 <= i < |artifacts| ==>
      Agrees(blobs, artifacts[i].objectKey, objects[artifacts[i].objectKey])
  }

  /** A row's object is there, and is what the row says. */
  predicate ObjectOk(row: ArtifactRow, blobs: map<Text, Blob>, sha256: Bytes -> Text) {
    var a := row.described;
    && a.objectKey in blobs
    && |blobs[a.objectKey].bytes| == a.byteCount
    && blobs[a.objectKey].etag == row.etag
    && sha256(blobs[a.objectKey].bytes) == a.sha256
  }

  lemma QuiescenceIgnoresSessions(t: Tables, u: Tables, id: Text)
    requires u == t.(sessions := u.sessions)
    ensures Quiescent(u, id) == Quiescent(t, id)
  {
  }

  lemma CollectedIgnoresSessions(collation: Collation, t: Tables, u: Tables, id: Text, createdAt: int)
    requires u == t.(sessions := u.sessions) && id in t.tenants
    ensures Collected(collation, u, id, createdAt) == Collected(collation, t, id, createdAt)
  {
    SameJoin(t, u, Where(KeyIn(id), t.keys));
  }

  lemma ExportIgnoresSessions(collation: Collation, t: Tables, u: Tables, id: Text, createdAt: int)
    requires u == t.(sessions := u.sessions)
    ensures Export(collation, u, id, createdAt) == Export(collation, t, id, createdAt)
    ensures ArtifactRows(collation, u, id) == ArtifactRows(collation, t, id)
  {
    if id in t.tenants {
      QuiescenceIgnoresSessions(t, u, id);
      CollectedIgnoresSessions(collation, t, u, id, createdAt);
    }
  }

  predicate IsCreated(uploaded: map<Text, Upload>, key: Text) { key in uploaded && uploaded[key].created }

  predicate InFirst(artifacts: seq<Artifact>, n: nat, key: Text)
    requires n <= |artifacts|
  {
    exists k :: 0 <= k < n && artifacts[k].objectKey == key
  }

  predicate InRest(artifacts: seq<Artifact>, i: nat, key: Text) {
    exists k :: i <= k < |artifacts| && artifacts[k].objectKey == key
  }

  ghost predicate DistinctKeys(artifacts: seq<Artifact>) {
    forall i, j :: 0 <= i < j < |artifacts| ==> artifacts[i].objectKey != artifacts[j].objectKey
  }

  /**
   What is stored beyond `before` is what the service knows it created and what went astray, all of it for one of the
   first `n` artifacts.
   */
  ghost predicate Accounted(artifacts: seq<Artifact>, n: nat, uploaded: map<Text, Upload>, before: map<Text, Blob>,
                            blobs: map<Text, Blob>, strays: set<Text>)
    requires n <= |artifacts|
  {
    && (forall key :: key in blobs && key !in before <==> key in strays || IsCreated(uploaded, key))
    && (forall key :: IsCreated(uploaded, key) ==>
          key !in strays && key in blobs && uploaded[key].etag == blobs[key].etag)
    && (forall key :: key in strays || key in uploaded ==> InFirst(artifacts, n, key))
  }

  /** The same, but for the keys that are spared, once the objects of the first `i` artifacts have been taken back. */
  ghost predicate Remaining(artifacts: seq<Artifact>, i: nat, uploaded: map<Text, Upload>, before: map<Text, Blob>,
                            blobs: map<Text, Blob>, strays: set<Text>, spared: set<Text>)
  {
    && (forall key :: key !in spared ==>
          (key in blobs && key !in before <==> key in strays || (IsCreated(uploaded, key) && InRest(artifacts, i, key))))
    && (forall key :: IsCreated(uploaded, key) && InRest(artifacts, i, key) ==>
          key !in strays && key !in before && key in blobs && uploaded[key].etag == blobs[key].etag)
  }

  lemma StoredGrows(artifacts: seq<Artifact>, i: nat, objects: map<Text, Bytes>, uploaded: map<Text, Upload>,
                    were: map<Text, Blob>, blobs: map<Text, Blob>, one: Upload)
    requires i < |artifacts| && Bodies(artifacts, objects) && Stored(artifacts[..i], objects, uploaded, were)
    requires forall k :: 0 <= k < i ==> artifacts[k].objectKey != artifacts[i].objectKey
    requires Kept(were, blobs) && artifacts[i].objectKey in blobs
    requires blobs[artifacts[i].objectKey] == Blob(objects[artifacts[i].objectKey], one.etag)
    ensures Stored(artifacts[..i + 1], objects, uploaded[artifacts[i].objectKey := one], blobs)
  {
    assert artifacts[..i + 1] == artifacts[..i] + [artifacts[i]];
  }

  /** What one upload did to the objects: nothing, or it stored the one object, which is created or astray. */
  ghost predicate UploadDid(key: Text, were: map<Text, Blob>, blobs: map<Text, Blob>, created: bool, lost: bool) {
    if created || lost then
      !(created && lost) && key !in were && key in blobs && blobs == were[key := blobs[key]]
    else blobs == were
  }

  lemma AccountedGrows(artifacts: seq<Artifact>, i: nat, uploaded: map<Text, Upload>, before: map<Text, Blob>,
                       were: map<Text, Blob>, blobs: map<Text, Blob>, strays: set<Text>, lost: bool, one: Upload)
    requires i < |artifacts| && DistinctKeys(artifacts)
    requires Accounted(artifacts, i, uploaded, before, were, strays) && Kept(before, were)
    requires UploadDid(artifacts[i].objectKey, were, blobs, one.created, lost)
    requires one.created ==> blobs[artifacts[i].objectKey].etag == one.etag
    ensures Accounted(artifacts, i + 1, uploaded[artifacts[i].objectKey := one], before, blobs,
                      if lost then strays + {artifacts[i].objectKey} else strays)
  {
    NotYetFirst(artifacts, i);
    if one.created {
      AccountedCreation(artifacts, i, uploaded, before, were, blobs, strays, one);
    } else {
      AccountedAfterFailure(artifacts, i, uploaded, before, were, blobs, strays, lost);
      AccountedReuse(artifacts, i, uploaded, before, blobs, if lost then strays + {artifacts[i].objectKey} else strays, one);
    }
  }

  lemma AccountedCreation(artifacts: seq<Artifact>, i: nat, uploaded: map<Text, Upload>, before: map<Text, Blob>,
                          were: map<Text, Blob>, blobs: map<Text, Blob>, strays: set<Text>, one: Upload)
    requires i < |artifacts| && !InFirst(artifacts, i, artifacts[i].objectKey) && one.created
    requires Accounted(artifacts, i, uploaded, before, were, strays) && Kept(before, were)
    requires UploadDid(artifacts[i].objectKey, were, blobs, true, false)
    requires blobs[artifacts[i].objectKey].etag == one.etag
    ensures Accounted(artifacts, i + 1, uploaded[artifacts[i].objectKey := one], before, blobs, strays)
  {
    var created, after := artifacts[i].objectKey, uploaded[artifacts[i].objectKey := one];
    FirstGrows(artifacts, i);
    assert created !in strays && created !in uploaded && created !in before;
    assert forall key :: IsCreated(after, key) <==> key == created || IsCreated(uploaded, key);
  }

  /** An object that is relied on, or whose reply was lost, is not one the service knows it created. */
  lemma AccountedReuse(artifacts: seq<Artifact>, i: nat, uploaded: map<Text, Upload>, before: map<Text, Blob>,
                       blobs: map<Text, Blob>, strays: set<Text>, one: Upload)
    requires i < |artifacts| && artifacts[i].objectKey !in uploaded && !one.created
    requires Accounted(artifacts, i + 1, uploaded, before, blobs, strays)
    ensures Accounted(artifacts, i + 1, uploaded[artifacts[i].objectKey := one], before, blobs, strays)
  {
    FirstGrows(artifacts, i);
  }

  /** An upload that failed may have gone astray. */
  lemma AccountedAfterFailure(artifacts: seq<Artifact>, i: nat, uploaded: map<Text, Upload>, before: map<Text, Blob>,
                              were: map<Text, Blob>, blobs: map<Text, Blob>, strays: set<Text>, lost: bool)
    requires i < |artifacts| && DistinctKeys(artifacts)
    requires Accounted(artifacts, i, uploaded, before, were, strays) && Kept(before, were)
    requires UploadDid(artifacts[i].objectKey, were, blobs, false, lost)
    ensures Accounted(artifacts, i + 1, uploaded, before, blobs,
                      if lost then strays + {artifacts[i].objectKey} else strays)
  {
    NotYetFirst(artifacts, i);
    FirstGrows(artifacts, i);
  }

  lemma NotYetFirst(artifacts: seq<Artifact>, i: nat)
    requires i < |artifacts| && DistinctKeys(artifacts)
    ensures !InFirst(artifacts, i, artifacts[i].objectKey)
  {
  }

  lemma FirstGrows(artifacts: seq<Artifact>, i: nat)
    requires i < |artifacts|
    ensures InFirst(artifacts, i + 1, artifacts[i].objectKey)
    ensures forall key :: InFirst(artifacts, i, key) ==> InFirst(artifacts, i + 1, key)
  {
  }

  lemma RemainingFirst(artifacts: seq<Artifact>, n: nat, uploaded: map<Text, Upload>, before: map<Text, Blob>,
                       blobs: map<Text, Blob>, strays: set<Text>, spared: set<Text>)
    requires n <= |artifacts| && Accounted(artifacts, n, uploaded, before, blobs, strays)
    ensures Remaining(artifacts, 0, uploaded, before, blobs, strays, spared)
  {
    forall key | InFirst(artifacts, n, key)
      ensures InRest(artifacts, 0, key)
    {
    }
  }

  /** One object is taken back, or cannot be, or is left alone. */
  lemma RemainingShrinks(artifacts: seq<Artifact>, i: nat, uploaded: map<Text, Upload>, before: map<Text, Blob>,
                         were: map<Text, Blob>, blobs: map<Text, Blob>, strays: set<Text>, failed: bool,
                         spared: set<Text>)
    requires i < |artifacts| && DistinctKeys(artifacts)
    requires Remaining(artifacts, i, uploaded, before, were, strays, spared)
    requires var key := artifacts[i].objectKey;
             if !IsCreated(uploaded, key) || key in spared then blobs == were
             else blobs == if failed then were else were - {key}
    requires failed ==> IsCreated(uploaded, artifacts[i].objectKey)
    ensures Remaining(artifacts, i + 1, uploaded, before, blobs,
                      if failed then strays + {artifacts[i].objectKey} else strays, spared)
  {
    var key := artifacts[i].objectKey;
    assert InRest(artifacts, i, key) && !InRest(artifacts, i + 1, key);
    forall other | InRest(artifacts, i, other) && other != key
      ensures InRest(artifacts, i + 1, other)
    {
    }
    forall other | InRest(artifacts, i + 1, other)
      ensures InRest(artifacts, i, other)
    {
    }
  }

  /** The keys that rows refer to. */
  ghost function ReferencedKeys(t: Tables): (keys: set<Text>)
    ensures forall key :: key in keys <==> Referenced(t, key)
  {
    set i | 0 <= i < |t.artifacts| :: t.artifacts[i].described.objectKey
  }

  ghost predicate SessionsOk(t: Tables) { forall id :: id in t.sessions ==> SessionOk(t.sessions[id]) }

  /** The restore of the tenant is marked as verified, no earlier than it was completed. */
  function Marked(t: Tables, id: Text, at: int): (u: Tables)
    requires id in t.sessions && t.sessions[id].state != RUNNING
    ensures SessionsOk(t) ==> SessionsOk(u)
    ensures u == t.(sessions := u.sessions) && u.sessions.Keys == t.sessions.Keys
    ensures forall sha256 :: AlreadyRestored(t, id, sha256) ==> AlreadyRestored(u, id, sha256)
  {
    var session := t.sessions[id];
    var verifiedAt := if session.completedAt.Some? then Max(at, session.completedAt.value) else at;
    t.(sessions := t.sessions[id := session.(state := VERIFIED_RESTORE, verifiedAt := Some(verifiedAt))])
  }

  /** The etags recorded for the uploads. */
  function Etags(uploaded: map<Text, Upload>): map<Text, Text> { map key | key in uploaded :: uploaded[key].etag }

  lemma UploadedEtags(artifacts: seq<Artifact>, objects: map<Text, Bytes>, uploaded: map<Text, Upload>,
                      blobs: map<Text, Blob>)
    requires Bodies(artifacts, objects) && Stored(artifacts, objects, uploaded, blobs)
    ensures Uploaded(artifacts, Etags(uploaded))
    ensures EtagsFit(uploaded) ==> EtagsOk(artifacts, Etags(uploaded))
  {
  }

  class Service {
    const db: Database
    const collation: Collation
    /** The digest of a body, and of a manifest in canonical form. */
    const sha256: Bytes -> Text
    const digest: Manifest -> Text
    /** Whether no call to the provider fails, and a row can hold its etags. */
    const reliable: bool
    var blobs: map<Text, Blob>

    /** What went wrong so far. */
    ghost var faults: seq<Fault>

    constructor (db: Database, collation: Collation, sha256: Bytes -> Text, digest: Manifest -> Text, reliable: bool,
                 blobs: map<Text, Blob>)
      ensures this.db == db && this.collation == collation && this.sha256 == sha256 && this.digest == digest
      ensures this.reliable == reliable && this.blobs == blobs
    {
      this.db, this.collation, this.sha256, this.digest := db, collation, sha256, digest;
      this.reliable, this.blobs, this.faults := reliable, blobs, [];
    }

    // -------------------------------------------------------------------------------------------
    // The provider
    // -------------------------------------------------------------------------------------------

    /** Never overwrites; may throw with or without having stored the object. */
    method Put(key: Text, bytes: Bytes) returns (etag: Option<Text>)
      modifies this`blobs, this`faults
      ensures reliable && etag.Some? ==> EtagOk(etag.value)
      ensures etag.Some? ==> blobs == old(blobs)[key := Blob(bytes, etag.value)] && key !in old(blobs)
      ensures etag.None? && blobs != old(blobs) ==> key in blobs && blobs == old(blobs)[key := Blob(bytes, blobs[key].etag)]
      ensures faults == if etag.None? && blobs != old(blobs) then old(faults) + [LostReply(key)] else old(faults)
      ensures UploadDid(key, old(blobs), blobs, etag.Some?, faults != old(faults))
      ensures reliable ==> faults == old(faults) && (etag.Some? <==> key !in old(blobs))
    {
      var stores: bool, throws: bool := *, *;
      assert EtagOk([QUOTE]);
      var tag: Text :| reliable ==> EtagOk(tag);
      etag := None;
      if key !in blobs && (reliable || stores) {
        blobs := blobs[key := Blob(bytes, tag)];
        if reliable || !throws {
          etag := Some(tag);
        } else {
          faults := faults + [LostReply(key)];
        }
      }
    }

    method Get(key: Text) returns (r: Option<Blob>)
      ensures r.Some? ==> key in blobs && r.value == blobs[key]
      ensures reliable && key in blobs ==> r.Some?
    {
      var throws: bool := *;
      r := if key in blobs && (reliable || !throws) then Some(blobs[key]) else None;
    }

    /** Deletes the object if it still has this etag; may throw, with or without having done so. */
    method Delete(key: Text, etag: Text)
      requires key in blobs && blobs[key].etag == etag
      modifies this`blobs, this`faults
      ensures faults == old(faults) || faults == old(faults) + [FailedRemoval(key)]
      ensures blobs == if faults == old(faults) then old(blobs) - {key} else old(blobs)
      ensures reliable ==> faults == old(faults)
    {
      var throws: bool := *;
      if reliable || !throws {
        blobs := blobs - {key};
      } else {
        faults := faults + [FailedRemoval(key)];
      }
    }

    // -------------------------------------------------------------------------------------------
    // uploadObjects
    // -------------------------------------------------------------------------------------------

    /** Creates the object, or relies on one that is there with the same body. */
    method UploadOne(a: Artifact, body: Bytes) returns (r: Result<Upload, ServiceError>)
      requires |body| == a.byteCount
      modifies this`blobs, this`faults
      ensures faults == old(faults) || faults == old(faults) + [LostReply(a.objectKey)]
      ensures UploadDid(a.objectKey, old(blobs), blobs, r.Ok? && r.value.created, faults != old(faults))
      ensures r.Ok? ==> a.objectKey in blobs && blobs[a.objectKey] == Blob(body, r.value.etag)
      ensures r != Err(InvalidRequester)
      ensures reliable ==> faults == old(faults)
      ensures reliable && Agrees(old(blobs), a.objectKey, body) ==> r.Ok? && EtagOk(r.value.etag)
    {
      var etag := Put(a.objectKey, body);
      if etag.Some? {
        return Ok(Upload(true, etag.value));
      }
      var existing := Get(a.objectKey);
      if existing.None? {
        return Err(ProviderUnavailable);
      }
      if |existing.value.bytes| != a.byteCount || existing.value.bytes != body {
        return Err(ObjectConflict);
      }
      return Ok(Upload(false, existing.value.etag));
    }

    /** What is stored beyond `before`, with the faults since `start`. */
    ghost predicate AllAccounted(artifacts: seq<Artifact>, n: nat, uploaded: map<Text, Upload>, before: map<Text, Blob>,
                                 start: nat)
      requires n <= |artifacts|
      reads this`blobs, this`faults
    {
      start <= |faults| && Accounted(artifacts, n, uploaded, before, blobs, Named(faults, start))
    }

    /** The objects beyond `before` are, but for the spared keys, exactly those that went astray since `start`. */
    ghost predicate OnlyStrays(before: map<Text, Blob>, start: nat, spared: set<Text>)
      reads this`blobs, this`faults
    {
      && start <= |faults|
      && forall key :: key !in spared ==> (key in blobs && key !in before <==> key in Named(faults, start))
    }

    method UploadObjects(artifacts: seq<Artifact>, objects: map<Text, Bytes>)
      returns (r: Result<map<Text, Upload>, ServiceError>)
      requires Bodies(artifacts, objects) && DistinctKeys(artifacts)
      modifies this`blobs, this`faults
      ensures Kept(old(blobs), blobs) && old(faults) <= faults && (reliable ==> faults == old(faults))
      ensures r.Ok? ==> Stored(artifacts, objects, r.value, blobs)
      ensures r.Ok? ==> AllAccounted(artifacts, |artifacts|, r.value, old(blobs), |old(faults)|)
      ensures r.Err? ==> r.error != InvalidRequester && OnlyStrays(old(blobs), |old(faults)|, {})
      ensures reliable && NoConflict(artifacts, objects, old(blobs)) ==> r.Ok? && EtagsFit(r.value)
    {
      var uploaded: map<Text, Upload> := map[];
      ghost var start := |faults|;
      for i := 0 to |artifacts|
        invariant Kept(old(blobs), blobs) && old(faults) <= faults && (reliable ==> faults == old(faults))
        invariant Stored(artifacts[..i], objects, uploaded, blobs)
        invariant AllAccounted(artifacts, i, uploaded, old(blobs), start)
        invariant reliable && NoConflict(artifacts, objects, old(blobs)) ==> EtagsFit(uploaded)
      {
        var a := artifacts[i];
        ghost var were, before := blobs, faults;
        var one := UploadOne(a, objects[a.objectKey]);
        NamedGrows(before, LostReply(a.objectKey), start);
        if one.Err? {
          AccountedAfterFailure(artifacts, i, uploaded, old(blobs), were, blobs, Named(before, start), faults != before);
          RemoveCreated(artifacts, i + 1, uploaded, old(blobs), start);
          return Err(one.error);
        }
        StoredGrows(artifacts, i, objects, uploaded, were, blobs, one.value);
        AccountedGrows(artifacts, i, uploaded, old(blobs), were, blobs, Named(before, start), faults != before, one.value);
        uploaded := uploaded[a.objectKey := one.value];
      }
      assert artifacts[..|artifacts|] == artifacts;
      return Ok(uploaded);
    }

    /** Takes back what this restore created; what is left is what went astray. */
    method RemoveCreated(artifacts: seq<Artifact>, ghost n: nat, uploaded: map<Text, Upload>,
                         ghost before: map<Text, Blob>, ghost start: nat)
      requires n <= |artifacts| && DistinctKeys(artifacts) && Kept(before, blobs)
      requires AllAccounted(artifacts, n, uploaded, before, start)
      modifies this`blobs, this`faults
      ensures Kept(before, blobs) && old(faults) <= faults && (reliable ==> faults == old(faults))
      ensures OnlyStrays(before, start, {})
    {
      RemainingFirst(artifacts, n, uploaded, before, blobs, Named(faults, start), {});
      for i := 0 to |artifacts|
        invariant Kept(before, blobs) && old(faults) <= faults && (reliable ==> faults == old(faults))
        invariant Remaining(artifacts, i, uploaded, before, blobs, Named(faults, start), {})
      {
        TakeBack(artifacts, i, uploaded, before, start, {});
      }
    }

    /** The object of one artifact, if this restore created it. */
    method TakeBack(artifacts: seq<Artifact>, i: nat, uploaded: map<Text, Upload>, ghost before: map<Text, Blob>,
                    ghost start: nat, ghost spared: set<Text>)
      requires i < |artifacts| && DistinctKeys(artifacts) && Kept(before, blobs) && start <= |faults|
      requires artifacts[i].objectKey !in spared
      requires Remaining(artifacts, i, uploaded, before, blobs, Named(faults, start), spared)
      modifies this`blobs, this`faults
      ensures Kept(before, blobs) && old(faults) <= faults && (reliable ==> faults == old(faults))
      ensures Remaining(artifacts, i + 1, uploaded, before, blobs, Named(faults, start), spared)
      ensures forall key :: key in old(blobs) && key != artifacts[i].objectKey ==> key in blobs && blobs[key] == old(blobs)[key]
    {
      var key := artifacts[i].objectKey;
      assert InRest(artifacts, i, key);
      ghost var were, known := blobs, faults;
      if key in uploaded && uploaded[key].created {
        Delete(key, uploaded[key].etag);
      }
      NamedGrows(known, FailedRemoval(key), start);
      RemainingShrinks(artifacts, i, uploaded, before, were, blobs, Named(known, start), faults != known, spared);
    }

    /**
     cleanupUnreferenced: takes back what was created and no row refers to. When the question whether one does throws,
     the object is left alone.
     */
    method CleanupUnreferenced(artifacts: seq<Artifact>, uploaded: map<Text, Upload>, ghost before: map<Text, Blob>,
                               ghost start: nat)
      requires DistinctKeys(artifacts) && Kept(before, blobs)
      requires AllAccounted(artifacts, |artifacts|, uploaded, before, start)
      modifies this`blobs, this`faults
      ensures Kept(before, blobs) && old(faults) <= faults && (reliable ==> faults == old(faults))
      ensures forall key :: key in old(blobs) && Referenced(db.tables, key) ==> key in blobs && blobs[key] == old(blobs)[key]
      ensures OnlyStrays(before, start, ReferencedKeys(db.tables))
    {
      ghost var spared := ReferencedKeys(db.tables);
      RemainingFirst(artifacts, |artifacts|, uploaded, before, blobs, Named(faults, start), spared);
      for i := 0 to |artifacts|
        invariant Kept(before, blobs) && old(faults) <= faults && (reliable ==> faults == old(faults))
        invariant Remaining(artifacts, i, uploaded, before, blobs, Named(faults, start), spared)
        invariant forall key :: key in old(blobs) && key in spared ==> key in blobs && blobs[key] == old(blobs)[key]
      {
        var throws: bool := *;
        if !reliable && throws && IsCreated(uploaded, artifacts[i].objectKey) {
          LeaveAlone(artifacts, i, uploaded, before, start, spared);
        } else if Referenced(db.tables, artifacts[i].objectKey) {
          RemainingShrinks(artifacts, i, uploaded, before, blobs, blobs, Named(faults, start), false, spared);
        } else {
          TakeBack(artifacts, i, uploaded, before, start, spared);
        }
      }
    }

    /** The question about a created object threw. */
    ghost method LeaveAlone(artifacts: seq<Artifact>, i: nat, uploaded: map<Text, Upload>, before: map<Text, Blob>,
                            start: nat, spared: set<Text>)
      requires i < |artifacts| && DistinctKeys(artifacts) && start <= |faults|
      requires IsCreated(uploaded, artifacts[i].objectKey)
      requires Remaining(artifacts, i, uploaded, before, blobs, Named(faults, start), spared)
      modifies this`faults
      ensures faults == old(faults) + [FailedRemoval(artifacts[i].objectKey)]
      ensures Remaining(artifacts, i + 1, uploaded, before, blobs, Named(faults, start), spared)
    {
      NamedGrows(faults, FailedRemoval(artifacts[i].objectKey), start);
      RemainingShrinks(artifacts, i, uploaded, before, blobs, blobs, Named(faults, start), true, spared);
      faults := faults + [FailedRemoval(artifacts[i].objectKey)];
    }

    // -------------------------------------------------------------------------------------------
    // buildArchive and verifyRestore
    // -------------------------------------------------------------------------------------------

    ghost predicate ObjectsOk(rows: seq<ArtifactRow>)
      reads this`blobs
    {
      forall i :: 0 <= i < |rows| ==> ObjectOk(rows[i], blobs, sha256)
    }

    /** Reads the object of every row and checks it against the row. */
    method ReadObjects(rows: seq<ArtifactRow>) returns (ok: bool)
      ensures ok ==> ObjectsOk(rows)
      ensures reliable && ObjectsOk(rows) ==> ok
    {
      for i := 0 to |rows|
        invariant forall k :: 0 <= k < i ==> ObjectOk(rows[k], blobs, sha256)
      {
        var stored := Get(rows[i].described.objectKey);
        if stored.None? || !ObjectOk(rows[i], blobs, sha256) {
          return false;
        }
      }
      ok := true;
    }

    ghost predicate Exports(t: Tables, id: Text, createdAt: int)
      reads this`blobs
    {
      Export(collation, t, id, createdAt).Ok? && ObjectsOk(ArtifactRows(collation, t, id))
    }

    /** The object of every artifact is stored, with the size and the digest of its descriptor and the etag of its row. */
    ghost predicate Backed(t: Tables, artifacts: seq<Artifact>)
      reads this`blobs
    {
      forall a :: a in artifacts ==>
        && a.objectKey in blobs && |blobs[a.objectKey].bytes| == a.byteCount && sha256(blobs[a.objectKey].bytes) == a.sha256
        && exists i :: 0 <= i < |t.artifacts| && t.artifacts[i].described == a && t.artifacts[i].etag == blobs[a.objectKey].etag
    }

    lemma RowsAreBacked(t: Tables, rows: seq<ArtifactRow>, artifacts: seq<Artifact>)
      requires artifacts == Apply(Described, rows) && ObjectsOk(rows) && forall row :: row in rows ==> row in t.artifacts
      ensures Backed(t, artifacts)
    {
      forall a | a in artifacts
        ensures a.objectKey in blobs && |blobs[a.objectKey].bytes| == a.byteCount && sha256(blobs[a.objectKey].bytes) == a.sha256
        ensures exists i :: 0 <= i < |t.artifacts| && t.artifacts[i].described == a && t.artifacts[i].etag == blobs[a.objectKey].etag
      {
        var k :| 0 <= k < |rows| && artifacts[k] == a;
        assert ObjectOk(rows[k], blobs, sha256) && rows[k] in rows;
        var i :| 0 <= i < |t.artifacts| && t.artifacts[i] == rows[k];
      }
    }

    lemma ExportIsBacked(t: Tables, id: Text, createdAt: int, m: Manifest)
      requires Exported(collation, t, id, createdAt, m) && ObjectsOk(ArtifactRows(collation, t, id))
      ensures Backed(t, m.artifacts)
    {
      ArtifactsInOrder(collation, t, id);
      forall row
        ensures row in Where(AvailableIn(id), t.artifacts) ==> row in t.artifacts
      {
        WhereMeans(AvailableIn(id), t.artifacts, row);
      }
      RowsAreBacked(t, ArtifactRows(collation, t, id), m.artifacts);
    }

    /** The manifest of the tenant as it is now, with every object checked: complete, or refused. */
    method BuildArchive(id: Text, createdAt: int) returns (r: Option<Manifest>)
      ensures r.Some? ==> Export(collation, db.tables, id, createdAt) == Ok(r.value)
      ensures r.Some? ==> ObjectsOk(ArtifactRows(collation, db.tables, id))
      ensures reliable && Exports(db.tables, id, createdAt) ==> r.Some?
      ensures r.Some? && Total(collation) && Valid(db.tables) ==>
                Complete(db.tables, id, r.value) && r.value.createdAt == createdAt && Backed(db.tables, r.value.artifacts)
      ensures Unsettled(db.tables, id) ==> r.None?
    {
      if Unsettled(db.tables, id) {
        UnsettledIsNotQuiescent(db.tables, id);
      }
      if id !in db.tables.tenants || !db.tables.tenants[id].active || !Quiescent(db.tables, id) {
        return None;
      }
      var m := Collected(collation, db.tables, id, createdAt);
      if m.None? {
        return None;
      }
      var objectsOk := ReadObjects(ArtifactRows(collation, db.tables, id));
      if !objectsOk {
        return None;
      }
      var consistent := CheckManifest(m.value);
      if consistent && Total(collation) && Valid(db.tables) {
        ExportIsComplete(collation, db.tables, id, createdAt, m.value);
        ExportIsBacked(db.tables, id, createdAt, m.value);
      }
      return if consistent then m else None;
    }

    /** The tenant was restored from the backup, and exports to a manifest with the same digest. */
    ghost predicate Matches(t: Tables, a: Archive)
      reads this`blobs
    {
      var id := a.manifest.tenant.tenantId;
      && AlreadyRestored(t, id, a.sha256)
      && Exports(t, id, a.manifest.createdAt)
      && digest(Export(collation, t, id, a.manifest.createdAt).value) == a.sha256
    }

    /** The tenant was restored from the backup, and exports to its manifest. */
    ghost predicate Holds(t: Tables, a: Archive)
      reads this`blobs
    {
      var id := a.manifest.tenant.tenantId;
      && AlreadyRestored(t, id, a.sha256)
      && Exports(t, id, a.manifest.createdAt)
      && Export(collation, t, id, a.manifest.createdAt).value == a.manifest
    }

    /** The tenant was restored from the backup, and exports to it again. */
    method VerifyRestore(a: Archive, at: int) returns (ok: bool)
      requires SessionsOk(db.tables)
      modifies db
      ensures SessionsOk(db.tables)
      ensures ok ==> Matches(old(db.tables), a)
      ensures reliable && Holds(old(db.tables), a) && a.sha256 == digest(a.manifest) ==> ok
      ensures db.tables == old(db.tables).(sessions := db.tables.sessions)
      ensures !ok ==> db.tables == old(db.tables)
      ensures ok ==> AlreadyRestored(db.tables, a.manifest.tenant.tenantId, a.sha256)
      ensures db.tables.sessions.Keys == old(db.tables).sessions.Keys
      ensures LeavesOthers(old(db.tables), db.tables, a.manifest.tenant.tenantId)
    {
      var id := a.manifest.tenant.tenantId;
      if !AlreadyRestored(db.tables, id, a.sha256) {
        return false;
      }
      var rebuilt := BuildArchive(id, a.manifest.createdAt);
      if rebuilt.None? || digest(rebuilt.value) != a.sha256 {
        return false;
      }
      db.tables := Marked(db.tables, id, at);
      ok := true;
    }

    // -------------------------------------------------------------------------------------------
    // restoreTenant
    // -------------------------------------------------------------------------------------------

    /** What verifying the archive has established. */
    ghost predicate Verified(a: Archive) {
      && Consistent(a.manifest) && a.sha256 == digest(a.manifest) && HexText(a.sha256) && Bodies(a.manifest.artifacts, a.objects)
      && forall i :: 0 <= i < |a.manifest.artifacts| ==>
           sha256(a.objects[a.manifest.artifacts[i].objectKey]) == a.manifest.artifacts[i].sha256
    }

    /** A fresh tenant with nothing in the way of its restore. */
    ghost predicate CanRestore(t: Tables, a: Archive, stored: map<Text, Blob>)
      requires Bodies(a.manifest.artifacts, a.objects)
    {
      && a.manifest.tenant.tenantId !in t.tenants
      && ManifestRowsOk(a.manifest) && ExportForm(collation, a.manifest)
      && NoConflict(a.manifest.artifacts, a.objects, stored)
    }

    /** After the transaction the tenant holds the backup. */
    lemma RestoredHolds(before: Tables, a: Archive, requestedBy: Text, uploaded: map<Text, Upload>,
                        etags: map<Text, Text>, at: int, after: Tables)
      requires Total(collation) && Valid(before) && Valid(after) && Verified(a)
      requires a.manifest.tenant.tenantId !in before.tenants && ExportForm(collation, a.manifest)
      requires Uploaded(a.manifest.artifacts, etags)
      requires after == Restored(before, a.manifest, a.sha256, requestedBy, etags, at)
      requires forall key :: key in uploaded ==> key in etags && etags[key] == uploaded[key].etag
      requires Stored(a.manifest.artifacts, a.objects, uploaded, blobs)
      ensures Holds(after, a)
    {
      var m, id := a.manifest, a.manifest.tenant.tenantId;
      ExportUndoesRestore(collation, before, m, a.sha256, requestedBy, etags, at);
      AbsentHasNoRows(before, id);
      RestoredArtifacts(collation, before, id, m.artifacts, etags, at);
      assert after.artifacts == WithArtifacts(before, m.artifacts, etags, at).artifacts;
      var rows := ArtifactRows(collation, after, id);
      assert rows == ToArtifacts(m.artifacts, etags, at);
      forall i | 0 <= i < |rows|
        ensures ObjectOk(rows[i], blobs, sha256)
      {
        assert rows[i].described == m.artifacts[i] && m.artifacts[i].objectKey in uploaded;
      }
    }

    /** The rows of all tables, without the restore ledger. */
    function Rows(t: Tables): Tables { t.(sessions := map[]) }

    /** restoreTenant; `true` when this call restored the tenant, `false` when it had been restored before. */
    method RestoreTenant(a: Archive, requestedBy: Text, at: int) returns (r: Result<bool, ServiceError>)
      requires Total(collation) && Valid(db.tables) && Verified(a)
      modifies this`blobs, this`faults, db
      ensures Valid(db.tables) && Kept(old(blobs), blobs)
      ensures LeavesOthers(old(db.tables), db.tables, a.manifest.tenant.tenantId)
      ensures r.Ok? ==> Matches(db.tables, a)
      ensures r.Err? && r.error != VerificationFailed ==> db.tables == old(db.tables)
      ensures old(faults) <= faults && (reliable ==> faults == old(faults))
      ensures r.Err? && r.error != VerificationFailed ==>
                OnlyStrays(old(blobs), |old(faults)|, ReferencedKeys(db.tables))
      ensures r == Ok(true) ==> a.manifest.tenant.tenantId !in old(db.tables).tenants
      ensures a.manifest.tenant.tenantId in old(db.tables).tenants ==>
                r != Ok(true) && Rows(db.tables) == Rows(old(db.tables)) && blobs == old(blobs)
      ensures !IdOk(requestedBy) <==> r == Err(InvalidRequester)
      ensures !IdOk(requestedBy) ==> blobs == old(blobs)
      ensures reliable && IdOk(requestedBy) && CanRestore(old(db.tables), a, old(blobs)) ==>
                r == Ok(true) && Holds(db.tables, a)
      ensures reliable && IdOk(requestedBy) && old(Holds(db.tables, a)) ==> r == Ok(false)
    {
      if !IdOk(requestedBy) {
        return Err(InvalidRequester);
      }
      var id := a.manifest.tenant.tenantId;
      if id in db.tables.tenants {
        if !AlreadyRestored(db.tables, id, a.sha256) {
          return Err(TenantExists);
        }
        r := Recheck(a, false, at);
        return;
      }
      r := RestoreAbsent(a, requestedBy, at);
    }

    /** Uploads, then the transaction, then the verification. */
    method RestoreAbsent(a: Archive, requestedBy: Text, at: int) returns (r: Result<bool, ServiceError>)
      requires Total(collation) && Valid(db.tables) && Verified(a)
      requires a.manifest.tenant.tenantId !in db.tables.tenants
      modifies this`blobs, this`faults, db
      ensures Valid(db.tables) && Kept(old(blobs), blobs)
      ensures LeavesOthers(old(db.tables), db.tables, a.manifest.tenant.tenantId)
      ensures r.Ok? ==> Matches(db.tables, a)
      ensures r.Err? && r.error != VerificationFailed ==> db.tables == old(db.tables)
      ensures old(faults) <= faults && (reliable ==> faults == old(faults))
      ensures r.Err? && r.error != VerificationFailed ==>
                OnlyStrays(old(blobs), |old(faults)|, ReferencedKeys(db.tables))
      ensures r != Err(InvalidRequester)
      ensures reliable && IdOk(requestedBy) && CanRestore(old(db.tables), a, old(blobs)) ==>
                r == Ok(true) && Holds(db.tables, a)
    {
      var uploads := UploadObjects(a.manifest.artifacts, a.objects);
      if uploads.Err? {
        return Err(uploads.error);
      }
      var committed := Commit(a, requestedBy, uploads.value, at, old(blobs), |old(faults)|);
      if !committed {
        return Err(TransactionFailed);
      }
      ghost var committedTables := db.tables;
      r := Recheck(a, true, at);
      LeavesOthersTransitively(old(db.tables), committedTables, db.tables, a.manifest.tenant.tenantId);
    }

    /** The transaction; when it fails, what was uploaded for it is taken back. */
    method Commit(a: Archive, requestedBy: Text, uploaded: map<Text, Upload>, at: int, ghost stored: map<Text, Blob>,
                  ghost start: nat)
      returns (ok: bool)
      requires Total(collation) && Valid(db.tables) && Verified(a)
      requires a.manifest.tenant.tenantId !in db.tables.tenants
      requires Kept(stored, blobs) && Stored(a.manifest.artifacts, a.objects, uploaded, blobs)
      requires AllAccounted(a.manifest.artifacts, |a.manifest.artifacts|, uploaded, stored, start)
      modifies this`blobs, this`faults, db
      ensures Valid(db.tables) && Kept(stored, blobs) && old(faults) <= faults && (reliable ==> faults == old(faults))
      ensures LeavesOthers(old(db.tables), db.tables, a.manifest.tenant.tenantId)
      ensures !ok ==> db.tables == old(db.tables) && OnlyStrays(stored, start, ReferencedKeys(db.tables))
      ensures ok && ExportForm(collation, a.manifest) ==> Holds(db.tables, a)
      ensures IdOk(requestedBy) && ManifestRowsOk(a.manifest) && EtagsFit(uploaded) ==> ok
    {
      ok := Transact(a, requestedBy, uploaded, at);
      if !ok {
        CleanupUnreferenced(a.manifest.artifacts, uploaded, stored, start);
      }
    }

    method Transact(a: Archive, requestedBy: Text, uploaded: map<Text, Upload>, at: int) returns (ok: bool)
      requires Total(collation) && Valid(db.tables) && Verified(a)
      requires a.manifest.tenant.tenantId !in db.tables.tenants
      requires Stored(a.manifest.artifacts, a.objects, uploaded, blobs)
      modifies db
      ensures Valid(db.tables)
      ensures !ok ==> db.tables == old(db.tables)
      ensures LeavesOthers(old(db.tables), db.tables, a.manifest.tenant.tenantId)
      ensures ok && ExportForm(collation, a.manifest) ==> Holds(db.tables, a)
      ensures IdOk(requestedBy) && ManifestRowsOk(a.manifest) && EtagsFit(uploaded) ==> ok
    {
      var m := a.manifest;
      var etags := Etags(uploaded);
      UploadedEtags(m.artifacts, a.objects, uploaded, blobs);
      ConsistentIsOwn(m);
      ghost var before := db.tables;
      var restored := db.RestoreTransaction(m, a.sha256, requestedBy, etags, at);
      ok := restored.Ok? && restored.value;
      if ok && ExportForm(collation, m) {
        RestoredHolds(before, a, requestedBy, uploaded, etags, at, db.tables);
      }
    }

    /** verifyRestore and the result that follows from it. */
    method Recheck(a: Archive, restored: bool, at: int) returns (r: Result<bool, ServiceError>)
      requires Valid(db.tables) && Verified(a)
      modifies db
      ensures Valid(db.tables) && Rows(db.tables) == Rows(old(db.tables))
      ensures LeavesOthers(old(db.tables), db.tables, a.manifest.tenant.tenantId)
      ensures r.Ok? ==> r.value == restored && Matches(db.tables, a)
      ensures r.Err? ==> r.error == VerificationFailed
      ensures reliable && Holds(old(db.tables), a) ==> r == Ok(restored) && Holds(db.tables, a)
    {
      ghost var before := db.tables;
      var ok := VerifyRestore(a, at);
      SessionsKeepValid(before, db.tables);
      ExportIgnoresSessions(collation, before, db.tables, a.manifest.tenant.tenantId, a.manifest.createdAt);
      r := if ok then Ok(restored) else Err(VerificationFailed);
    }
  }

  /** Whatever one store exports can be restored into any store without that tenant. */
  lemma ExportedIsRestorable(collation: Collation, t: Tables, id: Text, createdAt: int, u: Tables,
                             etags: map<Text, Text>)
    requires Total(collation) && Valid(t) && id !in u.tenants
    requires Export(collation, t, id, createdAt).Ok?
    requires Uploaded(Export(collation, t, id, createdAt).value.artifacts, etags)
    requires EtagsOk(Export(collation, t, id, createdAt).value.artifacts, etags)
    ensures var m := Export(collation, t, id, createdAt).value;
            Restorable(u, m, etags) && ExportForm(collation, m)
  {
    ExportedRowsOk(collation, t, id, createdAt);
    ExportIsInForm(collation, t, id, createdAt);
  }

  lemma SessionsKeepValid(t: Tables, u: Tables)
    requires Valid(t) && u == t.(sessions := u.sessions) && u.sessions.Keys == t.sessions.Keys
    requires SessionsOk(u)
    ensures Valid(u)
  {
    forall i | 0 <= i < |u.jobs|
      ensures CaseExists(u, u.jobs[i].tenantId, u.jobs[i].caseId)
    {
      assert CaseExists(t, t.jobs[i].tenantId, t.jobs[i].caseId);
    }
    forall i | 0 <= i < |u.keys|
      ensures JobExists(u, u.keys[i].tenantId, u.keys[i].caseId, u.keys[i].jobId)
    {
      assert JobExists(t, t.keys[i].tenantId, t.keys[i].caseId, t.keys[i].jobId);
    }
  }
}
