/**
 The artifact store's three operations as code, run against a backend that other calls keep changing.

 Between any two statements of an operation the environment may take any number of protocol steps of other
 calls. Each operation is proved to be one call of the protocol: the state it leaves is the one the protocol
 reaches by the recorded interleaving, and its answer is that call's answer.
 */
module ArtifactStore {
  import opened Wrappers
  import opened ArtifactProtocol

  /** How an UPDATE treats the recorded etag. */
  datatype EtagUpdate = Keep | Assign(etag: Option<Etag>)

  /** The database and the provider, shared by every call in flight. */
  class Backend {
    const sha: Digest
    var cells: map<Key, Cell>
    var calls: map<CallId, Call>
    var activeTenants: set<string>
    var grants: set<Grant>

    /** The interleaving so far. */
    ghost var trace: seq<Event>

    function State(): World
      reads this
    {
      World(cells, calls, activeTenants, grants)
    }

    ghost predicate Valid()
      reads this
    {
      FaithfulRun(sha, EMPTY, trace) && State() == Run(sha, EMPTY, trace)
    }

    constructor (sha: Digest)
      ensures Valid() && State() == EMPTY && this.sha == sha
    {
      this.sha := sha;
      cells, calls, activeTenants, grants := map[], map[], {}, {};
      trace := [];
    }

    lemma Invariant()
      requires Valid()
      ensures Inv(sha, State())
    {
      RunKeepsInv(sha, EMPTY, trace);
    }

    /** What the invariant says of one call in flight and its cell. */
    lemma InvariantOf(id: CallId)
      requires Valid() && id in calls
      ensures CallInv(sha, calls[id], CellAt(cells, calls[id].key)) && CellInv(sha, calls[id].key, CellAt(cells, calls[id].key))
    {
      Invariant();
      assert CallInv(sha, State().calls[id], CellOf(State(), calls[id].key));
    }

    /** The object is there as described, and the row is AVAILABLE exactly unless a deletion has claimed it. */
    ghost predicate Stores(key: Key, byteCount: nat)
      reads this
    {
      InPlace(sha, State(), key, byteCount)
    }

    /** So it is, and no deletion has. */
    ghost predicate Publishes(key: Key, byteCount: nat)
      reads this
    {
      Stores(key, byteCount) && CellAt(cells, key).row.value.status == Available
    }

    /** The artifact is deleted, and its object is gone. */
    predicate Gone(key: Key)
      reads this
    {
      var cell := CellAt(cells, key);
      cell.row.Some? && cell.row.value.status == Deleted && cell.blob.None?
    }

    // --- one step of the protocol -----------------------------------------------------------------

    /** Everything a statement of call `id` may leave to others: its own program counter, and the past. */
    twostate predicate Continues(id: CallId)
      reads this
    {
      && Valid()
      && old(trace) <= trace
      && id in calls && old(id in calls) && calls[id] == old(calls[id])
    }

    /** Since the operation began there was a state in which its request could be admitted. */
    ghost predicate WasAdmitted(from: nat, key: Key, request: Request)
      reads this
    {
      AdmittedSince(sha, trace, from, key, request)
    }

    /** A call that has begun since, and was let in. */
    twostate lemma AdmittedDuring(id: CallId)
      requires old(Valid()) && old(id !in calls)
      requires Valid() && old(trace) <= trace && id in calls && LetIn(calls[id])
      ensures WasAdmitted(|old(trace)|, calls[id].key, calls[id].request)
    {
      assert trace[..|old(trace)|] == old(trace);
      assert id !in old(State()).calls;
      assert State().calls[id] == calls[id];
      LetInWasAdmitted(sha, trace, |old(trace)|, id);
    }

    /** Any schedule of the other calls. */
    method Others(id: CallId)
      requires Valid() && id in calls
      modifies this
      ensures Continues(id)
    {
      var schedule: seq<Event> := *;
      for i := 0 to |schedule|
        invariant Continues(id)
      {
        var e := schedule[i];
        if !(e.Advance? && e.id == id) && Faithful(State(), e) {
          RunSnoc(sha, EMPTY, trace, e);
          var next := Next(sha, State(), e);
          cells, calls, activeTenants, grants := next.cells, next.calls, next.activeTenants, next.grants;
          trace := trace + [e];
        }
      }
    }

    method Start(id: CallId, key: Key, request: Request)
      requires Valid() && id !in calls
      modifies this
      ensures Valid() && old(trace) <= trace
      ensures id in calls && calls[id] == Call(key, request, FirstPhase(sha, key, request))
    {
      RunSnoc(sha, EMPTY, trace, Begin(id, key, request));
      calls := calls[id := Call(key, request, FirstPhase(sha, key, request))];
      trace := trace + [Begin(id, key, request)];
    }

    /** The statement just executed by call `id` on the cells is the protocol's step; move its program counter. */
    method Enter(id: CallId, phase: Phase, ghost before: World, ghost o: Outcome)
      requires FaithfulRun(sha, EMPTY, trace) && before == Run(sha, EMPTY, trace)
      requires id in before.calls && Faithful(before, Advance(id, o))
      requires State() == before.(cells := cells)
      requires EffectOf(sha, before, id, o) == Effect(CellAt(cells, before.calls[id].key), phase)
      requires cells == WithCell(before.cells, before.calls[id].key, CellAt(cells, before.calls[id].key))
      modifies this`calls, this`trace
      ensures Valid() && old(trace) <= trace && State() == Next(sha, before, Advance(id, o))
      ensures id in calls && calls[id] == before.calls[id].(phase := phase)
    {
      RunSnoc(sha, EMPTY, trace, Advance(id, o));
      calls := calls[id := calls[id].(phase := phase)];
      trace := trace + [Advance(id, o)];
    }

    // --- SQL statements ---------------------------------------------------------------------------

    /** INSERT ... ON CONFLICT DO NOTHING RETURNING * */
    method InsertPending(key: Key, byteCount: nat) returns (row: Option<Row>)
      modifies this`cells
      ensures var cell := CellAt(old(cells), key);
              if cell.row.Some? then row == None && cells == old(cells)
              else row == Some(Row(Pending, 1, byteCount, None)) && cells == WithCell(old(cells), key, cell.(row := row))
    {
      var cell := CellAt(cells, key);
      row := None;
      if cell.row.None? {
        row := Some(Row(Pending, 1, byteCount, None));
        cells := cells[key := cell.(row := row)];
      }
    }

    method SelectRow(key: Key) returns (row: Option<Row>)
      ensures row == CellAt(cells, key).row
    {
      row := CellAt(cells, key).row;
    }

    /** UPDATE ... SET status, version = version + 1 WHERE status = from AND version = expected RETURNING * */
    method UpdateRow(key: Key, from: Status, expected: nat, to: Status, etag: EtagUpdate) returns (row: Option<Row>)
      modifies this`cells
      ensures var cell := CellAt(old(cells), key);
              if Hits(cell, from, expected) then
                var next := Written(cell, to, if etag.Keep? then cell.row.value.etag else etag.etag);
                row == next.row && cells == WithCell(old(cells), key, next) && CellAt(cells, key) == next
              else row == None && cells == old(cells)
    {
      var cell := CellAt(cells, key);
      row := None;
      if Hits(cell, from, expected) {
        var current := cell.row.value;
        row := Some(Row(to, current.version + 1, current.byteCount, if etag.Keep? then current.etag else etag.etag));
        cells := cells[key := cell.(row := row)];
      }
    }

    // --- provider calls ---------------------------------------------------------------------------

    /** Never overwrites; may throw before or after taking effect. `None` is a throw. */
    method Upload(key: Key, bytes: Bytes) returns (uploaded: Option<Etag>, ghost o: Outcome)
      modifies this`cells
      ensures var cell := CellAt(old(cells), key);
              if o.reply == Throws || cell.blob.Some? then uploaded == None && cells == old(cells)
              else
                && uploaded == (if o.reply == LosesReply then None else Some(o.etag))
                && cells == WithCell(old(cells), key, cell.(blob := Some(Blob(bytes, o.etag))))
                && CellAt(cells, key) == cell.(blob := Some(Blob(bytes, o.etag)))
    {
      var reply: Reply, etag: Etag := *, *;
      o := Outcome(reply, etag);
      var cell := CellAt(cells, key);
      uploaded := None;
      if reply != Throws && cell.blob.None? {
        cells := cells[key := cell.(blob := Some(Blob(bytes, etag)))];
        if reply == Answers {
          uploaded := Some(etag);
        }
      }
    }

    /** `get` and `head`: the stored object, unless the provider throws. */
    method Fetch(key: Key) returns (threw: bool, blob: Option<Blob>, ghost o: Outcome)
      ensures threw == (o.reply != Answers)
      ensures !threw ==> blob == CellAt(cells, key).blob
    {
      threw := *;
      blob := CellAt(cells, key).blob;
      o := Outcome(if threw then Throws else Answers, 0);
    }

    /** A conditional delete when an etag is given; may throw before, or unless faithful also after, taking effect. */
    method Erase(key: Key, etag: Option<Etag>, faithful: bool) returns (threw: bool, deleted: bool, ghost o: Outcome)
      modifies this`cells
      ensures threw <==> o.reply != Answers
      ensures faithful ==> o.reply != LosesReply
      ensures var cell := CellAt(old(cells), key);
              && cells == WithCell(old(cells), key, Discarded(cell, etag, o))
              && CellAt(cells, key) == Discarded(cell, etag, o)
              && (!threw ==> deleted == (Discarded(cell, etag, o) != cell))
    {
      var reply: Reply := *;
      if faithful && reply == LosesReply {
        reply := Throws;
      }
      o := Outcome(reply, 0);
      threw, deleted := reply != Answers, false;
      var cell := CellAt(cells, key);
      if reply != Throws && cell.blob.Some? && (etag == None || etag.value == cell.blob.value.etag) {
        cells := cells[key := cell.(blob := None)];
        deleted := !threw;
      }
    }
  }

  const FINE := Outcome(Answers, 0)

  method PutArtifact(backend: Backend, id: CallId, key: Key, bytes: Bytes, byteCount: nat) returns (answer: Answer)
    requires backend.Valid() && id !in backend.calls
    modifies backend
    ensures backend.Valid() && old(backend.trace) <= backend.trace
    ensures id in backend.calls && backend.calls[id] == Call(key, Put(bytes, byteCount), Done(answer))
    ensures answer.Stored? ==> backend.Stores(key, answer.byteCount)
    ensures answer.Stored? ==> backend.WasAdmitted(|old(backend.trace)|, key, Put(bytes, byteCount))
  {
    backend.Start(id, key, Put(bytes, byteCount));
    if byteCount != |bytes| || key.sha256 != backend.sha(bytes) {
      return Thrown(IntegrityMismatch);
    }
    answer := InsertOrReuse(backend, id);
    if answer.Stored? {
      backend.AdmittedDuring(id);
    }
  }

  /** From the first transaction on: write the row inserted or taken over, or answer from the one that is there. */
  method InsertOrReuse(backend: Backend, id: CallId) returns (answer: Answer)
    requires backend.Valid() && id in backend.calls
    requires backend.calls[id].request.Put? && backend.calls[id].phase == PutInsert
    modifies backend
    ensures backend.Valid() && old(backend.trace) <= backend.trace
    ensures id in backend.calls && backend.calls[id] == old(backend.calls[id]).(phase := Done(answer))
    ensures answer.Stored? ==> backend.Stores(backend.calls[id].key, answer.byteCount)
  {
    backend.Others(id);
    var active, row := InsertRow(backend, id);
    if !active {
      return Thrown(TenantUnavailable);
    }
    backend.Others(id);
    if row.None? {
      row, answer := ReuseExisting(backend, id);
    }
    if row.Some? {
      backend.Others(id);
      answer := WritePending(backend, id, row.value);
    }
  }

  /** The first transaction: the tenant must be active, and the row is inserted unless there is one. */
  method InsertRow(backend: Backend, id: CallId) returns (active: bool, row: Option<Row>)
    requires backend.Valid() && id in backend.calls
    requires backend.calls[id].request.Put? && backend.calls[id].phase == PutInsert
    modifies backend
    ensures backend.Valid() && old(backend.trace) <= backend.trace
    ensures id in backend.calls
    ensures backend.calls[id] == old(backend.calls[id]).(phase :=
              if !active then Done(Thrown(TenantUnavailable)) else if row.Some? then PutBlob(row.value) else PutFind)
  {
    var key := backend.calls[id].key;
    ghost var before := backend.State();
    active, row := key.tenantId in backend.activeTenants, None;
    if !active {
      backend.Enter(id, Done(Thrown(TenantUnavailable)), before, FINE);
      return;
    }
    row := backend.InsertPending(key, backend.calls[id].request.byteCount);
    backend.Enter(id, if row.Some? then PutBlob(row.value) else PutFind, before, FINE);
  }

  /** The identity already has a row: answer from it, refuse, or take over a failed write. */
  method ReuseExisting(backend: Backend, id: CallId) returns (reclaimed: Option<Row>, answer: Answer)
    requires backend.Valid() && id in backend.calls
    requires backend.calls[id].request.Put? && backend.calls[id].phase == PutFind
    modifies backend
    ensures backend.Valid() && old(backend.trace) <= backend.trace
    ensures id in backend.calls
    ensures backend.calls[id] == old(backend.calls[id]).(phase := if reclaimed.Some? then PutBlob(reclaimed.value) else Done(answer))
    ensures reclaimed.None? && answer.Stored? ==> backend.Stores(backend.calls[id].key, answer.byteCount)
  {
    reclaimed := None;
    ghost var before := backend.State();
    var row := backend.SelectRow(backend.calls[id].key);
    if row.None? {
      answer := Thrown(ProviderUnavailable);
      backend.Enter(id, Done(answer), before, FINE);
      return;
    }
    var found := row.value;
    if found.status == Available {
      backend.Enter(id, PutHead(found), before, FINE);
      backend.Others(id);
      answer := VerifyAvailable(backend, id, found);
    } else if found.status == Failed {
      backend.Enter(id, PutReclaim(found), before, FINE);
      backend.Others(id);
      reclaimed, answer := Reclaim(backend, id, found);
    } else {
      answer := Thrown(StillPending);
      backend.Enter(id, Done(answer), before, FINE);
    }
  }

  method Reclaim(backend: Backend, id: CallId, found: Row) returns (reclaimed: Option<Row>, answer: Answer)
    requires backend.Valid() && id in backend.calls
    requires backend.calls[id].request.Put? && backend.calls[id].phase == PutReclaim(found)
    modifies backend
    ensures backend.Valid() && old(backend.trace) <= backend.trace
    ensures id in backend.calls
    ensures backend.calls[id] == old(backend.calls[id]).(phase := if reclaimed.Some? then PutBlob(reclaimed.value) else Done(answer))
    ensures answer == Thrown(StillPending)
  {
    answer := Thrown(StillPending);
    ghost var before := backend.State();
    reclaimed := backend.UpdateRow(backend.calls[id].key, Failed, found.version, Pending, Assign(None));
    backend.Enter(id, if reclaimed.Some? then PutBlob(reclaimed.value) else Done(answer), before, FINE);
  }

  method VerifyAvailable(backend: Backend, id: CallId, row: Row) returns (answer: Answer)
    requires backend.Valid() && id in backend.calls
    requires backend.calls[id].request.Put? && backend.calls[id].phase == PutHead(row)
    modifies backend
    ensures backend.Valid() && old(backend.trace) <= backend.trace
    ensures id in backend.calls && backend.calls[id] == old(backend.calls[id]).(phase := Done(answer))
    ensures answer.Stored? ==> backend.Stores(backend.calls[id].key, answer.byteCount)
  {
    backend.Invariant();
    ghost var before := backend.State();
    var threw, blob, o := backend.Fetch(backend.calls[id].key);
    answer := if threw then Thrown(ProviderUnavailable)
              else if Matches(row, blob) then Stored(row.byteCount)
              else Thrown(IntegrityMismatch);
    backend.Enter(id, Done(answer), before, o);
    if answer.Stored? {
      StoredExactly(backend.sha, before, id, o);
    }
  }

  /** The upload, or the adoption of an orphan, and the publication of the row. */
  method WritePending(backend: Backend, id: CallId, row: Row) returns (answer: Answer)
    requires backend.Valid() && id in backend.calls
    requires backend.calls[id].request.Put? && backend.calls[id].phase == PutBlob(row)
    modifies backend
    ensures backend.Valid() && old(backend.trace) <= backend.trace
    ensures id in backend.calls && backend.calls[id] == old(backend.calls[id]).(phase := Done(answer))
    ensures answer.Stored? ==> backend.Publishes(backend.calls[id].key, answer.byteCount)
  {
    var metadata, error := UploadObject(backend, id, row);
    backend.Others(id);
    if metadata.None? {
      metadata, error := Adopt(backend, id, row);
      backend.Others(id);
    }
    if error.None? {
      error, answer := Publish(backend, id, row, metadata.value);
      if error.Some? {
        backend.Others(id);
      }
    }
    if error.Some? {
      answer := Compensate(backend, id, row, metadata, error.value);
    }
  }

  /** No metadata when the provider threw, whether or not the object was written. */
  method UploadObject(backend: Backend, id: CallId, row: Row) returns (metadata: Option<Etag>, error: Option<Code>)
    requires backend.Valid() && id in backend.calls
    requires backend.calls[id].request.Put? && backend.calls[id].phase == PutBlob(row)
    modifies backend
    ensures backend.Valid() && old(backend.trace) <= backend.trace
    ensures id in backend.calls
    ensures backend.calls[id] == old(backend.calls[id]).(phase :=
              if metadata.None? then PutAdopt(row)
              else if error.None? then PutFinalize(row, metadata.value) else PutCompensate(row, metadata, error.value))
  {
    var key, bytes := backend.calls[id].key, backend.calls[id].request.bytes;
    ghost var before := backend.State();
    ghost var o;
    metadata, o := backend.Upload(key, bytes);
    error := if metadata.Some? && |bytes| != row.byteCount then Some(IntegrityMismatch) else None;
    backend.Enter(id, if metadata.None? then PutAdopt(row)
                      else if error.None? then PutFinalize(row, metadata.value) else PutCompensate(row, metadata, error.value),
                  before, o);
  }

  /** The upload threw: take over the stored object if it is the one this row describes. */
  method Adopt(backend: Backend, id: CallId, row: Row) returns (metadata: Option<Etag>, error: Option<Code>)
    requires backend.Valid() && id in backend.calls
    requires backend.calls[id].request.Put? && backend.calls[id].phase == PutAdopt(row)
    modifies backend
    ensures backend.Valid() && old(backend.trace) <= backend.trace
    ensures id in backend.calls && metadata.Some? == error.None?
    ensures backend.calls[id] == old(backend.calls[id]).(phase :=
              if error.None? then PutFinalize(row, metadata.value) else PutCompensate(row, metadata, error.value))
  {
    var key := backend.calls[id].key;
    ghost var before := backend.State();
    var threw, orphan, o := backend.Fetch(key);
    if threw || orphan.None? || |orphan.value.bytes| != row.byteCount || backend.sha(orphan.value.bytes) != key.sha256 {
      metadata, error := None, Some(ProviderUnavailable);
      backend.Enter(id, PutCompensate(row, None, ProviderUnavailable), before, o);
    } else {
      metadata, error := Some(orphan.value.etag), None;
      backend.Enter(id, PutFinalize(row, orphan.value.etag), before, o);
    }
  }

  method Publish(backend: Backend, id: CallId, row: Row, etag: Etag) returns (error: Option<Code>, answer: Answer)
    requires backend.Valid() && id in backend.calls
    requires backend.calls[id].request.Put? && backend.calls[id].phase == PutFinalize(row, etag)
    modifies backend
    ensures backend.Valid() && old(backend.trace) <= backend.trace
    ensures id in backend.calls
    ensures backend.calls[id] == old(backend.calls[id]).(phase :=
              if error.None? then Done(answer) else PutCompensate(row, Some(etag), error.value))
    ensures error.None? ==> answer.Stored? && backend.Publishes(backend.calls[id].key, answer.byteCount)
  {
    backend.Invariant();
    answer := Stored(row.byteCount);
    ghost var before := backend.State();
    var available := backend.UpdateRow(backend.calls[id].key, Pending, row.version, Available, Assign(Some(etag)));
    error := if available.Some? then None else Some(StillPending);
    backend.Enter(id, if available.Some? then Done(answer) else PutCompensate(row, Some(etag), StillPending), before, FINE);
    if available.Some? {
      StoredExactly(backend.sha, before, id, FINE);
    }
  }

  /** The catch block of a failed write: drop the object, record the failure, rethrow. */
  method Compensate(backend: Backend, id: CallId, row: Row, metadata: Option<Etag>, code: Code) returns (answer: Answer)
    requires backend.Valid() && id in backend.calls
    requires backend.calls[id].request.Put? && backend.calls[id].phase == PutCompensate(row, metadata, code)
    modifies backend
    ensures backend.Valid() && old(backend.trace) <= backend.trace
    ensures id in backend.calls && backend.calls[id] == old(backend.calls[id]).(phase := Done(answer))
    ensures answer == Thrown(code)
  {
    var key := backend.calls[id].key;
    ghost var before := backend.State();
    var _, _, o := backend.Erase(key, metadata, false);
    backend.Enter(id, PutFail(row, code), before, o);
    backend.Others(id);
    before := backend.State();
    var _ := backend.UpdateRow(key, Pending, row.version, Failed, Assign(None));
    answer := Thrown(code);
    backend.Enter(id, Done(answer), before, FINE);
  }

  method ReadArtifact(backend: Backend, id: CallId, key: Key, callerId: string) returns (answer: Answer)
    requires backend.Valid() && id !in backend.calls
    modifies backend
    ensures backend.Valid() && old(backend.trace) <= backend.trace
    ensures id in backend.calls && backend.calls[id] == Call(key, Read(callerId), Done(answer))
    ensures answer.Bytes? ==> backend.sha(answer.bytes) == key.sha256 && |answer.bytes| == answer.byteCount
    ensures answer != Absent ==> backend.WasAdmitted(|old(backend.trace)|, key, Read(callerId))
  {
    backend.Start(id, key, Read(callerId));
    backend.Others(id);
    var row := SelectReadable(backend, id, callerId);
    if row.None? {
      return Absent;
    }
    backend.Others(id);
    answer := FetchVerified(backend, id, row.value);
    backend.AdmittedDuring(id);
  }

  method SelectReadable(backend: Backend, id: CallId, callerId: string) returns (row: Option<Row>)
    requires backend.Valid() && id in backend.calls
    requires backend.calls[id].request == Read(callerId) && backend.calls[id].phase == ReadFind
    modifies backend
    ensures backend.Valid() && old(backend.trace) <= backend.trace
    ensures id in backend.calls
    ensures backend.calls[id] == old(backend.calls[id]).(phase := if row.Some? then ReadGet(row.value) else Done(Absent))
  {
    var key := backend.calls[id].key;
    ghost var before := backend.State();
    row := backend.SelectRow(key);
    if row.None? || row.value.status != Available || Grant(key.tenantId, key.caseId, callerId) !in backend.grants {
      row := None;
    }
    backend.Enter(id, if row.Some? then ReadGet(row.value) else Done(Absent), before, FINE);
  }

  method FetchVerified(backend: Backend, id: CallId, row: Row) returns (answer: Answer)
    requires backend.Valid() && id in backend.calls
    requires backend.calls[id].request.Read? && backend.calls[id].phase == ReadGet(row)
    modifies backend
    ensures answer != Absent
    ensures backend.Valid() && old(backend.trace) <= backend.trace
    ensures id in backend.calls && backend.calls[id] == old(backend.calls[id]).(phase := Done(answer))
    ensures answer.Bytes? ==> backend.sha(answer.bytes) == backend.calls[id].key.sha256 && |answer.bytes| == answer.byteCount
  {
    var key := backend.calls[id].key;
    ghost var before := backend.State();
    var threw, stored, o := backend.Fetch(key);
    if threw {
      answer := Thrown(ProviderUnavailable);
    } else if !Matches(row, stored) || backend.sha(stored.value.bytes) != key.sha256 {
      answer := Thrown(IntegrityMismatch);
    } else {
      answer := Answer.Bytes(stored.value.bytes, row.byteCount);
    }
    backend.Enter(id, Done(answer), before, o);
  }

  method DeleteArtifact(backend: Backend, id: CallId, key: Key, callerId: string) returns (answer: Answer)
    requires backend.Valid() && id !in backend.calls
    modifies backend
    ensures backend.Valid() && old(backend.trace) <= backend.trace
    ensures id in backend.calls && backend.calls[id] == Call(key, Delete(callerId), Done(answer))
    ensures answer == Removed(true) ==> backend.Gone(key)
    ensures answer != Removed(false) ==> backend.WasAdmitted(|old(backend.trace)|, key, Delete(callerId))
  {
    backend.Start(id, key, Delete(callerId));
    backend.Others(id);
    var row := FindAuthorized(backend, id, callerId);
    if row.None? {
      return Removed(false);
    }
    backend.Others(id);
    answer := ClaimAndErase(backend, id, row.value);
    if answer != Removed(false) {
      backend.AdmittedDuring(id);
    }
  }

  method ClaimAndErase(backend: Backend, id: CallId, row: Row) returns (answer: Answer)
    requires backend.Valid() && id in backend.calls
    requires backend.calls[id].request.Delete? && backend.calls[id].phase == DeleteClaim(row) && row.etag.Some?
    modifies backend
    ensures backend.Valid() && old(backend.trace) <= backend.trace
    ensures id in backend.calls && backend.calls[id] == old(backend.calls[id]).(phase := Done(answer))
    ensures answer == Removed(true) ==> backend.Gone(backend.calls[id].key)
  {
    var claimed := Claim(backend, id, row);
    if claimed.None? {
      return Removed(false);
    }
    backend.Others(id);
    answer := EraseClaimed(backend, id, claimed.value, row.etag.value);
  }

  method FindAuthorized(backend: Backend, id: CallId, callerId: string) returns (row: Option<Row>)
    requires backend.Valid() && id in backend.calls
    requires backend.calls[id].request == Delete(callerId) && backend.calls[id].phase == DeleteFind
    modifies backend
    ensures backend.Valid() && old(backend.trace) <= backend.trace
    ensures id in backend.calls && (row.Some? ==> row.value.etag.Some?)
    ensures backend.calls[id] == old(backend.calls[id]).(phase := if row.Some? then DeleteClaim(row.value) else Done(Removed(false)))
  {
    var key := backend.calls[id].key;
    ghost var before := backend.State();
    row := backend.SelectRow(key);
    if || row.None? || row.value.status != Available || row.value.etag.None?
       || Grant(key.tenantId, key.caseId, callerId) !in backend.grants
    {
      row := None;
    }
    backend.Enter(id, if row.Some? then DeleteClaim(row.value) else Done(Removed(false)), before, FINE);
  }

  method Claim(backend: Backend, id: CallId, row: Row) returns (claimed: Option<Row>)
    requires backend.Valid() && id in backend.calls
    requires backend.calls[id].request.Delete? && backend.calls[id].phase == DeleteClaim(row) && row.etag.Some?
    modifies backend
    ensures backend.Valid() && old(backend.trace) <= backend.trace
    ensures id in backend.calls
    ensures backend.calls[id] == old(backend.calls[id]).(phase :=
              if claimed.Some? then DeleteBlob(claimed.value, row.etag.value) else Done(Removed(false)))
  {
    ghost var before := backend.State();
    claimed := backend.UpdateRow(backend.calls[id].key, Available, row.version, Deleting, Keep);
    backend.Enter(id, if claimed.Some? then DeleteBlob(claimed.value, row.etag.value) else Done(Removed(false)), before, FINE);
  }

  /** The claimed deletion: erase the object, then complete the row, or give it back. */
  method EraseClaimed(backend: Backend, id: CallId, row: Row, etag: Etag) returns (answer: Answer)
    requires backend.Valid() && id in backend.calls
    requires backend.calls[id].request.Delete? && backend.calls[id].phase == DeleteBlob(row, etag)
    modifies backend
    ensures backend.Valid() && old(backend.trace) <= backend.trace
    ensures id in backend.calls && backend.calls[id] == old(backend.calls[id]).(phase := Done(answer))
    ensures answer == Removed(true) ==> backend.Gone(backend.calls[id].key)
  {
    var erased := EraseObject(backend, id, row, etag);
    backend.Others(id);
    if erased {
      erased := Complete(backend, id, row);
      if erased {
        return Removed(true);
      }
      backend.Others(id);
    }
    answer := GiveBack(backend, id, row);
  }

  /** The catch block of a failed deletion. */
  method GiveBack(backend: Backend, id: CallId, row: Row) returns (answer: Answer)
    requires backend.Valid() && id in backend.calls
    requires backend.calls[id].request.Delete? && backend.calls[id].phase == DeleteRestore(row)
    modifies backend
    ensures backend.Valid() && old(backend.trace) <= backend.trace
    ensures id in backend.calls && backend.calls[id] == old(backend.calls[id]).(phase := Done(answer))
    ensures answer == Thrown(ProviderUnavailable)
  {
    ghost var before := backend.State();
    var _ := backend.UpdateRow(backend.calls[id].key, Deleting, row.version, Available, Keep);
    answer := Thrown(ProviderUnavailable);
    backend.Enter(id, Done(answer), before, FINE);
  }

  method EraseObject(backend: Backend, id: CallId, row: Row, etag: Etag) returns (erased: bool)
    requires backend.Valid() && id in backend.calls
    requires backend.calls[id].request.Delete? && backend.calls[id].phase == DeleteBlob(row, etag)
    modifies backend
    ensures backend.Valid() && old(backend.trace) <= backend.trace
    ensures id in backend.calls
    ensures backend.calls[id] == old(backend.calls[id]).(phase := if erased then DeleteComplete(row) else DeleteRestore(row))
  {
    var key := backend.calls[id].key;
    ghost var before := backend.State();
    var threw, deleted, o := backend.Erase(key, Some(etag), true);
    erased := !threw && deleted;
    backend.Enter(id, if threw then DeleteRestore(row) else if deleted then DeleteComplete(row) else DeleteHead(row), before, o);
    if !threw && !deleted {
      backend.Others(id);
      before := backend.State();
      var headThrew, remaining, lookup := backend.Fetch(key);
      erased := !headThrew && remaining.None?;
      backend.Enter(id, if erased then DeleteComplete(row) else DeleteRestore(row), before, lookup);
    }
  }

  method Complete(backend: Backend, id: CallId, row: Row) returns (completed: bool)
    requires backend.Valid() && id in backend.calls
    requires backend.calls[id].request.Delete? && backend.calls[id].phase == DeleteComplete(row)
    modifies backend
    ensures backend.Valid() && old(backend.trace) <= backend.trace
    ensures id in backend.calls
    ensures backend.calls[id] == old(backend.calls[id]).(phase := if completed then Done(Removed(true)) else DeleteRestore(row))
    ensures completed ==> backend.Gone(backend.calls[id].key)
  {
    backend.InvariantOf(id);
    ghost var before := backend.State();
    var deleted := backend.UpdateRow(backend.calls[id].key, Deleting, row.version, Deleted, Keep);
    completed := deleted.Some?;
    backend.Enter(id, if completed then Done(Removed(true)) else DeleteRestore(row), before, FINE);
  }
}
