/**
 The content-addressed artifact store as a protocol.

 One database row and one private blob per content identity are changed by any number of concurrent
 `put`, `read` and `delete` calls. Every SQL statement and every provider call is one atomic step; the
 calls coordinate only through compare-and-swap on the row's version.
 */
module ArtifactProtocol {
  import opened Wrappers

  type Byte = b: int | 0 <= b < 256
  type Bytes = seq<Byte>
  type Etag = nat
  type CallId = nat

  /** SHA-256 is a parameter: nothing below needs it to be collision free. */
  type Digest = Bytes -> string

  datatype Kind = Source | RunLog | RunOutput | Bundle | BackupManifest

  /** The content identity; the provider's object key is exactly these four segments. */
  datatype Key = Key(tenantId: string, caseId: string, kind: Kind, sha256: string)

  datatype Status = Pending | Available | Deleting | Deleted | Failed

  datatype Row = Row(status: Status, version: nat, byteCount: nat, etag: Option<Etag>)

  datatype Blob = Blob(bytes: Bytes, etag: Etag)

  /** What the database and the provider hold for one key. */
  datatype Cell = Cell(row: Option<Row>, blob: Option<Blob>)

  datatype Code = IntegrityMismatch | StillPending | ProviderUnavailable | TenantUnavailable

  datatype Answer =
    | Stored(byteCount: nat)
    | Bytes(bytes: Bytes, byteCount: nat)
    | Absent
    | Removed(deleted: bool)
    | Thrown(code: Code)

  datatype Request =
    | Put(bytes: Bytes, byteCount: nat)
    | Read(callerId: string)
    | Delete(callerId: string)

  /** The program counter of one call, with the locals that are live there. */
  datatype Phase =
    | PutInsert
    | PutFind
    | PutHead(row: Row)
    | PutReclaim(row: Row)
    | PutBlob(row: Row)
    | PutAdopt(row: Row)
    | PutFinalize(row: Row, uploaded: Etag)
    | PutCompensate(row: Row, uploaded': Option<Etag>, code: Code)
    | PutFail(row: Row, code: Code)
    | ReadFind
    | ReadGet(row: Row)
    | DeleteFind
    | DeleteClaim(row: Row)
    | DeleteBlob(row: Row, expected: Etag)
    | DeleteHead(row: Row)
    | DeleteComplete(row: Row)
    | DeleteRestore(row: Row)
    | Done(answer: Answer)

  datatype Call = Call(key: Key, request: Request, phase: Phase)

  /** How the provider answers: normally, by throwing without effect, or by throwing after the effect. */
  datatype Reply = Answers | Throws | LosesReply

  datatype Outcome = Outcome(reply: Reply, etag: Etag)

  datatype Grant = Grant(tenantId: string, caseId: string, callerId: string)

  datatype World = World(cells: map<Key, Cell>, calls: map<CallId, Call>, activeTenants: set<string>, grants: set<Grant>)

  datatype Event =
    | Begin(id: CallId, key: Key, request: Request)
    | Advance(id: CallId, outcome: Outcome)
    | Govern(activeTenants: set<string>, grants: set<Grant>)

  // ---------------------------------------------------------------------------------------------
  // One atomic step
  // ---------------------------------------------------------------------------------------------

  function CellAt(cells: map<Key, Cell>, key: Key): Cell {
    if key in cells then cells[key] else Cell(None, None)
  }

  function CellOf(w: World, key: Key): Cell { CellAt(w.cells, key) }

  function WithCell(cells: map<Key, Cell>, key: Key, cell: Cell): map<Key, Cell> {
    if CellAt(cells, key) == cell then cells else cells[key := cell]
  }

  /** The row an `UPDATE ... WHERE status = s AND version = v` would hit. */
  predicate Hits(cell: Cell, status: Status, version: nat) {
    cell.row.Some? && cell.row.value.status == status && cell.row.value.version == version
  }

  function Written(cell: Cell, status: Status, etag: Option<Etag>): Cell
    requires cell.row.Some?
  {
    var row := cell.row.value;
    cell.(row := Some(row.(status := status, version := row.version + 1, etag := etag)))
  }

  /** `metadataMatches` with a recorded etag; a provider answers with the pathname it was asked for. */
  predicate Matches(row: Row, blob: Option<Blob>) {
    && blob.Some?
    && |blob.value.bytes| == row.byteCount
    && (row.etag == None || row.etag == Some(blob.value.etag))
  }

  datatype Effect = Effect(cell: Cell, phase: Phase)

  function PutStep(sha: Digest, key: Key, bytes: Bytes, byteCount: nat, phase: Phase, cell: Cell, active: bool, o: Outcome): Effect
  {
    match phase
    case PutInsert =>
      if !active then Effect(cell, Done(Thrown(TenantUnavailable)))
      else if cell.row.Some? then Effect(cell, PutFind)
      else
        var row := Row(Pending, 1, byteCount, None);
        Effect(cell.(row := Some(row)), PutBlob(row))
    case PutFind =>
      if cell.row.None? then Effect(cell, Done(Thrown(ProviderUnavailable)))
      else
        var row := cell.row.value;
        if row.status == Available then Effect(cell, PutHead(row))
        else if row.status == Failed then Effect(cell, PutReclaim(row))
        else Effect(cell, Done(Thrown(StillPending)))
    case PutHead(row) =>
      if o.reply != Answers then Effect(cell, Done(Thrown(ProviderUnavailable)))
      else if Matches(row, cell.blob) then Effect(cell, Done(Stored(row.byteCount)))
      else Effect(cell, Done(Thrown(IntegrityMismatch)))
    case PutReclaim(row) =>
      if Hits(cell, Failed, row.version) then
        var next := Written(cell, Pending, None);
        Effect(next, PutBlob(next.row.value))
      else Effect(cell, Done(Thrown(StillPending)))
    case PutBlob(row) =>
      // The provider never overwrites, so an upload over an existing object throws without effect.
      if o.reply == Throws || cell.blob.Some? then Effect(cell, PutAdopt(row))
      else
        var next := cell.(blob := Some(Blob(bytes, o.etag)));
        if o.reply == LosesReply then Effect(next, PutAdopt(row))
        else if |bytes| == row.byteCount then Effect(next, PutFinalize(row, o.etag))
        else Effect(next, PutCompensate(row, Some(o.etag), IntegrityMismatch))
    case PutAdopt(row) =>
      if && o.reply == Answers
         && cell.blob.Some?
         && |cell.blob.value.bytes| == row.byteCount
         && sha(cell.blob.value.bytes) == key.sha256
      then Effect(cell, PutFinalize(row, cell.blob.value.etag))
      else Effect(cell, PutCompensate(row, None, ProviderUnavailable))
    case PutFinalize(row, uploaded) =>
      if Hits(cell, Pending, row.version) then
        Effect(Written(cell, Available, Some(uploaded)), Done(Stored(row.byteCount)))
      else Effect(cell, PutCompensate(row, Some(uploaded), StillPending))
    case PutCompensate(row, uploaded, code) =>
      Effect(Discarded(cell, uploaded, o), PutFail(row, code))
    case PutFail(row, code) =>
      Effect(if Hits(cell, Pending, row.version) then Written(cell, Failed, None) else cell, Done(Thrown(code)))
    case _ => Effect(cell, phase)
  }

  /** `blobs.delete(key, etag?)`: no effect when it throws, or when the given etag is not the stored one. */
  function Discarded(cell: Cell, etag: Option<Etag>, o: Outcome): Cell {
    if o.reply == Throws then cell
    else if cell.blob.Some? && (etag == None || etag.value == cell.blob.value.etag) then cell.(blob := None)
    else cell
  }

  function ReadStep(sha: Digest, key: Key, phase: Phase, cell: Cell, authorized: bool, o: Outcome): Effect
  {
    match phase
    case ReadFind =>
      if authorized && cell.row.Some? && cell.row.value.status == Available
      then Effect(cell, ReadGet(cell.row.value))
      else Effect(cell, Done(Absent))
    case ReadGet(row) =>
      if o.reply != Answers then Effect(cell, Done(Thrown(ProviderUnavailable)))
      else if Matches(row, cell.blob) && sha(cell.blob.value.bytes) == key.sha256
      then Effect(cell, Done(Answer.Bytes(cell.blob.value.bytes, row.byteCount)))
      else Effect(cell, Done(Thrown(IntegrityMismatch)))
    case _ => Effect(cell, phase)
  }

  function DeleteStep(phase: Phase, cell: Cell, authorized: bool, o: Outcome): Effect
  {
    match phase
    case DeleteFind =>
      if && authorized && cell.row.Some? && cell.row.value.status == Available
         && cell.row.value.etag.Some?
      then Effect(cell, DeleteClaim(cell.row.value))
      else Effect(cell, Done(Removed(false)))
    case DeleteClaim(row) =>
      if row.etag.Some? && Hits(cell, Available, row.version) then
        var next := Written(cell, Deleting, cell.row.value.etag);
        Effect(next, DeleteBlob(next.row.value, row.etag.value))
      else Effect(cell, Done(Removed(false)))
    case DeleteBlob(row, expected) =>
      var next := Discarded(cell, Some(expected), o);
      if o.reply != Answers then Effect(next, DeleteRestore(row))
      else if next != cell then Effect(next, DeleteComplete(row))
      else Effect(next, DeleteHead(row))
    case DeleteHead(row) =>
      if o.reply != Answers || cell.blob.Some? then Effect(cell, DeleteRestore(row))
      else Effect(cell, DeleteComplete(row))
    case DeleteComplete(row) =>
      if Hits(cell, Deleting, row.version)
      then Effect(Written(cell, Deleted, cell.row.value.etag), Done(Removed(true)))
      else Effect(cell, DeleteRestore(row))
    case DeleteRestore(row) =>
      Effect(if Hits(cell, Deleting, row.version) then Written(cell, Available, cell.row.value.etag) else cell,
             Done(Thrown(ProviderUnavailable)))
    case _ => Effect(cell, phase)
  }

  function CallStep(sha: Digest, call: Call, cell: Cell, active: bool, authorized: bool, o: Outcome): Effect {
    match call.request
    case Put(bytes, byteCount) => PutStep(sha, call.key, bytes, byteCount, call.phase, cell, active, o)
    case Read(_) => ReadStep(sha, call.key, call.phase, cell, authorized, o)
    case Delete(_) => DeleteStep(call.phase, cell, authorized, o)
  }

  predicate Authorized(w: World, call: Call) {
    match call.request
    case Put(_, _) => false
    case Read(caller) => Grant(call.key.tenantId, call.key.caseId, caller) in w.grants
    case Delete(caller) => Grant(call.key.tenantId, call.key.caseId, caller) in w.grants
  }

  function EffectOf(sha: Digest, w: World, id: CallId, o: Outcome): Effect
    requires id in w.calls
  {
    var call := w.calls[id];
    CallStep(sha, call, CellOf(w, call.key), call.key.tenantId in w.activeTenants, Authorized(w, call), o)
  }

  function FirstPhase(sha: Digest, key: Key, request: Request): Phase {
    match request
    case Put(bytes, byteCount) =>
      if |bytes| == byteCount && sha(bytes) == key.sha256 then PutInsert
      else Done(Thrown(IntegrityMismatch))
    case Read(_) => ReadFind
    case Delete(_) => DeleteFind
  }

  function Next(sha: Digest, w: World, e: Event): World {
    match e
    case Begin(id, key, request) =>
      if id in w.calls then w
      else w.(calls := w.calls[id := Call(key, request, FirstPhase(sha, key, request))])
    case Advance(id, o) =>
      if id !in w.calls then w
      else
        var call := w.calls[id];
        var effect := EffectOf(sha, w, id, o);
        w.(cells := WithCell(w.cells, call.key, effect.cell), calls := w.calls[id := call.(phase := effect.phase)])
    case Govern(tenants, grants) => w.(activeTenants := tenants, grants := grants)
  }

  function Run(sha: Digest, w: World, events: seq<Event>): World
    decreases |events|
  {
    if events == [] then w else Run(sha, Next(sha, w, events[0]), events[1..])
  }

  /** The fault model: when the provider throws at the deletion of a claimed artifact, it has not deleted it. */
  predicate Faithful(w: World, e: Event) {
    e.Advance? && e.id in w.calls && w.calls[e.id].phase.DeleteBlob? ==> e.outcome.reply != LosesReply
  }

  predicate FaithfulRun(sha: Digest, w: World, events: seq<Event>)
    decreases |events|
  {
    events == [] || (Faithful(w, events[0]) && FaithfulRun(sha, Next(sha, w, events[0]), events[1..]))
  }

  const EMPTY := World(map[], map[], {}, {})

  /** Running one more event. */
  lemma {:induction false} RunSnoc(sha: Digest, w: World, events: seq<Event>, e: Event)
    ensures Run(sha, w, events + [e]) == Next(sha, Run(sha, w, events), e)
    ensures FaithfulRun(sha, w, events + [e]) == (FaithfulRun(sha, w, events) && Faithful(Run(sha, w, events), e))
    decreases |events|
  {
    if events == [] {
      assert [e][1..] == [];
      assert events + [e] == [e];
    } else {
      assert (events + [e])[0] == events[0] && (events + [e])[1..] == events[1..] + [e];
      RunSnoc(sha, Next(sha, w, events[0]), events[1..], e);
    }
  }

  // ---------------------------------------------------------------------------------------------
  // The inductive invariant
  // ---------------------------------------------------------------------------------------------

  /** The status a call holds its row in, while it is the row's exclusive owner. */
  function Held(phase: Phase): Option<Status> {
    if phase.PutBlob? || phase.PutAdopt? || phase.PutFinalize? || phase.PutCompensate? || phase.PutFail?
    then Some(Pending)
    else if phase.DeleteBlob? || phase.DeleteHead? || phase.DeleteComplete? || phase.DeleteRestore?
    then Some(Deleting)
    else None
  }

  predicate Owns(phase: Phase) { Held(phase).Some? }

  /** The call's next provider call may change the object at its key. */
  predicate Mutates(phase: Phase) { phase.PutBlob? || phase.PutCompensate? || phase.DeleteBlob? }

  ghost predicate HasRow(phase: Phase) {
    !phase.PutInsert? && !phase.PutFind? && !phase.ReadFind? && !phase.DeleteFind? && !phase.Done?
  }

  /** Once AVAILABLE, a row is only ever deleted or given back. */
  predicate Published(status: Status) { status == Available || status == Deleting || status == Deleted }

  /** A row that some call has claimed. */
  predicate Claimed(status: Status) { status == Pending || status == Deleting }

  /** The blob carries exactly what the row records. */
  ghost predicate Backed(sha: Digest, key: Key, cell: Cell, byteCount: nat, etag: Option<Etag>) {
    && cell.blob.Some?
    && |cell.blob.value.bytes| == byteCount
    && sha(cell.blob.value.bytes) == key.sha256
    && etag == Some(cell.blob.value.etag)
  }

  ghost predicate CellInv(sha: Digest, key: Key, cell: Cell) {
    && (cell.blob.Some? ==> cell.row.Some? && sha(cell.blob.value.bytes) == key.sha256)
    && (cell.row.Some? ==>
      var row := cell.row.value;
      && row.version >= 1
      && (row.etag.None? <==> row.status in {Pending, Failed})
      && (row.status == Available ==> Backed(sha, key, cell, row.byteCount, row.etag))
      && (row.status == Deleted ==> cell.blob.None?))
  }

  /** A row a call has read is the current one, or strictly older. */
  ghost predicate Seen(row: Row, cell: Cell) {
    && cell.row.Some?
    && row.byteCount == cell.row.value.byteCount
    && row.version <= cell.row.value.version
    && (row.version == cell.row.value.version ==> row == cell.row.value)
  }

  ghost predicate CallInv(sha: Digest, call: Call, cell: Cell) {
    var phase := call.phase;
    && (call.request.Put? && !phase.Done? ==>
      |call.request.bytes| == call.request.byteCount && sha(call.request.bytes) == call.key.sha256)
    && (!phase.Done? ==>
      match call.request
      case Put(_, _) => phase.PutInsert? || phase.PutFind? || phase.PutHead? || phase.PutReclaim? || Held(phase) == Some(Pending)
      case Read(_) => phase.ReadFind? || phase.ReadGet?
      case Delete(_) => phase.DeleteFind? || phase.DeleteClaim? || Held(phase) == Some(Deleting))
    && (HasRow(phase) ==> Seen(phase.row, cell))
    && (Owns(phase) ==> cell.row == Some(phase.row) && phase.row.status == Held(phase).value)
    && (phase.PutHead? || phase.ReadGet? || phase.DeleteClaim? ==>
          phase.row.status == Available && phase.row.etag.Some? && Published(cell.row.value.status))
    && (phase.PutReclaim? ==> phase.row.status == Failed)
    && (phase.PutFinalize? ==> Backed(sha, call.key, cell, phase.row.byteCount, Some(phase.uploaded)))
    && (phase.DeleteBlob? ==> phase.row.etag == Some(phase.expected))
    && (phase.DeleteBlob? || phase.DeleteRestore? ==> Backed(sha, call.key, cell, phase.row.byteCount, phase.row.etag))
    && !phase.DeleteHead?
    && (phase.DeleteComplete? ==> cell.blob.None?)
    && (phase.Done? && phase.answer.Bytes? ==>
      sha(phase.answer.bytes) == call.key.sha256 && |phase.answer.bytes| == phase.answer.byteCount)
  }

  ghost predicate CellsInv(sha: Digest, w: World) {
    forall key :: key in w.cells ==> CellInv(sha, key, w.cells[key])
  }

  ghost predicate CallsInv(sha: Digest, w: World) {
    forall id :: id in w.calls ==> CallInv(sha, w.calls[id], CellOf(w, w.calls[id].key))
  }

  ghost predicate OwnsKey(w: World, id: CallId, key: Key) {
    id in w.calls && w.calls[id].key == key && Owns(w.calls[id].phase)
  }

  ghost predicate MutatesKey(w: World, id: CallId, key: Key) {
    id in w.calls && w.calls[id].key == key && Mutates(w.calls[id].phase)
  }

  /** At most one call in flight owns a row. */
  ghost predicate OneOwner(w: World) {
    forall id, id', key :: OwnsKey(w, id, key) && OwnsKey(w, id', key) ==> id == id'
  }

  ghost predicate HasOwner(w: World, key: Key) { exists id :: OwnsKey(w, id, key) }

  /** Every claimed row is claimed by a call in flight. */
  ghost predicate SomeOwner(w: World) {
    forall key :: CellOf(w, key).row.Some? && Claimed(CellOf(w, key).row.value.status) ==> HasOwner(w, key)
  }

  ghost predicate Inv(sha: Digest, w: World) {
    CellsInv(sha, w) && CallsInv(sha, w) && OneOwner(w) && SomeOwner(w)
  }

  // ---------------------------------------------------------------------------------------------
  // One step keeps the invariant
  // ---------------------------------------------------------------------------------------------

  /** What a step may do to its cell: nothing to the row, or a successor version of a row that may change. */
  ghost predicate RowEvolves(cell: Cell, next: Cell) {
    || next.row == cell.row
    || (cell.row.None? && next.row.Some? && next.row.value.status == Pending && next.row.value.version == 1)
    || (&& cell.row.Some? && next.row.Some?
        && next.row.value.version == cell.row.value.version + 1
        && next.row.value.byteCount == cell.row.value.byteCount
        && cell.row.value.status != Deleted
        && (Published(cell.row.value.status) ==> Published(next.row.value.status)))
  }

  /** The row statuses between which a call that does not own the row may move it, becoming its owner. */
  ghost predicate Acquires(cell: Cell, next: Cell, phase: Phase) {
    && Owns(phase)
    && next.blob == cell.blob
    && next.row != cell.row
    && (cell.row.None? || cell.row.value.status == Failed || cell.row.value.status == Available)
  }

  /**
   A step leaves cell and caller in order, changes the row only to a successor, touches the object only in a phase that
   may, and gives up a claim only together with the claimed status.
   */
  ghost predicate StepSound(sha: Digest, call: Call, cell: Cell, effect: Effect) {
    && CellInv(sha, call.key, effect.cell)
    && CallInv(sha, call.(phase := effect.phase), effect.cell)
    && RowEvolves(cell, effect.cell)
    && (effect.cell.blob != cell.blob ==> Mutates(call.phase))
    && (!Owns(call.phase) ==>
          || (effect.cell == cell && !Owns(effect.phase))
          || Acquires(cell, effect.cell, effect.phase))
    && (Owns(call.phase) || effect.cell.row != cell.row ==>
          (effect.cell.row.Some? && Claimed(effect.cell.row.value.status) ==> Owns(effect.phase)))
  }

  lemma PutStepIsSound(sha: Digest, call: Call, cell: Cell, active: bool, o: Outcome)
    requires call.request.Put? && CellInv(sha, call.key, cell) && CallInv(sha, call, cell)
    ensures StepSound(sha, call, cell,
                      PutStep(sha, call.key, call.request.bytes, call.request.byteCount, call.phase, cell, active, o))
  {
  }

  lemma ReadStepIsSound(sha: Digest, call: Call, cell: Cell, authorized: bool, o: Outcome)
    requires call.request.Read? && CellInv(sha, call.key, cell) && CallInv(sha, call, cell)
    ensures StepSound(sha, call, cell, ReadStep(sha, call.key, call.phase, cell, authorized, o))
  {
  }

  lemma DeleteStepIsSound(sha: Digest, call: Call, cell: Cell, authorized: bool, o: Outcome)
    requires call.request.Delete? && CellInv(sha, call.key, cell) && CallInv(sha, call, cell)
    requires call.phase.DeleteBlob? ==> o.reply != LosesReply
    ensures StepSound(sha, call, cell, DeleteStep(call.phase, cell, authorized, o))
  {
  }

  lemma StepKeepsOwnCell(sha: Digest, call: Call, cell: Cell, active: bool, authorized: bool, o: Outcome)
    requires CellInv(sha, call.key, cell) && CallInv(sha, call, cell)
    requires call.phase.DeleteBlob? ==> o.reply != LosesReply
    ensures StepSound(sha, call, cell, CallStep(sha, call, cell, active, authorized, o))
  {
    match call.request
    case Put(_, _) => PutStepIsSound(sha, call, cell, active, o);
    case Read(_) => ReadStepIsSound(sha, call, cell, authorized, o);
    case Delete(_) => DeleteStepIsSound(sha, call, cell, authorized, o);
  }

  lemma StepKeepsOtherCalls(sha: Digest, cell: Cell, next: Cell, other: Call)
    requires CallInv(sha, other, cell)
    requires RowEvolves(cell, next)
    requires Owns(other.phase) ==> next == cell
    ensures CallInv(sha, other, next)
  {
  }

  lemma NextKeepsInv(sha: Digest, w: World, e: Event)
    requires Inv(sha, w) && Faithful(w, e)
    ensures Inv(sha, Next(sha, w, e))
  {
    match e
    case Begin(id, key, request) =>
      BeginKeepsInv(sha, w, id, key, request);
    case Govern(tenants, grants) =>
      var w' := Next(sha, w, e);
      assert forall k :: CellOf(w', k) == CellOf(w, k);
      assert forall i, k :: OwnsKey(w', i, k) == OwnsKey(w, i, k);
      assert forall k :: HasOwner(w', k) == HasOwner(w, k);
    case Advance(id, o) =>
      if id in w.calls {
        AdvanceKeepsInv(sha, w, id, o);
      }
  }

  lemma BeginKeepsInv(sha: Digest, w: World, id: CallId, key: Key, request: Request)
    requires Inv(sha, w)
    ensures Inv(sha, Next(sha, w, Begin(id, key, request)))
  {
    var w' := Next(sha, w, Begin(id, key, request));
    assert forall k :: CellOf(w', k) == CellOf(w, k);
    assert forall i, k :: OwnsKey(w', i, k) ==> OwnsKey(w, i, k);
    if id !in w.calls {
      assert CallInv(sha, w'.calls[id], CellOf(w', key));
    }
    forall k | HasOwner(w, k)
      ensures HasOwner(w', k)
    {
      var i :| OwnsKey(w, i, k);
      assert OwnsKey(w', i, k);
    }
  }

  /** What one call's step does to the world, seen from that call and from every other one. */
  lemma AdvanceFrames(sha: Digest, w: World, id: CallId, o: Outcome)
    requires id in w.calls
    ensures var w', effect, key := Next(sha, w, Advance(id, o)), EffectOf(sha, w, id, o), w.calls[id].key;
            && CellOf(w', key) == effect.cell
            && (forall k :: k != key ==> CellOf(w', k) == CellOf(w, k))
            && w'.calls.Keys == w.calls.Keys
            && w'.calls[id] == w.calls[id].(phase := effect.phase)
            && (forall i :: i in w.calls && i != id ==> w'.calls[i] == w.calls[i])
  {
  }

  lemma AdvanceKeepsInv(sha: Digest, w: World, id: CallId, o: Outcome)
    requires Inv(sha, w) && id in w.calls && Faithful(w, Advance(id, o))
    ensures Inv(sha, Next(sha, w, Advance(id, o)))
  {
    var w' := Next(sha, w, Advance(id, o));
    var call, effect := w.calls[id], EffectOf(sha, w, id, o);
    AdvanceFrames(sha, w, id, o);
    OwnStepIsSound(sha, w, id, o);
    forall i | i in w'.calls && i != id
      ensures CallInv(sha, w'.calls[i], CellOf(w', w'.calls[i].key))
    {
      if w.calls[i].key == call.key {
        OtherCallIsSound(sha, w, id, o, i);
      }
    }
    assert CallsInv(sha, w');
    OneOwnerAfter(sha, w, id, o);
    SomeOwnerAfter(sha, w, id, o);
  }

  lemma OwnStepIsSound(sha: Digest, w: World, id: CallId, o: Outcome)
    requires CellsInv(sha, w) && CallsInv(sha, w) && id in w.calls && Faithful(w, Advance(id, o))
    ensures StepSound(sha, w.calls[id], CellOf(w, w.calls[id].key), EffectOf(sha, w, id, o))
  {
    var call := w.calls[id];
    var cell := CellOf(w, call.key);
    assert CellInv(sha, call.key, cell);
    StepKeepsOwnCell(sha, call, cell, call.key.tenantId in w.activeTenants, Authorized(w, call), o);
  }

  /** A call on the same key survives the step: if it owns the row, the stepping call changed nothing. */
  lemma OtherCallIsSound(sha: Digest, w: World, id: CallId, o: Outcome, other: CallId)
    requires Inv(sha, w) && id in w.calls && Faithful(w, Advance(id, o))
    requires other in w.calls && other != id && w.calls[other].key == w.calls[id].key
    ensures CallInv(sha, w.calls[other], EffectOf(sha, w, id, o).cell)
    ensures Owns(w.calls[other].phase) ==> !Owns(EffectOf(sha, w, id, o).phase)
  {
    var key := w.calls[id].key;
    OwnStepIsSound(sha, w, id, o);
    if Owns(w.calls[other].phase) {
      assert OwnsKey(w, other, key);
      assert !OwnsKey(w, id, key);
    }
    StepKeepsOtherCalls(sha, CellOf(w, key), EffectOf(sha, w, id, o).cell, w.calls[other]);
  }

  lemma OneOwnerAfter(sha: Digest, w: World, id: CallId, o: Outcome)
    requires Inv(sha, w) && id in w.calls && Faithful(w, Advance(id, o))
    ensures OneOwner(Next(sha, w, Advance(id, o)))
  {
    var w' := Next(sha, w, Advance(id, o));
    AdvanceFrames(sha, w, id, o);
    forall i: CallId, j: CallId, key | OwnsKey(w', i, key) && OwnsKey(w', j, key)
      ensures i == j
    {
      if i != id && j != id {
        assert OwnsKey(w, i, key) && OwnsKey(w, j, key);
      } else if i != j {
        OtherCallIsSound(sha, w, id, o, if i == id then j else i);
      }
    }
  }

  lemma SomeOwnerAfter(sha: Digest, w: World, id: CallId, o: Outcome)
    requires Inv(sha, w) && id in w.calls && Faithful(w, Advance(id, o))
    ensures SomeOwner(Next(sha, w, Advance(id, o)))
  {
    var w', effect := Next(sha, w, Advance(id, o)), EffectOf(sha, w, id, o);
    AdvanceFrames(sha, w, id, o);
    OwnStepIsSound(sha, w, id, o);
    forall key | CellOf(w', key).row.Some? && Claimed(CellOf(w', key).row.value.status)
      ensures HasOwner(w', key)
    {
      if key == w.calls[id].key && Owns(effect.phase) {
        assert OwnsKey(w', id, key);
      } else {
        assert HasOwner(w, key);
        var i :| OwnsKey(w, i, key);
        assert OwnsKey(w', i, key);
      }
    }
  }

  /** The assumption is exactly what a step needs: the invariant survives a step if and only if the step meets it. */
  lemma StepIsSafeExactly(sha: Digest, w: World, e: Event)
    requires Inv(sha, w)
    ensures Inv(sha, Next(sha, w, e)) <==> Faithful(w, e)
  {
    if Faithful(w, e) {
      NextKeepsInv(sha, w, e);
    } else {
      var call, w' := w.calls[e.id], Next(sha, w, e);
      AdvanceFrames(sha, w, e.id, e.outcome);
      assert CallInv(sha, call, CellOf(w, call.key));
      assert CellOf(w', call.key).blob.None? && w'.calls[e.id].phase.DeleteRestore?;
      assert !CallInv(sha, w'.calls[e.id], CellOf(w', call.key));
    }
  }

  lemma {:induction false} RunKeepsInv(sha: Digest, w: World, events: seq<Event>)
    requires Inv(sha, w) && FaithfulRun(sha, w, events)
    ensures Inv(sha, Run(sha, w, events))
    decreases |events|
  {
    if events != [] {
      NextKeepsInv(sha, w, events[0]);
      RunKeepsInv(sha, Next(sha, w, events[0]), events[1..]);
    }
  }

  // ---------------------------------------------------------------------------------------------
  // Safety over every interleaving
  // ---------------------------------------------------------------------------------------------

  /**
   In every state any interleaving reaches: an AVAILABLE row's object exists with the recorded size, etag
   and digest, a DELETED row's object is gone, at most one call in flight may change the object, and a
   read that returned bytes returned bytes of the recorded size hashing to its descriptor.
   */
  lemma ReachableStatesAreSafe(sha: Digest, events: seq<Event>)
    requires FaithfulRun(sha, EMPTY, events)
    ensures var w := Run(sha, EMPTY, events);
            && (forall key :: CellOf(w, key).row.Some? && CellOf(w, key).row.value.status == Available ==>
                  Backed(sha, key, CellOf(w, key), CellOf(w, key).row.value.byteCount, CellOf(w, key).row.value.etag))
            && (forall key :: CellOf(w, key).row.Some? && CellOf(w, key).row.value.status == Deleted ==>
                  CellOf(w, key).blob.None?)
            && (forall id, id', key :: MutatesKey(w, id, key) && MutatesKey(w, id', key) ==> id == id')
            && (forall id :: id in w.calls && w.calls[id].phase.Done? && w.calls[id].phase.answer.Bytes? ==>
                  && sha(w.calls[id].phase.answer.bytes) == w.calls[id].key.sha256
                  && |w.calls[id].phase.answer.bytes| == w.calls[id].phase.answer.byteCount)
  {
    RunKeepsInv(sha, EMPTY, events);
    var w := Run(sha, EMPTY, events);
    forall key | CellOf(w, key).row.Some?
      ensures CellInv(sha, key, CellOf(w, key))
    {
    }
    forall id: CallId, id': CallId, key | MutatesKey(w, id, key) && MutatesKey(w, id', key)
      ensures id == id'
    {
      assert OwnsKey(w, id, key) && OwnsKey(w, id', key);
    }
  }

  /** A later cell: the row stays, its version never decreases, and DELETED is final with no object. */
  ghost predicate Later(cell: Cell, later: Cell) {
    cell.row.Some? ==>
      && later.row.Some?
      && later.row.value.byteCount == cell.row.value.byteCount
      && cell.row.value.version <= later.row.value.version
      && (cell.row.value.version == later.row.value.version ==> later.row == cell.row)
      && (cell.row.value.status == Deleted ==> later == cell)
  }

  lemma NextIsLater(sha: Digest, w: World, e: Event, key: Key)
    requires Inv(sha, w) && Faithful(w, e)
    ensures Later(CellOf(w, key), CellOf(Next(sha, w, e), key))
  {
    if e.Advance? && e.id in w.calls {
      var call := w.calls[e.id];
      AdvanceFrames(sha, w, e.id, e.outcome);
      OwnStepIsSound(sha, w, e.id, e.outcome);
      assert CallInv(sha, call, CellOf(w, call.key));
    }
  }

  /** Along every run versions only grow and a DELETED row, with its absent object, never changes again. */
  lemma {:induction false} RowsOnlyMoveForward(sha: Digest, w: World, events: seq<Event>, key: Key)
    requires Inv(sha, w) && FaithfulRun(sha, w, events)
    ensures Later(CellOf(w, key), CellOf(Run(sha, w, events), key))
    decreases |events|
  {
    if events != [] {
      var w' := Next(sha, w, events[0]);
      NextIsLater(sha, w, events[0], key);
      NextKeepsInv(sha, w, events[0]);
      RowsOnlyMoveForward(sha, w', events[1..], key);
    }
  }

  /**
   A call that has claimed its row never loses it: the compare-and-swap that publishes an upload, that
   completes a deletion or that rolls either back always hits, so no upload is stored without being recorded.
   */
  lemma ClaimsAreNeverLost(sha: Digest, w: World, id: CallId, o: Outcome)
    requires Inv(sha, w) && id in w.calls && Faithful(w, Advance(id, o))
    ensures var phase, effect := w.calls[id].phase, EffectOf(sha, w, id, o);
            && (phase.PutFinalize? ==> effect.phase == Done(Stored(phase.row.byteCount)))
            && (phase.PutFail? ==> effect.cell.row.Some? && effect.cell.row.value.status == Failed)
            && (phase.DeleteBlob? ==> effect.phase == if o.reply == Answers then DeleteComplete(phase.row) else DeleteRestore(phase.row))
            && (phase.DeleteComplete? ==> effect.phase == Done(Removed(true)))
            && (phase.DeleteRestore? ==> effect.cell.row.Some? && effect.cell.row.value.status == Available)
  {
    assert CallInv(sha, w.calls[id], CellOf(w, w.calls[id].key));
  }

  /** A call in flight that deletes the artifact has claimed its row. */
  ghost predicate DeletionClaims(w: World, key: Key) {
    exists id :: OwnsKey(w, id, key) && w.calls[id].request.Delete?
  }

  /**
   What it means that a put answers that the artifact is stored: its object is in place, and the row is AVAILABLE unless
   a deletion has claimed it, which is possible only when the put found the artifact stored already.
   */
  ghost predicate InPlace(sha: Digest, w: World, key: Key, byteCount: nat) {
    var cell := CellOf(w, key);
    && cell.row.Some? && Backed(sha, key, cell, byteCount, cell.row.value.etag)
    && (cell.row.value.status == Available <==> !DeletionClaims(w, key))
    && (cell.row.value.status == Deleting <==> DeletionClaims(w, key))
  }

  /** Who owns a row, and for what. */
  lemma OwnerMeans(sha: Digest, w: World, key: Key)
    requires Inv(sha, w) && CellOf(w, key).row.Some?
    ensures DeletionClaims(w, key) <==> CellOf(w, key).row.value.status == Deleting
  {
    var cell := CellOf(w, key);
    if DeletionClaims(w, key) {
      var id :| OwnsKey(w, id, key) && w.calls[id].request.Delete?;
      assert CallInv(sha, w.calls[id], cell);
    }
    if cell.row.value.status == Deleting {
      assert HasOwner(w, key);
      var id :| OwnsKey(w, id, key);
      assert CallInv(sha, w.calls[id], cell);
    }
  }

  /** Until a deletion takes the object away, it is the one the row describes. */
  lemma DeletingIsBacked(sha: Digest, w: World, key: Key)
    requires Inv(sha, w)
    ensures var cell := CellOf(w, key);
            cell.row.Some? && cell.row.value.status == Deleting && cell.blob.Some? ==>
              Backed(sha, key, cell, cell.row.value.byteCount, cell.row.value.etag)
  {
    var cell := CellOf(w, key);
    if cell.row.Some? && cell.row.value.status == Deleting {
      assert HasOwner(w, key);
      var id :| OwnsKey(w, id, key);
      assert CallInv(sha, w.calls[id], cell);
    }
  }

  lemma StoredStep(sha: Digest, call: Call, cell: Cell, active: bool, o: Outcome)
    requires CellInv(sha, call.key, cell) && CallInv(sha, call, cell) && call.request.Put? && !call.phase.Done?
    requires CallStep(sha, call, cell, active, false, o).phase.Done?
    requires CallStep(sha, call, cell, active, false, o).phase.answer.Stored?
    ensures var effect := CallStep(sha, call, cell, active, false, o);
            && (call.phase.PutHead? || call.phase.PutFinalize?) && effect.cell.row.Some?
            && effect.cell.blob.Some? && effect.phase.answer.byteCount == effect.cell.row.value.byteCount
            && (effect.cell.row.value.status == Available || effect.cell.row.value.status == Deleting)
            && (call.phase.PutFinalize? ==> effect.cell.row.value.status == Available)
  {
  }

  /** A put that answers that the artifact is stored, at the moment it does. */
  lemma StoredExactly(sha: Digest, w: World, id: CallId, o: Outcome)
    requires Inv(sha, w) && id in w.calls && Faithful(w, Advance(id, o)) && w.calls[id].request.Put?
    requires !w.calls[id].phase.Done? && EffectOf(sha, w, id, o).phase.Done? && EffectOf(sha, w, id, o).phase.answer.Stored?
    ensures var call, w' := w.calls[id], Next(sha, w, Advance(id, o));
            && InPlace(sha, w', call.key, EffectOf(sha, w, id, o).phase.answer.byteCount)
            && (call.phase.PutHead? || call.phase.PutFinalize?)
            && (call.phase.PutFinalize? ==> !DeletionClaims(w', call.key))
  {
    var call := w.calls[id];
    var cell := CellOf(w, call.key);
    assert CallInv(sha, call, cell) && CellInv(sha, call.key, cell);
    StoredStep(sha, call, cell, call.key.tenantId in w.activeTenants, o);
    AdvanceFrames(sha, w, id, o);
    NextKeepsInv(sha, w, Advance(id, o));
    var w' := Next(sha, w, Advance(id, o));
    assert CellInv(sha, call.key, CellOf(w', call.key));
    OwnerMeans(sha, w', call.key);
    DeletingIsBacked(sha, w', call.key);
  }

  /** When a put publishes what it uploaded, the row is AVAILABLE and its object is in place. */
  lemma StoredMeansStored(sha: Digest, w: World, id: CallId, o: Outcome)
    requires Inv(sha, w) && id in w.calls && Faithful(w, Advance(id, o))
    requires w.calls[id].phase.PutFinalize?
    ensures var w' := Next(sha, w, Advance(id, o));
            var cell := CellOf(w', w.calls[id].key);
            && w'.calls[id].phase.Done? && w'.calls[id].phase.answer.Stored?
            && cell.row.Some? && cell.row.value.status == Available
            && Backed(sha, w.calls[id].key, cell, w'.calls[id].phase.answer.byteCount, cell.row.value.etag)
  {
    ClaimsAreNeverLost(sha, w, id, o);
    AdvanceFrames(sha, w, id, o);
    OwnStepIsSound(sha, w, id, o);
  }

  /**
   A read fails only because of the provider or of an interleaved deletion: if the provider answers and the
   row is still the one the read selected, the read returns the artifact.
   */
  lemma UndisturbedReadSucceeds(sha: Digest, w: World, id: CallId, o: Outcome)
    requires Inv(sha, w) && id in w.calls && w.calls[id].phase.ReadGet?
    requires o.reply == Answers
    requires CellOf(w, w.calls[id].key).row.value.version == w.calls[id].phase.row.version
    ensures var cell := CellOf(w, w.calls[id].key);
            cell.blob.Some? && EffectOf(sha, w, id, o).phase == Done(Answer.Bytes(cell.blob.value.bytes, w.calls[id].phase.row.byteCount))
  {
    var key := w.calls[id].key;
    assert CallInv(sha, w.calls[id], CellOf(w, key));
    assert CellInv(sha, key, CellOf(w, key));
  }

  // ---------------------------------------------------------------------------------------------
  // Who is let in
  // ---------------------------------------------------------------------------------------------

  /** The caller may use the artifact, and there is one: what both a read and a deletion look up. */
  ghost predicate Permitted(w: World, key: Key, callerId: string) {
    && Grant(key.tenantId, key.caseId, callerId) in w.grants
    && CellOf(w, key).row.Some? && CellOf(w, key).row.value.status == Available
  }

  /** What a request needs of the state it is looked up in. */
  ghost predicate Admitted(w: World, key: Key, request: Request) {
    match request
    case Put(_, _) => key.tenantId in w.activeTenants
    case Read(callerId) => Permitted(w, key, callerId)
    case Delete(callerId) => Permitted(w, key, callerId)
  }

  /** The call has got past its lookup, or was let past it before it ended. */
  ghost predicate LetIn(call: Call) {
    match call.request
    case Put(_, _) => call.phase !in {PutInsert, Done(Thrown(IntegrityMismatch)), Done(Thrown(TenantUnavailable))}
    case Read(_) => call.phase !in {ReadFind, Done(Absent)}
    case Delete(_) => call.phase !in {DeleteFind, Done(Removed(false))}
  }

  /** Between the `from`-th event and the end of the run there was a state in which the request could be admitted. */
  ghost predicate AdmittedSince(sha: Digest, events: seq<Event>, from: nat, key: Key, request: Request) {
    exists k :: from <= k <= |events| && Admitted(Run(sha, EMPTY, events[..k]), key, request)
  }

  lemma LetInByThisStep(sha: Digest, w: World, id: CallId, o: Outcome)
    requires id in w.calls && !LetIn(w.calls[id])
    requires LetIn(w.calls[id].(phase := EffectOf(sha, w, id, o).phase))
    ensures Admitted(w, w.calls[id].key, w.calls[id].request)
  {
  }

  /**
   Over every interleaving, whatever the provider does: a call that is let in has passed a state of its own time in
   flight in which its caller had a grant on the case and the row was AVAILABLE, or, for a put, its tenant was active.
   */
  lemma {:induction false} LetInWasAdmitted(sha: Digest, events: seq<Event>, from: nat, id: CallId)
    requires from <= |events| && id !in Run(sha, EMPTY, events[..from]).calls
    requires id in Run(sha, EMPTY, events).calls && LetIn(Run(sha, EMPTY, events).calls[id])
    ensures var call := Run(sha, EMPTY, events).calls[id]; AdmittedSince(sha, events, from, call.key, call.request)
    decreases |events|
  {
    assert events[..|events|] == events;
    var n := |events| - 1;
    assert events == events[..n] + [events[n]];
    RunSnoc(sha, EMPTY, events[..n], events[n]);
    var w, call := Run(sha, EMPTY, events[..n]), Run(sha, EMPTY, events).calls[id];
    if id in w.calls && LetIn(w.calls[id]) {
      assert events[..n][..from] == events[..from];
      LetInWasAdmitted(sha, events[..n], from, id);
      var k :| from <= k <= n && Admitted(Run(sha, EMPTY, events[..n][..k]), call.key, call.request);
      assert events[..n][..k] == events[..k];
    } else {
      LetInByThisStep(sha, w, id, events[n].outcome);
      assert Admitted(Run(sha, EMPTY, events[..n]), call.key, call.request);
    }
  }

  // ---------------------------------------------------------------------------------------------
  // One call running alone
  // ---------------------------------------------------------------------------------------------

  function Advances(id: CallId, outcomes: seq<Outcome>): (events: seq<Event>)
    ensures |events| == |outcomes|
  {
    if outcomes == [] then [] else [Advance(id, outcomes[0])] + Advances(id, outcomes[1..])
  }

  /** The steps one call takes on its own cell while no other call moves. */
  function Alone(sha: Digest, call: Call, cell: Cell, active: bool, authorized: bool, outcomes: seq<Outcome>): Effect
    decreases |outcomes|
  {
    if outcomes == [] then Effect(cell, call.phase)
    else
      var effect := CallStep(sha, call, cell, active, authorized, outcomes[0]);
      Alone(sha, call.(phase := effect.phase), effect.cell, active, authorized, outcomes[1..])
  }

  lemma {:induction false} RunAlone(sha: Digest, w: World, id: CallId, outcomes: seq<Outcome>)
    requires id in w.calls
    ensures var call, w' := w.calls[id], Run(sha, w, Advances(id, outcomes));
            var effect := Alone(sha, call, CellOf(w, call.key), call.key.tenantId in w.activeTenants, Authorized(w, call), outcomes);
            && id in w'.calls && w'.calls[id] == call.(phase := effect.phase)
            && CellOf(w', call.key) == effect.cell
            && w'.grants == w.grants && w'.activeTenants == w.activeTenants
    decreases |outcomes|
  {
    if outcomes != [] {
      AdvanceFrames(sha, w, id, outcomes[0]);
      assert Advances(id, outcomes)[1..] == Advances(id, outcomes[1..]);
      RunAlone(sha, Next(sha, w, Advance(id, outcomes[0])), id, outcomes[1..]);
    }
  }

  lemma AdoptsAlone(sha: Digest, call: Call, cell: Cell, active: bool, authorized: bool, etag: Etag, o: Outcome)
    requires CallInv(sha, call, cell) && call.phase.PutBlob? && cell.blob.None?
    requires |call.request.bytes| == call.phase.row.byteCount
    ensures var row := call.phase.row;
            Alone(sha, call, cell, active, authorized, [Outcome(LosesReply, etag), Outcome(Answers, etag), o])
            == Effect(Cell(Some(Row(Available, row.version + 1, row.byteCount, Some(etag))), Some(Blob(call.request.bytes, etag))),
                      Done(Stored(row.byteCount)))
  {
    var row, bytes := call.phase.row, call.request.bytes;
    var lost, looked := Outcome(LosesReply, etag), Outcome(Answers, etag);
    var cell1 := Cell(Some(row), Some(Blob(bytes, etag)));
    var call1, call2 := call.(phase := PutAdopt(row)), call.(phase := PutFinalize(row, etag));
    assert CallStep(sha, call, cell, active, authorized, lost) == Effect(cell1, PutAdopt(row));
    assert CallStep(sha, call1, cell1, active, authorized, looked) == Effect(cell1, PutFinalize(row, etag));
    var last := CallStep(sha, call2, cell1, active, authorized, o);
    assert last == Effect(Cell(Some(Row(Available, row.version + 1, row.byteCount, Some(etag))), cell1.blob), Done(Stored(row.byteCount)));
    calc {
      Alone(sha, call, cell, active, authorized, [lost, looked, o]);
      { assert [lost, looked, o][1..] == [looked, o]; }
      Alone(sha, call1, cell1, active, authorized, [looked, o]);
      { assert [looked, o][1..] == [o]; }
      Alone(sha, call2, cell1, active, authorized, [o]);
      { assert [o][1..] == []; }
      last;
    }
  }

  /** An upload whose reply was lost is adopted: looking the object up and publishing it stores the artifact. */
  lemma LostUploadReplyIsAdopted(sha: Digest, w: World, id: CallId, etag: Etag, o: Outcome)
    requires Inv(sha, w) && id in w.calls && w.calls[id].phase.PutBlob?
    requires CellOf(w, w.calls[id].key).blob.None?
    requires w.calls[id].request.Put? && |w.calls[id].request.bytes| == w.calls[id].phase.row.byteCount
    ensures var call := w.calls[id];
            var w' := Run(sha, w, Advances(id, [Outcome(LosesReply, etag), Outcome(Answers, etag), o]));
            var row := call.phase.row;
            && id in w'.calls && w'.calls[id].phase == Done(Stored(row.byteCount))
            && CellOf(w', call.key) == Cell(Some(Row(Available, row.version + 1, row.byteCount, Some(etag))),
                                            Some(Blob(call.request.bytes, etag)))
  {
    var call, cell := w.calls[id], CellOf(w, w.calls[id].key);
    assert CallInv(sha, call, cell);
    var active, authorized := call.key.tenantId in w.activeTenants, Authorized(w, call);
    var outcomes := [Outcome(LosesReply, etag), Outcome(Answers, etag), o];
    AdoptsAlone(sha, call, cell, active, authorized, etag, o);
    var effect := Alone(sha, call, cell, active, authorized, outcomes);
    assert effect.phase == Done(Stored(call.phase.row.byteCount));
    RunAlone(sha, w, id, outcomes);
  }

  lemma LosesAlone(sha: Digest, call: Call, cell: Cell, active: bool, fine: Outcome, lost: Outcome)
    requires CellInv(sha, call.key, cell) && call.request.Delete? && call.phase.DeleteFind?
    requires cell.row.Some? && cell.row.value.status == Available
    requires fine.reply == Answers && lost.reply == LosesReply
    ensures var row := cell.row.value;
            Alone(sha, call, cell, active, true, [fine, fine, lost, fine])
            == Effect(Cell(Some(row.(version := row.version + 2)), None), Done(Thrown(ProviderUnavailable)))
  {
    var row := cell.row.value;
    var claimed := row.(status := Deleting, version := row.version + 1);
    var cell2, cell3 := cell.(row := Some(claimed)), Cell(Some(claimed), None);
    var call1, call2, call3 := call.(phase := DeleteClaim(row)), call.(phase := DeleteBlob(claimed, row.etag.value)), call.(phase := DeleteRestore(claimed));
    assert CallStep(sha, call, cell, active, true, fine) == Effect(cell, call1.phase);
    assert CallStep(sha, call1, cell, active, true, fine) == Effect(cell2, call2.phase);
    assert CallStep(sha, call2, cell2, active, true, lost) == Effect(cell3, call3.phase);
    var last := CallStep(sha, call3, cell3, active, true, fine);
    assert last == Effect(Cell(Some(row.(version := row.version + 2)), None), Done(Thrown(ProviderUnavailable)));
    calc {
      Alone(sha, call, cell, active, true, [fine, fine, lost, fine]);
      { assert [fine, fine, lost, fine][1..] == [fine, lost, fine]; }
      Alone(sha, call1, cell, active, true, [fine, lost, fine]);
      { assert [fine, lost, fine][1..] == [lost, fine]; }
      Alone(sha, call2, cell2, active, true, [lost, fine]);
      { assert [lost, fine][1..] == [fine]; }
      Alone(sha, call3, cell3, active, true, [fine]);
      { assert [fine][1..] == []; }
      last;
    }
  }

  /**
   The fault assumption on deletion is needed. From any AVAILABLE artifact, a provider deletion that throws
   after taking effect sends the row back to AVAILABLE although its object is gone.
   */
  lemma LostDeleteReplyLosesTheArtifact(sha: Digest, w: World, id: CallId, key: Key, callerId: string)
    requires Inv(sha, w) && id !in w.calls
    requires CellOf(w, key).row.Some? && CellOf(w, key).row.value.status == Available
    requires Grant(key.tenantId, key.caseId, callerId) in w.grants
    ensures var fine, lost := Outcome(Answers, 0), Outcome(LosesReply, 0);
            var cell := CellOf(Run(sha, w, [Begin(id, key, Delete(callerId))] + Advances(id, [fine, fine, lost, fine])), key);
            cell.row.Some? && cell.row.value.status == Available && cell.blob.None?
  {
    var fine, lost := Outcome(Answers, 0), Outcome(LosesReply, 0);
    var begin := Begin(id, key, Delete(callerId));
    var events := [begin] + Advances(id, [fine, fine, lost, fine]);
    assert events[1..] == Advances(id, [fine, fine, lost, fine]);
    var w1 := Next(sha, w, begin);
    assert CellOf(w1, key) == CellOf(w, key);
    assert CellInv(sha, key, CellOf(w, key));
    RunAlone(sha, w1, id, [fine, fine, lost, fine]);
    LosesAlone(sha, w1.calls[id], CellOf(w, key), key.tenantId in w1.activeTenants, fine, lost);
  }

  /** A call that begins, and takes its steps with none in between. */
  lemma BeginsAlone(sha: Digest, w: World, id: CallId, key: Key, request: Request, outcomes: seq<Outcome>)
    requires id !in w.calls
    ensures var w' := Run(sha, w, [Begin(id, key, request)] + Advances(id, outcomes));
            var call := Call(key, request, FirstPhase(sha, key, request));
            var effect := Alone(sha, call, CellOf(w, key), key.tenantId in w.activeTenants, Authorized(w, call), outcomes);
            && id in w'.calls && w'.calls[id] == call.(phase := effect.phase)
            && CellOf(w', key) == effect.cell
  {
    var begin := Begin(id, key, request);
    var w1 := Next(sha, w, begin);
    assert ([begin] + Advances(id, outcomes))[1..] == Advances(id, outcomes);
    assert CellOf(w1, key) == CellOf(w, key);
    RunAlone(sha, w1, id, outcomes);
  }

  /** Steps alone, and more of them. */
  lemma {:induction false} AloneAppend(sha: Digest, call: Call, cell: Cell, active: bool, authorized: bool, some: seq<Outcome>,
                                       more: seq<Outcome>)
    ensures var effect := Alone(sha, call, cell, active, authorized, some);
            Alone(sha, call, cell, active, authorized, some + more)
            == Alone(sha, call.(phase := effect.phase), effect.cell, active, authorized, more)
    decreases |some|
  {
    if some == [] {
      assert some + more == more;
    } else {
      var effect := CallStep(sha, call, cell, active, authorized, some[0]);
      assert (some + more)[1..] == some[1..] + more;
      AloneAppend(sha, call.(phase := effect.phase), effect.cell, active, authorized, some[1..], more);
    }
  }

  /** The effects of so many steps alone, given one by one. */
  lemma {:induction false} StepsAlone(sha: Digest, call: Call, active: bool, authorized: bool, outcomes: seq<Outcome>, effects: seq<Effect>)
    requires |effects| == |outcomes| + 1 && effects[0].phase == call.phase
    requires forall k | 0 <= k < |outcomes| ::
      effects[k + 1] == CallStep(sha, call.(phase := effects[k].phase), effects[k].cell, active, authorized, outcomes[k])
    ensures Alone(sha, call, effects[0].cell, active, authorized, outcomes) == effects[|outcomes|]
    decreases |outcomes|
  {
    if outcomes != [] {
      assert effects[0 + 1] == CallStep(sha, call, effects[0].cell, active, authorized, outcomes[0]);
      var moved, rest, later := call.(phase := effects[1].phase), outcomes[1..], effects[1..];
      forall k | 0 <= k < |rest|
        ensures later[k + 1] == CallStep(sha, moved.(phase := later[k].phase), later[k].cell, active, authorized, rest[k])
      {
        assert later[k] == effects[k + 1] && rest[k] == outcomes[k + 1] && later[k + 1] == effects[(k + 1) + 1];
      }
      StepsAlone(sha, moved, active, authorized, rest, later);
    }
  }

  lemma {:induction false} DoneAlone(sha: Digest, call: Call, cell: Cell, active: bool, authorized: bool, outcomes: seq<Outcome>)
    requires call.phase.Done?
    ensures Alone(sha, call, cell, active, authorized, outcomes) == Effect(cell, call.phase)
    decreases |outcomes|
  {
    if outcomes != [] {
      DoneAlone(sha, call, cell, active, authorized, outcomes[1..]);
    }
  }

  /**
   A read that nothing disturbs: a caller with access to an AVAILABLE artifact is answered its bytes, or the error when
   the provider throws; any other caller and any other artifact `Absent`.
   */
  lemma UndisturbedReadExactly(sha: Digest, w: World, id: CallId, key: Key, callerId: string, look: Outcome, get: Outcome)
    requires Inv(sha, w) && id !in w.calls
    ensures var w' := Run(sha, w, [Begin(id, key, Read(callerId))] + Advances(id, [look, get]));
            var cell := CellOf(w, key);
            && CellOf(w', key) == cell && id in w'.calls
            && (Permitted(w, key, callerId) ==>
                  && Backed(sha, key, cell, cell.row.value.byteCount, cell.row.value.etag)
                  && w'.calls[id].phase == Done(if get.reply == Answers
                                                then Answer.Bytes(cell.blob.value.bytes, cell.row.value.byteCount)
                                                else Thrown(ProviderUnavailable)))
            && (!Permitted(w, key, callerId) ==> w'.calls[id].phase == Done(Absent))
  {
    var call, cell := Call(key, Read(callerId), ReadFind), CellOf(w, key);
    var active, authorized := key.tenantId in w.activeTenants, Authorized(w, call);
    BeginsAlone(sha, w, id, key, Read(callerId), [look, get]);
    assert CellInv(sha, key, cell);
    var first := CallStep(sha, call, cell, active, authorized, look);
    var second := CallStep(sha, call.(phase := first.phase), cell, active, authorized, get);
    StepsAlone(sha, call, active, authorized, [look, get], [Effect(cell, ReadFind), first, second]);
  }

  /** What a deletion of an AVAILABLE artifact leaves and answers, by how the provider takes it. */
  function DeleteOutcome(row: Row, blob: Option<Blob>, reply: Reply): Effect {
    if reply == Answers then Effect(Cell(Some(row.(status := Deleted, version := row.version + 2)), None), Done(Removed(true)))
    else Effect(Cell(Some(row.(version := row.version + 2)), if reply == Throws then blob else None), Done(Thrown(ProviderUnavailable)))
  }

  lemma RemovesAlone(sha: Digest, call: Call, cell: Cell, active: bool, os: seq<Outcome>)
    requires CellInv(sha, call.key, cell) && call.request.Delete? && call.phase.DeleteFind? && |os| == 4
    requires cell.row.Some? && cell.row.value.status == Available
    ensures Alone(sha, call, cell, active, true, os) == DeleteOutcome(cell.row.value, cell.blob, os[2].reply)
  {
    var row, reply := cell.row.value, os[2].reply;
    var claimed := row.(status := Deleting, version := row.version + 1);
    var next := if reply == Answers then DeleteComplete(claimed) else DeleteRestore(claimed);
    var effects := [Effect(cell, DeleteFind), Effect(cell, DeleteClaim(row)),
                    Effect(cell.(row := Some(claimed)), DeleteBlob(claimed, row.etag.value)),
                    Effect(Cell(Some(claimed), if reply == Throws then cell.blob else None), next),
                    DeleteOutcome(row, cell.blob, reply)];
    forall k | 0 <= k < 4
      ensures effects[k + 1] == CallStep(sha, call.(phase := effects[k].phase), effects[k].cell, active, true, os[k])
    {
      if k == 0 {
      } else if k == 1 {
      } else if k == 2 {
      } else {
      }
    }
    StepsAlone(sha, call, active, true, os, effects);
  }

  lemma RefusesAlone(sha: Digest, call: Call, cell: Cell, active: bool, authorized: bool, os: seq<Outcome>)
    requires call.request.Delete? && call.phase.DeleteFind? && |os| > 0
    requires !authorized || cell.row.None? || cell.row.value.status != Available
    ensures Alone(sha, call, cell, active, authorized, os) == Effect(cell, Done(Removed(false)))
  {
    DoneAlone(sha, call.(phase := Done(Removed(false))), cell, active, authorized, os[1..]);
  }

  /**
   A deletion that nothing disturbs removes an AVAILABLE artifact for a caller with access when the provider answers. When
   that throws, the row is AVAILABLE again and the error is reported. Otherwise nothing is removed and nothing changes.
   */
  lemma UndisturbedDeleteExactly(sha: Digest, w: World, id: CallId, key: Key, callerId: string, os: seq<Outcome>)
    requires Inv(sha, w) && id !in w.calls && |os| == 4
    ensures var w' := Run(sha, w, [Begin(id, key, Delete(callerId))] + Advances(id, os));
            var cell := CellOf(w, key);
            && id in w'.calls
            && Effect(CellOf(w', key), w'.calls[id].phase) ==
               if Permitted(w, key, callerId) then DeleteOutcome(cell.row.value, cell.blob, os[2].reply)
               else Effect(cell, Done(Removed(false)))
  {
    var call, cell := Call(key, Delete(callerId), DeleteFind), CellOf(w, key);
    BeginsAlone(sha, w, id, key, Delete(callerId), os);
    assert CellInv(sha, key, cell);
    if Permitted(w, key, callerId) {
      RemovesAlone(sha, call, cell, key.tenantId in w.activeTenants, os);
    } else {
      RefusesAlone(sha, call, cell, key.tenantId in w.activeTenants, Authorized(w, call), os);
    }
  }

  /** The object under the key once the bytes have been uploaded; an object that is there is never overwritten. */
  function Uploaded(blob: Option<Blob>, bytes: Bytes, upload: Outcome): Option<Blob> {
    if blob.Some? || upload.reply == Throws then blob else Some(Blob(bytes, upload.etag))
  }

  /**
   What writing a PENDING row leaves and answers. When the upload has not simply succeeded, the object under the key is
   looked at. A fitting object is published; any other is discarded, and the row has FAILED.
   */
  function WriteOutcome(row: Row, blob: Option<Blob>, bytes: Bytes, os: seq<Outcome>): Effect
    requires |os| == 4
  {
    var looks := blob.Some? || os[0].reply != Answers;
    var held := Uploaded(blob, bytes, os[0]);
    if held.Some? && |held.value.bytes| == row.byteCount && (looks ==> os[1].reply == Answers) then
      Effect(Cell(Some(Row(Available, row.version + 1, row.byteCount, Some(held.value.etag))), held), Done(Stored(row.byteCount)))
    else
      var left := if os[if looks then 2 else 1].reply == Throws then held else None;
      Effect(Cell(Some(Row(Failed, row.version + 1, row.byteCount, None)), left),
             Done(Thrown(if looks then ProviderUnavailable else IntegrityMismatch)))
  }

  /** A put that owns a PENDING row, from its upload on. */
  lemma WritesAlone(sha: Digest, call: Call, cell: Cell, active: bool, os: seq<Outcome>)
    requires CellInv(sha, call.key, cell) && call.request.Put? && sha(call.request.bytes) == call.key.sha256 && |os| == 4
    requires call.phase.PutBlob? && cell.row == Some(call.phase.row) && call.phase.row.status == Pending
    ensures Alone(sha, call, cell, active, false, os) == WriteOutcome(call.phase.row, cell.blob, call.request.bytes, os)
  {
    var row, bytes := call.phase.row, call.request.bytes;
    var looks, held := cell.blob.Some? || os[0].reply != Answers, Uploaded(cell.blob, bytes, os[0]);
    var done, uploaded := WriteOutcome(row, cell.blob, bytes, os), cell.(blob := held);
    if looks {
      if done.phase.answer.Stored? {
        StepsAlone(sha, call, active, false, os,
          [Effect(cell, call.phase), Effect(uploaded, PutAdopt(row)), Effect(uploaded, PutFinalize(row, held.value.etag)), done, done]);
      } else {
        StepsAlone(sha, call, active, false, os,
          [Effect(cell, call.phase), Effect(uploaded, PutAdopt(row)), Effect(uploaded, PutCompensate(row, None, ProviderUnavailable)),
           Effect(Cell(cell.row, done.cell.blob), PutFail(row, ProviderUnavailable)), done]);
      }
    } else if done.phase.answer.Stored? {
      StepsAlone(sha, call, active, false, os,
        [Effect(cell, call.phase), Effect(uploaded, PutFinalize(row, os[0].etag)), done, done, done]);
    } else {
      StepsAlone(sha, call, active, false, os,
        [Effect(cell, call.phase), Effect(uploaded, PutCompensate(row, Some(os[0].etag), IntegrityMismatch)),
         Effect(Cell(cell.row, done.cell.blob), PutFail(row, IntegrityMismatch)), done, done]);
    }
  }

  /** What a put leaves and answers, by the row it finds. */
  function PutOutcome(cell: Cell, bytes: Bytes, os: seq<Outcome>): Effect
    requires |os| == 7
  {
    match cell.row
    case None => WriteOutcome(Row(Pending, 1, |bytes|, None), cell.blob, bytes, os[1..5])
    case Some(row) =>
      match row.status
      case Available => Effect(cell, Done(if os[2].reply == Answers then Stored(row.byteCount) else Thrown(ProviderUnavailable)))
      case Failed => WriteOutcome(Row(Pending, row.version + 1, row.byteCount, None), cell.blob, bytes, os[3..])
      case Pending | Deleting | Deleted => Effect(cell, Done(Thrown(StillPending)))
  }

  /** The first put of an artifact: insert and write. */
  lemma PutsFirst(sha: Digest, call: Call, cell: Cell, os: seq<Outcome>)
    requires CellInv(sha, call.key, cell) && call.request.Put? && call.phase.PutInsert? && |os| == 7
    requires |call.request.bytes| == call.request.byteCount && sha(call.request.bytes) == call.key.sha256 && cell.row.None?
    ensures Alone(sha, call, cell, true, false, os) == PutOutcome(cell, call.request.bytes, os)
  {
    var row := Row(Pending, 1, call.request.byteCount, None);
    var inserted, done := cell.(row := Some(row)), PutOutcome(cell, call.request.bytes, os);
    WritesAlone(sha, call.(phase := PutBlob(row)), inserted, true, os[1..5]);
    AloneAppend(sha, call.(phase := PutBlob(row)), inserted, true, false, os[1..5], os[5..]);
    DoneAlone(sha, call.(phase := done.phase), done.cell, true, false, os[5..]);
    assert os[1..5] + os[5..] == os[1..];
  }

  /** A put of an artifact whose row has failed: reclaim and write. */
  lemma PutsOnceMore(sha: Digest, call: Call, cell: Cell, os: seq<Outcome>)
    requires CellInv(sha, call.key, cell) && call.request.Put? && call.phase.PutInsert? && |os| == 7
    requires sha(call.request.bytes) == call.key.sha256 && cell.row.Some? && cell.row.value.status == Failed
    ensures Alone(sha, call, cell, true, false, os) == PutOutcome(cell, call.request.bytes, os)
  {
    var row := Row(Pending, cell.row.value.version + 1, cell.row.value.byteCount, None);
    var claimed := cell.(row := Some(row));
    StepsAlone(sha, call, true, false, os[..3],
      [Effect(cell, PutInsert), Effect(cell, PutFind), Effect(cell, PutReclaim(cell.row.value)), Effect(claimed, PutBlob(row))]);
    WritesAlone(sha, call.(phase := PutBlob(row)), claimed, true, os[3..]);
    AloneAppend(sha, call, cell, true, false, os[..3], os[3..]);
    assert os[..3] + os[3..] == os;
  }

  /** A put of an artifact whose row is there, and has not failed. */
  lemma PutsAgain(sha: Digest, call: Call, cell: Cell, os: seq<Outcome>)
    requires CellInv(sha, call.key, cell) && call.request.Put? && call.phase.PutInsert? && |os| == 7
    requires cell.row.Some? && cell.row.value.status != Failed
    ensures Alone(sha, call, cell, true, false, os) == PutOutcome(cell, call.request.bytes, os)
  {
    var done := PutOutcome(cell, call.request.bytes, os);
    var second := if cell.row.value.status == Available then Effect(cell, PutHead(cell.row.value)) else done;
    StepsAlone(sha, call, true, false, os, [Effect(cell, PutInsert), Effect(cell, PutFind), second, done, done, done, done, done]);
  }

  /**
   A put that nothing disturbs, however the provider takes each of its steps: bytes that are not the described ones and
   inactive tenants are refused without effect. Otherwise a new row is written, and one that has failed is written again;
   an AVAILABLE artifact is stored already; and a row that is claimed or DELETED is left as it is.
   */
  lemma UndisturbedPutExactly(sha: Digest, w: World, id: CallId, key: Key, bytes: Bytes, byteCount: nat, os: seq<Outcome>)
    requires Inv(sha, w) && id !in w.calls && |os| == 7
    ensures var w' := Run(sha, w, [Begin(id, key, Put(bytes, byteCount))] + Advances(id, os));
            && id in w'.calls
            && Effect(CellOf(w', key), w'.calls[id].phase) ==
               if |bytes| != byteCount || sha(bytes) != key.sha256 then Effect(CellOf(w, key), Done(Thrown(IntegrityMismatch)))
               else if key.tenantId !in w.activeTenants then Effect(CellOf(w, key), Done(Thrown(TenantUnavailable)))
               else PutOutcome(CellOf(w, key), bytes, os)
  {
    var request, cell := Put(bytes, byteCount), CellOf(w, key);
    var call := Call(key, request, FirstPhase(sha, key, request));
    BeginsAlone(sha, w, id, key, request, os);
    assert CellInv(sha, key, cell);
    if call.phase.Done? {
      DoneAlone(sha, call, cell, key.tenantId in w.activeTenants, false, os);
    } else if key.tenantId !in w.activeTenants {
      DoneAlone(sha, call.(phase := Done(Thrown(TenantUnavailable))), cell, false, false, os[1..]);
    } else if cell.row.None? {
      PutsFirst(sha, call, cell, os);
    } else if cell.row.value.status != Failed {
      PutsAgain(sha, call, cell, os);
    } else {
      PutsOnceMore(sha, call, cell, os);
    }
  }

  // ---------------------------------------------------------------------------------------------
  // A put that answers while a deletion is under way
  // ---------------------------------------------------------------------------------------------

  /** One more event of a faithful run. */
  lemma OneMoreEvent(sha: Digest, events: seq<Event>, w: World, e: Event) returns (w': World)
    requires FaithfulRun(sha, EMPTY, events) && Run(sha, EMPTY, events) == w && Faithful(w, e)
    ensures FaithfulRun(sha, EMPTY, events + [e]) && Run(sha, EMPTY, events + [e]) == w' == Next(sha, w, e)
  {
    RunSnoc(sha, EMPTY, events, e);
    w' := Next(sha, w, e);
  }

  /** The artifact has been stored by call 0, with the version a put and its publication give it. */
  ghost predicate FirstStored(w: World, key: Key, bytes: Bytes, etag: Etag) {
    && w.cells == map[key := Cell(Some(Row(Available, 2, |bytes|, Some(etag))), Some(Blob(bytes, etag)))]
    && w.calls.Keys == {0} && w.calls[0].phase.Done?
    && key.tenantId in w.activeTenants && Grant(key.tenantId, key.caseId, "caller") in w.grants
  }

  lemma StoreFirst(sha: Digest, key: Key, bytes: Bytes, o: Outcome) returns (events: seq<Event>)
    requires sha(bytes) == key.sha256 && o.reply == Answers
    ensures FaithfulRun(sha, EMPTY, events) && FirstStored(Run(sha, EMPTY, events), key, bytes, o.etag)
  {
    var govern := Govern({key.tenantId}, {Grant(key.tenantId, key.caseId, "caller")});
    events := [];
    var w := OneMoreEvent(sha, events, EMPTY, govern);
    events := events + [govern];
    w := OneMoreEvent(sha, events, w, Begin(0, key, Put(bytes, |bytes|)));
    events := events + [Begin(0, key, Put(bytes, |bytes|))];
    w := OneMoreEvent(sha, events, w, Advance(0, o));
    events := events + [Advance(0, o)];
    assert w.calls[0].phase == PutBlob(Row(Pending, 1, |bytes|, None));
    w := OneMoreEvent(sha, events, w, Advance(0, o));
    events := events + [Advance(0, o)];
    assert w.calls[0].phase == PutFinalize(Row(Pending, 1, |bytes|, None), o.etag);
    w := OneMoreEvent(sha, events, w, Advance(0, o));
    events := events + [Advance(0, o)];
  }

  /** A second put has found it, and is about to look at its object. */
  ghost predicate SecondLooks(w: World, key: Key, bytes: Bytes, etag: Etag) {
    && w.cells == map[key := Cell(Some(Row(Available, 2, |bytes|, Some(etag))), Some(Blob(bytes, etag)))]
    && w.calls.Keys == {0, 1}
    && w.calls[1] == Call(key, Put(bytes, |bytes|), PutHead(Row(Available, 2, |bytes|, Some(etag))))
    && key.tenantId in w.activeTenants && Grant(key.tenantId, key.caseId, "caller") in w.grants
  }

  lemma FindSecond(sha: Digest, key: Key, bytes: Bytes, o: Outcome) returns (events: seq<Event>)
    requires sha(bytes) == key.sha256 && o.reply == Answers
    ensures FaithfulRun(sha, EMPTY, events) && SecondLooks(Run(sha, EMPTY, events), key, bytes, o.etag)
  {
    events := StoreFirst(sha, key, bytes, o);
    var w := Run(sha, EMPTY, events);
    w := OneMoreEvent(sha, events, w, Begin(1, key, Put(bytes, |bytes|)));
    events := events + [Begin(1, key, Put(bytes, |bytes|))];
    w := OneMoreEvent(sha, events, w, Advance(1, o));
    events := events + [Advance(1, o)];
    assert w.calls[1].phase == PutFind;
    w := OneMoreEvent(sha, events, w, Advance(1, o));
    events := events + [Advance(1, o)];
  }

  /** A second put finds the artifact, a deletion claims it, and the put's look at the object still finds it there. */
  lemma StoredWhileDeleting(sha: Digest, key: Key, bytes: Bytes, etag: Etag) returns (events: seq<Event>)
    requires sha(bytes) == key.sha256
    ensures FaithfulRun(sha, EMPTY, events)
    ensures var w := Run(sha, EMPTY, events);
            && 1 in w.calls && w.calls[1] == Call(key, Put(bytes, |bytes|), Done(Stored(|bytes|)))
            && CellOf(w, key).row.Some? && CellOf(w, key).row.value.status == Deleting
  {
    var o := Outcome(Answers, etag);
    events := FindSecond(sha, key, bytes, o);
    var w := Run(sha, EMPTY, events);
    w := OneMoreEvent(sha, events, w, Begin(2, key, Delete("caller")));
    events := events + [Begin(2, key, Delete("caller"))];
    w := OneMoreEvent(sha, events, w, Advance(2, o));
    events := events + [Advance(2, o)];
    w := OneMoreEvent(sha, events, w, Advance(2, o));
    events := events + [Advance(2, o)];
    w := OneMoreEvent(sha, events, w, Advance(1, o));
    events := events + [Advance(1, o)];
  }
}
