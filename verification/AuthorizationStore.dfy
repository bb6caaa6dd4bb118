/**
 The store of GitHub installations, repositories and webhook deliveries, and what a run of webhooks does to it.

 Each statement list runs in one transaction: a violated constraint aborts it and nothing changes. Installation ids
 and provider repository ids are unique across tenants.
 */
module AuthorizationStore {
  import opened Wrappers
  import opened Lists
  import opened AuthorizationState

  // ---------------------------------------------------------------------------------------------
  // Rows
  // ---------------------------------------------------------------------------------------------

  /** What the provider says about an account; it plays no part in authorization. */
  datatype Details = Details(accountId: int, accountLogin: string, selection: string)

  datatype Installation = Installation(tenantId: string, details: Details, state: State)

  datatype Info = Info(fullName: string, defaultBranch: string, isPrivate: bool)

  datatype Repository = Repository(
    tenantId: string,
    repositoryId: string,
    installationId: int,
    providerId: int,
    info: Info,
    state: State)

  datatype Outcome = PROCESSING | ACCEPTED | IGNORED

  datatype Delivery = Delivery(tenantId: Option<string>, outcome: Outcome)

  datatype Tables = Tables(
    installations: map<int, Installation>,
    repositories: seq<Repository>,
    deliveries: map<string, Delivery>)

  predicate RowsApart(a: Repository, b: Repository) {
    a.providerId != b.providerId && (a.tenantId != b.tenantId || a.repositoryId != b.repositoryId)
  }

  ghost predicate Valid(t: Tables) {
    && Pairwise(RowsApart, t.repositories)
    && (forall i :: 0 <= i < |t.repositories| ==> Owned(t, t.repositories[i]))
    && (forall i :: 0 <= i < |t.repositories| ==> t.repositories[i].state.status != SUSPENDED)
  }

  /** The foreign key of a repository. */
  predicate Owned(t: Tables, r: Repository) {
    r.installationId in t.installations && t.installations[r.installationId].tenantId == r.tenantId
  }

  // ---------------------------------------------------------------------------------------------
  // Events
  // ---------------------------------------------------------------------------------------------

  datatype Verified = Verified(providerId: int, info: Info)

  /** An installation as the provider describes it now. */
  datatype Snapshot = Snapshot(
    installationId: int,
    details: Details,
    updatedAt: Option<int>,
    repositories: seq<Verified>)

  datatype InstallationPayload = InstallationPayload(
    action: string,
    installationId: int,
    permissionsExact: bool,
    updatedAt: int)

  /** An added repository counts only when it carries all of its metadata. */
  datatype RepositoryPayload = RepositoryPayload(
    installationId: int,
    updatedAt: int,
    added: seq<(int, Option<Info>)>,
    removed: seq<int>)

  datatype Body =
    | InstallationEvent(installation: InstallationPayload)
    | RepositoryEvent(repositories: RepositoryPayload)
    | InvalidEvent

  /** A delivery with the snapshot fetched for it, if any, and the ids to give to repositories it inserts. */
  datatype Envelope = Envelope(deliveryId: string, body: Body, snapshot: Option<Snapshot>, ids: int -> string)

  // ---------------------------------------------------------------------------------------------
  // Repositories
  // ---------------------------------------------------------------------------------------------

  function Find(rows: seq<Repository>, providerId: int): (r: Option<nat>)
    ensures r.Some? ==> r.value < |rows| && rows[r.value].providerId == providerId
    ensures r.None? ==> forall i :: 0 <= i < |rows| ==> rows[i].providerId != providerId
  {
    if rows == [] then None
    else if rows[0].providerId == providerId then Some(0)
    else
      var rest := Find(rows[1..], providerId);
      if rest.Some? then Some(rest.value + 1) else None
  }

  predicate IdTaken(rows: seq<Repository>, tenantId: string, repositoryId: string) {
    exists i :: 0 <= i < |rows| && rows[i].tenantId == tenantId && rows[i].repositoryId == repositoryId
  }

  predicate Belongs(r: Repository, tenantId: string, installationId: int) {
    r.tenantId == tenantId && r.installationId == installationId
  }

  /** INSERT; `None` when a unique constraint is violated. */
  function InsertRow(rows: seq<Repository>, row: Repository): Option<seq<Repository>> {
    if Find(rows, row.providerId).Some? || IdTaken(rows, row.tenantId, row.repositoryId) then None
    else Some(rows + [row])
  }

  /** upsertRepository. */
  function Upsert(rows: seq<Repository>, tenantId: string, installationId: int, v: Verified, at: Option<int>, id: string)
    : Option<seq<Repository>>
  {
    var found := Find(rows, v.providerId);
    if found.Some? && Belongs(rows[found.value], tenantId, installationId) then
      var row := rows[found.value];
      var kept := if at.Some? then at else row.state.updatedAt;
      Some(rows[found.value := row.(info := v.info, state := State(kept, ACTIVE))])
    else
      InsertRow(rows, Repository(tenantId, id, installationId, v.providerId, v.info, State(at, ACTIVE)))
  }

  function UpsertAll(rows: seq<Repository>, tenantId: string, installationId: int, vs: seq<Verified>, at: Option<int>,
                     ids: int -> string): Option<seq<Repository>>
  {
    if vs == [] then Some(rows)
    else
      var before := UpsertAll(rows, tenantId, installationId, vs[..|vs| - 1], at, ids);
      var v := vs[|vs| - 1];
      if before.None? then None else Upsert(before.value, tenantId, installationId, v, at, ids(v.providerId))
  }

  /** UPDATE … SET status = 'REMOVED' WHERE … AND status = 'ACTIVE'; the provider's time stays. */
  function Withdraw(rows: seq<Repository>, tenantId: string, installationId: int): seq<Repository> {
    Apply((r: Repository) =>
            if Belongs(r, tenantId, installationId) then r.(state := r.state.(status := REMOVED)) else r, rows)
  }

  /** applyRepositoryTransition; `info` is there for added repositories only. */
  function Transit(rows: seq<Repository>, tenantId: string, installationId: int, providerId: int, t: Transition,
                   info: Option<Info>, id: string): Option<seq<Repository>>
  {
    var found := Find(rows, providerId);
    if found.None? || !Belongs(rows[found.value], tenantId, installationId) then
      if t.status == ACTIVE && info.Some? then
        InsertRow(rows, Repository(tenantId, id, installationId, providerId, info.value, State(Some(t.at), ACTIVE)))
      else Some(rows)
    else
      var row := rows[found.value];
      var next := Reduce(row.state, t);
      if next == row.state then Some(rows)
      else Some(rows[found.value := row.(state := next, info := if info.Some? then info.value else row.info)])
  }

  function RemoveAll(rows: seq<Repository>, tenantId: string, p: RepositoryPayload, n: nat): Option<seq<Repository>>
    requires n <= |p.removed|
  {
    if n == 0 then Some(rows)
    else
      var before := RemoveAll(rows, tenantId, p, n - 1);
      if before.None? then None
      else Transit(before.value, tenantId, p.installationId, p.removed[n - 1], Transition(p.updatedAt, REMOVED), None, "")
  }

  function AddAll(rows: seq<Repository>, tenantId: string, p: RepositoryPayload, n: nat, ids: int -> string)
    : Option<seq<Repository>>
    requires n <= |p.added|
  {
    if n == 0 then Some(rows)
    else
      var before := AddAll(rows, tenantId, p, n - 1, ids);
      var (providerId, info) := p.added[n - 1];
      if before.None? || info.None? then before
      else Transit(before.value, tenantId, p.installationId, providerId, Transition(p.updatedAt, ACTIVE), info, ids(providerId))
  }

  // ---------------------------------------------------------------------------------------------
  // Webhooks
  // ---------------------------------------------------------------------------------------------

  /** The status an installation webhook asks for; other actions are ignored. */
  function Desired(p: InstallationPayload): Option<Status> {
    if p.action == "deleted" then Some(REMOVED)
    else if p.action == "suspended" || !p.permissionsExact then Some(SUSPENDED)
    else if p.action == "unsuspended" || p.action == "new_permissions_accepted" then Some(ACTIVE)
    else None
  }

  /** applyInstallationWebhook; whether it changed anything decides whether the delivery counts as accepted. */
  function ApplyInstallation(t: Tables, p: InstallationPayload): (Tables, bool)
    requires p.installationId in t.installations
  {
    var row := t.installations[p.installationId];
    var desired := Desired(p);
    if desired.None? then (t, false)
    else
      var next := Reduce(row.state, Transition(p.updatedAt, desired.value));
      if next == row.state then (t, false)
      else
        var installations := t.installations[p.installationId := row.(state := next)];
        var repositories :=
          if next.status == REMOVED then Withdraw(t.repositories, row.tenantId, p.installationId) else t.repositories;
        (t.(installations := installations, repositories := repositories), true)
  }

  /** The reconciliation of an installation with a snapshot of it. */
  function Reconcile(t: Tables, s: Snapshot, ids: int -> string): Option<Tables>
    requires s.installationId in t.installations
  {
    var row := t.installations[s.installationId];
    var kept := if s.updatedAt.Some? then s.updatedAt else row.state.updatedAt;
    var rows := UpsertAll(Withdraw(t.repositories, row.tenantId, s.installationId), row.tenantId, s.installationId,
                          s.repositories, s.updatedAt, ids);
    if rows.None? then None
    else
      Some(t.(installations := t.installations[s.installationId := row.(details := s.details, state := row.state.(updatedAt := kept))],
              repositories := rows.value))
  }

  /** applyRepositoryWebhook; a snapshot of another installation makes it throw. */
  function ApplyRepositories(t: Tables, p: RepositoryPayload, snapshot: Option<Snapshot>, ids: int -> string): Option<Tables>
    requires p.installationId in t.installations
  {
    if snapshot.Some? then
      if snapshot.value.installationId != p.installationId then None else Reconcile(t, snapshot.value, ids)
    else
      var tenantId := t.installations[p.installationId].tenantId;
      var removed := RemoveAll(t.repositories, tenantId, p, |p.removed|);
      var added := if removed.None? then None else AddAll(removed.value, tenantId, p, |p.added|, ids);
      if added.None? then None else Some(t.(repositories := added.value))
  }

  datatype Answer = Accepted | Duplicate

  function Record(t: Tables, deliveryId: string, tenantId: Option<string>, outcome: Outcome): Tables {
    t.(deliveries := t.deliveries[deliveryId := Delivery(tenantId, outcome)])
  }

  /** processWebhook; `None` when the transaction throws, and then nothing has changed. */
  function Process(t: Tables, e: Envelope): Option<(Tables, Answer)> {
    if e.deliveryId in t.deliveries then
      if e.body.RepositoryEvent? && e.snapshot.Some? && e.body.repositories.installationId in t.installations then
        var after := ApplyRepositories(t, e.body.repositories, e.snapshot, e.ids);
        if after.None? then None else Some((after.value, Duplicate))
      else Some((t, Duplicate))
    else
      match e.body
      case InvalidEvent => Some((Record(t, e.deliveryId, None, IGNORED), Accepted))
      case InstallationEvent(p) =>
        if p.installationId !in t.installations then Some((Record(t, e.deliveryId, None, IGNORED), Accepted))
        else
          var (after, changed) := ApplyInstallation(t, p);
          var tenantId := Some(t.installations[p.installationId].tenantId);
          Some((Record(after, e.deliveryId, tenantId, if changed then ACCEPTED else IGNORED), Accepted))
      case RepositoryEvent(p) =>
        if p.installationId !in t.installations then Some((Record(t, e.deliveryId, None, IGNORED), Accepted))
        else
          var after := ApplyRepositories(t, p, e.snapshot, e.ids);
          if after.None? then None
          else
            var tenantId := Some(t.installations[p.installationId].tenantId);
            Some((Record(after.value, e.deliveryId, tenantId, ACCEPTED), Accepted))
  }

  /** A run of webhooks, those that throw included. */
  function Run(t: Tables, es: seq<Envelope>): Tables {
    if es == [] then t
    else
      var before := Run(t, es[..|es| - 1]);
      var after := Process(before, es[|es| - 1]);
      if after.Some? then after.value.0 else before
  }

  /** bind; `None` when the installation or one of its repositories belongs elsewhere. */
  function Bind(t: Tables, tenantId: string, s: Snapshot, ids: int -> string): Option<Tables> {
    if s.installationId in t.installations && t.installations[s.installationId].tenantId != tenantId then None
    else
      var rows := UpsertAll(Withdraw(t.repositories, tenantId, s.installationId), tenantId, s.installationId,
                            s.repositories, None, ids);
      if rows.None? then None
      else
        Some(t.(installations := t.installations[s.installationId := Installation(tenantId, s.details, State(s.updatedAt, ACTIVE))],
                repositories := rows.value))
  }

  // ---------------------------------------------------------------------------------------------
  // Reading
  // ---------------------------------------------------------------------------------------------

  /** The collation of the database: a strict total order on texts. */
  type Collation = (string, string) -> bool

  function ById(collation: Collation): (Repository, Repository) -> bool {
    (a: Repository, b: Repository) => collation(a.repositoryId, b.repositoryId)
  }

  /** The WHERE clause of the list query. */
  function Listed(collation: Collation, t: Tables, tenantId: string, cursor: Option<string>): Repository -> bool {
    (r: Repository) =>
      && r.tenantId == tenantId && r.state.status == ACTIVE
      && r.installationId in t.installations && t.installations[r.installationId].state.status == ACTIVE
      && (cursor.None? || collation(cursor.value, r.repositoryId))
  }

  /** All rows the list query selects, in order. */
  function Selected(collation: Collation, t: Tables, tenantId: string, cursor: Option<string>): seq<Repository> {
    Sort(ById(collation), Where(Listed(collation, t, tenantId, cursor), t.repositories))
  }

  datatype Page = Page(repositories: seq<Repository>, nextCursor: Option<string>)

  /** listRepositories; one more row than asked for tells whether there is a next page. */
  function ListRepositories(collation: Collation, t: Tables, tenantId: string, cursor: Option<string>, limit: nat): Page
    requires limit >= 1
  {
    var selected := Selected(collation, t, tenantId, cursor);
    var rows := if |selected| > limit + 1 then selected[..limit + 1] else selected;
    var page := if |rows| > limit then rows[..limit] else rows;
    Page(page, if |rows| > limit then Some(page[|page| - 1].repositoryId) else None)
  }

  /** The CASE expression of the repository query. */
  function Effective(t: Tables, r: Repository): Status
    requires Owned(t, r)
  {
    var installation := t.installations[r.installationId].state.status;
    if installation == SUSPENDED then SUSPENDED
    else if installation == REMOVED || r.state.status == REMOVED then REMOVED
    else ACTIVE
  }

  /** findRepository: the row and its effective status. */
  function FindRepository(t: Tables, tenantId: string, repositoryId: string): Option<(Repository, Status)>
    requires Valid(t)
  {
    var rows := Where((r: Repository) => r.tenantId == tenantId && r.repositoryId == repositoryId, t.repositories);
    if rows == [] then None
    else
      WhereMeans((r: Repository) => r.tenantId == tenantId && r.repositoryId == repositoryId, t.repositories, rows[0]);
      Some((rows[0], Effective(t, rows[0])))
  }

  // ---------------------------------------------------------------------------------------------
  // Every transaction keeps the constraints
  // ---------------------------------------------------------------------------------------------

  /** What the statements on repositories of one installation keep. */
  ghost predicate Extends(t: Tables, rows: seq<Repository>, after: seq<Repository>) {
    && |rows| <= |after|
    && (forall i :: 0 <= i < |rows| ==>
          && after[i].providerId == rows[i].providerId && after[i].tenantId == rows[i].tenantId
          && after[i].repositoryId == rows[i].repositoryId && after[i].installationId == rows[i].installationId)
    && Pairwise(RowsApart, after)
    && (forall i :: 0 <= i < |after| ==> Owned(t, after[i]) && after[i].state.status != SUSPENDED)
  }

  ghost predicate RowsValid(t: Tables, rows: seq<Repository>) { Extends(t, rows, rows) }

  lemma InsertExtends(t: Tables, rows: seq<Repository>, row: Repository)
    requires RowsValid(t, rows) && Owned(t, row) && row.state.status != SUSPENDED
    requires InsertRow(rows, row).Some?
    ensures Extends(t, rows, InsertRow(rows, row).value)
  {
  }

  lemma UpsertExtends(t: Tables, rows: seq<Repository>, tenantId: string, installationId: int, v: Verified,
                      at: Option<int>, id: string)
    requires RowsValid(t, rows)
    requires installationId in t.installations && t.installations[installationId].tenantId == tenantId
    requires Upsert(rows, tenantId, installationId, v, at, id).Some?
    ensures Extends(t, rows, Upsert(rows, tenantId, installationId, v, at, id).value)
  {
    var found := Find(rows, v.providerId);
    if !(found.Some? && Belongs(rows[found.value], tenantId, installationId)) {
      InsertExtends(t, rows, Repository(tenantId, id, installationId, v.providerId, v.info, State(at, ACTIVE)));
    }
  }

  lemma ExtendsTransitively(t: Tables, a: seq<Repository>, b: seq<Repository>, c: seq<Repository>)
    requires Extends(t, a, b) && Extends(t, b, c)
    ensures Extends(t, a, c)
  {
  }

  lemma {:induction false} UpsertAllExtends(t: Tables, rows: seq<Repository>, tenantId: string, installationId: int,
                                            vs: seq<Verified>, at: Option<int>, ids: int -> string)
    requires RowsValid(t, rows)
    requires installationId in t.installations && t.installations[installationId].tenantId == tenantId
    requires UpsertAll(rows, tenantId, installationId, vs, at, ids).Some?
    ensures Extends(t, rows, UpsertAll(rows, tenantId, installationId, vs, at, ids).value)
  {
    if vs != [] {
      var n := |vs| - 1;
      UpsertAllExtends(t, rows, tenantId, installationId, vs[..n], at, ids);
      var before := UpsertAll(rows, tenantId, installationId, vs[..n], at, ids).value;
      UpsertExtends(t, before, tenantId, installationId, vs[n], at, ids(vs[n].providerId));
      ExtendsTransitively(t, rows, before, UpsertAll(rows, tenantId, installationId, vs, at, ids).value);
    }
  }

  lemma TransitExtends(t: Tables, rows: seq<Repository>, tenantId: string, installationId: int, providerId: int,
                       tr: Transition, info: Option<Info>, id: string)
    requires RowsValid(t, rows) && tr.status != SUSPENDED
    requires installationId in t.installations && t.installations[installationId].tenantId == tenantId
    requires Transit(rows, tenantId, installationId, providerId, tr, info, id).Some?
    ensures Extends(t, rows, Transit(rows, tenantId, installationId, providerId, tr, info, id).value)
  {
    var found := Find(rows, providerId);
    if found.None? || !Belongs(rows[found.value], tenantId, installationId) {
      if tr.status == ACTIVE && info.Some? {
        InsertExtends(t, rows, Repository(tenantId, id, installationId, providerId, info.value, State(Some(tr.at), ACTIVE)));
      }
    }
  }

  lemma {:induction false} RemoveAllExtends(t: Tables, rows: seq<Repository>, tenantId: string, p: RepositoryPayload, n: nat)
    requires RowsValid(t, rows) && n <= |p.removed|
    requires p.installationId in t.installations && t.installations[p.installationId].tenantId == tenantId
    requires RemoveAll(rows, tenantId, p, n).Some?
    ensures Extends(t, rows, RemoveAll(rows, tenantId, p, n).value)
  {
    if n > 0 {
      RemoveAllExtends(t, rows, tenantId, p, n - 1);
      var before := RemoveAll(rows, tenantId, p, n - 1).value;
      TransitExtends(t, before, tenantId, p.installationId, p.removed[n - 1], Transition(p.updatedAt, REMOVED), None, "");
      ExtendsTransitively(t, rows, before, RemoveAll(rows, tenantId, p, n).value);
    }
  }

  lemma {:induction false} AddAllExtends(t: Tables, rows: seq<Repository>, tenantId: string, p: RepositoryPayload, n: nat,
                                         ids: int -> string)
    requires RowsValid(t, rows) && n <= |p.added|
    requires p.installationId in t.installations && t.installations[p.installationId].tenantId == tenantId
    requires AddAll(rows, tenantId, p, n, ids).Some?
    ensures Extends(t, rows, AddAll(rows, tenantId, p, n, ids).value)
  {
    if n > 0 {
      AddAllExtends(t, rows, tenantId, p, n - 1, ids);
      var before := AddAll(rows, tenantId, p, n - 1, ids).value;
      var (providerId, info) := p.added[n - 1];
      if info.Some? {
        TransitExtends(t, before, tenantId, p.installationId, providerId, Transition(p.updatedAt, ACTIVE), info, ids(providerId));
        ExtendsTransitively(t, rows, before, AddAll(rows, tenantId, p, n, ids).value);
      }
    }
  }

  lemma WithdrawExtends(t: Tables, rows: seq<Repository>, tenantId: string, installationId: int)
    requires RowsValid(t, rows)
    ensures Extends(t, rows, Withdraw(rows, tenantId, installationId))
  {
  }

  /** What every webhook keeps: who owns what, and that a removed installation stays removed. */
  ghost predicate Later(t: Tables, u: Tables) {
    && (forall id :: id in t.installations ==>
          && id in u.installations && u.installations[id].tenantId == t.installations[id].tenantId
          && (t.installations[id].state.status == REMOVED ==> u.installations[id].state.status == REMOVED))
    && u.installations.Keys == t.installations.Keys
    && Extends(t, t.repositories, u.repositories)
    && (forall id :: id in t.deliveries ==> id in u.deliveries)
  }

  lemma LaterIsValid(t: Tables, u: Tables)
    requires Later(t, u)
    ensures Valid(u)
  {
    forall i | 0 <= i < |u.repositories|
      ensures Owned(u, u.repositories[i])
    {
      assert Owned(t, u.repositories[i]);
    }
  }

  lemma ReconcileIsLater(t: Tables, s: Snapshot, ids: int -> string)
    requires Valid(t) && s.installationId in t.installations && Reconcile(t, s, ids).Some?
    ensures Later(t, Reconcile(t, s, ids).value)
  {
    var tenantId := t.installations[s.installationId].tenantId;
    var withdrawn := Withdraw(t.repositories, tenantId, s.installationId);
    WithdrawExtends(t, t.repositories, tenantId, s.installationId);
    UpsertAllExtends(t, withdrawn, tenantId, s.installationId, s.repositories, s.updatedAt, ids);
    ExtendsTransitively(t, t.repositories, withdrawn, Reconcile(t, s, ids).value.repositories);
  }

  lemma ApplyRepositoriesIsLater(t: Tables, p: RepositoryPayload, snapshot: Option<Snapshot>, ids: int -> string)
    requires Valid(t) && p.installationId in t.installations && ApplyRepositories(t, p, snapshot, ids).Some?
    ensures Later(t, ApplyRepositories(t, p, snapshot, ids).value)
  {
    if snapshot.Some? {
      ReconcileIsLater(t, snapshot.value, ids);
    } else {
      var tenantId := t.installations[p.installationId].tenantId;
      var removed := RemoveAll(t.repositories, tenantId, p, |p.removed|).value;
      RemoveAllExtends(t, t.repositories, tenantId, p, |p.removed|);
      AddAllExtends(t, removed, tenantId, p, |p.added|, ids);
      ExtendsTransitively(t, t.repositories, removed, ApplyRepositories(t, p, snapshot, ids).value.repositories);
    }
  }

  lemma ApplyInstallationIsLater(t: Tables, p: InstallationPayload)
    requires Valid(t) && p.installationId in t.installations
    ensures Later(t, ApplyInstallation(t, p).0)
  {
    WithdrawExtends(t, t.repositories, t.installations[p.installationId].tenantId, p.installationId);
  }

  lemma ProcessIsLater(t: Tables, e: Envelope)
    requires Valid(t) && Process(t, e).Some?
    ensures Later(t, Process(t, e).value.0)
  {
    if e.body.RepositoryEvent? && e.body.repositories.installationId in t.installations
       && ApplyRepositories(t, e.body.repositories, e.snapshot, e.ids).Some?
    {
      ApplyRepositoriesIsLater(t, e.body.repositories, e.snapshot, e.ids);
    }
    if e.body.InstallationEvent? && e.body.installation.installationId in t.installations {
      ApplyInstallationIsLater(t, e.body.installation);
    }
  }

  lemma LaterTransitively(t: Tables, u: Tables, w: Tables)
    requires Later(t, u) && Later(u, w)
    ensures Later(t, w)
  {
    forall i | 0 <= i < |w.repositories|
      ensures Owned(t, w.repositories[i])
    {
      assert Owned(u, w.repositories[i]);
    }
  }

  lemma {:induction false} RunIsLater(t: Tables, es: seq<Envelope>)
    requires Valid(t)
    ensures Later(t, Run(t, es)) && Valid(Run(t, es))
  {
    if es != [] {
      var n := |es| - 1;
      var before := Run(t, es[..n]);
      RunIsLater(t, es[..n]);
      if Process(before, es[n]).Some? {
        ProcessIsLater(before, es[n]);
        LaterTransitively(t, before, Run(t, es));
      }
    }
    LaterIsValid(t, Run(t, es));
  }

  // ---------------------------------------------------------------------------------------------
  // A deletion is final
  // ---------------------------------------------------------------------------------------------

  /** Processing the deletion of a known installation removes it. */
  lemma DeletionRemoves(t: Tables, e: Envelope)
    requires e.deliveryId !in t.deliveries && e.body.InstallationEvent?
    requires e.body.installation.action == "deleted" && e.body.installation.installationId in t.installations
    ensures Process(t, e).Some?
    ensures Process(t, e).value.0.installations[e.body.installation.installationId].state.status == REMOVED
  {
    var p := e.body.installation;
    RemovedExactlyWhen(t.installations[p.installationId].state, [Transition(p.updatedAt, REMOVED)]);
  }

  /** Nothing of the installation can be used. */
  ghost predicate Revoked(collation: Collation, t: Tables, installationId: int)
    requires Valid(t)
  {
    && (forall tenantId, repositoryId ::
          var found := FindRepository(t, tenantId, repositoryId);
          found.Some? && found.value.0.installationId == installationId ==> found.value.1 == REMOVED)
    && (forall tenantId, cursor, limit: nat :: limit >= 1 ==>
          NoneOf(ListRepositories(collation, t, tenantId, cursor, limit).repositories, installationId))
  }

  predicate NoneOf(rows: seq<Repository>, installationId: int) {
    forall i :: 0 <= i < |rows| ==> rows[i].installationId != installationId
  }

  lemma RemovedIsRevoked(collation: Collation, t: Tables, installationId: int)
    requires Total(collation) && Valid(t)
    requires installationId in t.installations && t.installations[installationId].state.status == REMOVED
    ensures Revoked(collation, t, installationId)
  {
    forall tenantId, cursor, limit: nat | limit >= 1
      ensures NoneOf(ListRepositories(collation, t, tenantId, cursor, limit).repositories, installationId)
    {
      var page := ListRepositories(collation, t, tenantId, cursor, limit).repositories;
      SelectedMeans(collation, t, tenantId, cursor);
      forall i | 0 <= i < |page|
        ensures page[i].installationId != installationId
      {
        assert page[i] in Selected(collation, t, tenantId, cursor);
      }
    }
  }

  /**
   After the deletion of an installation is processed, no run of webhooks, redeliveries and reconciliations
   included, makes any of its repositories usable again.
   */
  lemma DeletionIsFinal(collation: Collation, t: Tables, e: Envelope, es: seq<Envelope>)
    requires Total(collation) && Valid(t)
    requires e.deliveryId !in t.deliveries && e.body.InstallationEvent?
    requires e.body.installation.action == "deleted" && e.body.installation.installationId in t.installations
    ensures Process(t, e).Some?
    ensures var after := Run(Process(t, e).value.0, es);
            Valid(after) && Revoked(collation, after, e.body.installation.installationId)
  {
    DeletionRemoves(t, e);
    ProcessIsLater(t, e);
    LaterIsValid(t, Process(t, e).value.0);
    RunIsLater(Process(t, e).value.0, es);
    RemovedIsRevoked(collation, Run(Process(t, e).value.0, es), e.body.installation.installationId);
  }

  // ---------------------------------------------------------------------------------------------
  // Binding and reconciling show the snapshot
  // ---------------------------------------------------------------------------------------------

  ghost predicate Names(vs: seq<Verified>, providerId: int) { exists k :: 0 <= k < |vs| && vs[k].providerId == providerId }

  /** The repository is active in the installation. */
  ghost predicate Shown(rows: seq<Repository>, tenantId: string, installationId: int, providerId: int) {
    exists i :: 0 <= i < |rows| && IsShown(rows[i], tenantId, installationId, providerId)
  }

  predicate IsShown(r: Repository, tenantId: string, installationId: int, providerId: int) {
    Belongs(r, tenantId, installationId) && r.providerId == providerId && r.state.status == ACTIVE
  }

  lemma UpsertShows(rows: seq<Repository>, tenantId: string, installationId: int, v: Verified, at: Option<int>, id: string,
                    providerId: int)
    requires Pairwise(RowsApart, rows) && Upsert(rows, tenantId, installationId, v, at, id).Some?
    ensures Shown(Upsert(rows, tenantId, installationId, v, at, id).value, tenantId, installationId, providerId)
       <==> Shown(rows, tenantId, installationId, providerId) || v.providerId == providerId
  {
    var after, found := Upsert(rows, tenantId, installationId, v, at, id).value, Find(rows, v.providerId);
    var k := if found.Some? then found.value else |rows|;
    assert IsShown(after[k], tenantId, installationId, v.providerId);
    assert forall i :: 0 <= i < |rows| && i != k ==> after[i] == rows[i];
    if Shown(rows, tenantId, installationId, providerId) {
      var i :| 0 <= i < |rows| && IsShown(rows[i], tenantId, installationId, providerId);
      assert IsShown(after[i], tenantId, installationId, providerId);
    }
    if Shown(after, tenantId, installationId, providerId) {
      var i :| 0 <= i < |after| && IsShown(after[i], tenantId, installationId, providerId);
      assert i != k ==> IsShown(rows[i], tenantId, installationId, providerId);
    }
  }

  lemma {:induction false} UpsertAllShows(t: Tables, rows: seq<Repository>, tenantId: string, installationId: int,
                                          vs: seq<Verified>, at: Option<int>, ids: int -> string, providerId: int)
    requires RowsValid(t, rows)
    requires installationId in t.installations && t.installations[installationId].tenantId == tenantId
    requires UpsertAll(rows, tenantId, installationId, vs, at, ids).Some?
    ensures Shown(UpsertAll(rows, tenantId, installationId, vs, at, ids).value, tenantId, installationId, providerId)
       <==> Shown(rows, tenantId, installationId, providerId) || Names(vs, providerId)
  {
    if vs != [] {
      var n := |vs| - 1;
      var before := UpsertAll(rows, tenantId, installationId, vs[..n], at, ids).value;
      UpsertAllShows(t, rows, tenantId, installationId, vs[..n], at, ids, providerId);
      UpsertAllExtends(t, rows, tenantId, installationId, vs[..n], at, ids);
      UpsertShows(before, tenantId, installationId, vs[n], at, ids(vs[n].providerId), providerId);
      NamesLast(vs, providerId);
    }
  }

  lemma NamesLast(vs: seq<Verified>, providerId: int)
    requires vs != []
    ensures Names(vs, providerId) <==> Names(vs[..|vs| - 1], providerId) || vs[|vs| - 1].providerId == providerId
  {
    var n := |vs| - 1;
    if Names(vs[..n], providerId) {
      var k :| 0 <= k < n && vs[..n][k].providerId == providerId;
      assert vs[k].providerId == providerId;
    }
    if Names(vs, providerId) && vs[n].providerId != providerId {
      var k :| 0 <= k < |vs| && vs[k].providerId == providerId;
      assert vs[..n][k].providerId == providerId;
    }
  }

  /** Withdrawing everything and inserting what a snapshot lists leaves exactly that shown. */
  lemma SnapshotIsShown(t: Tables, tenantId: string, s: Snapshot, at: Option<int>, ids: int -> string, providerId: int)
    requires RowsValid(t, t.repositories)
    requires s.installationId in t.installations && t.installations[s.installationId].tenantId == tenantId
    requires UpsertAll(Withdraw(t.repositories, tenantId, s.installationId), tenantId, s.installationId, s.repositories, at, ids).Some?
    ensures var after := UpsertAll(Withdraw(t.repositories, tenantId, s.installationId), tenantId, s.installationId, s.repositories, at, ids);
            && Extends(t, t.repositories, after.value)
            && (Shown(after.value, tenantId, s.installationId, providerId) <==> Names(s.repositories, providerId))
  {
    var withdrawn := Withdraw(t.repositories, tenantId, s.installationId);
    WithdrawExtends(t, t.repositories, tenantId, s.installationId);
    UpsertAllExtends(t, withdrawn, tenantId, s.installationId, s.repositories, at, ids);
    ExtendsTransitively(t, t.repositories, withdrawn,
                        UpsertAll(withdrawn, tenantId, s.installationId, s.repositories, at, ids).value);
    UpsertAllShows(t, withdrawn, tenantId, s.installationId, s.repositories, at, ids, providerId);
    assert !Shown(withdrawn, tenantId, s.installationId, providerId);
  }

  /** The repositories of an installation that can be used, by the provider's id. */
  ghost predicate Usable(t: Tables, installationId: int, providerId: int) {
    exists i :: 0 <= i < |t.repositories| && IsUsable(t, t.repositories[i], installationId, providerId)
  }

  ghost predicate IsUsable(t: Tables, r: Repository, installationId: int, providerId: int) {
    r.installationId == installationId && r.providerId == providerId && Owned(t, r) && Effective(t, r) == ACTIVE
  }

  lemma UsableIsShown(t: Tables, tenantId: string, installationId: int, providerId: int)
    requires Valid(t) && installationId in t.installations && t.installations[installationId].tenantId == tenantId
    requires t.installations[installationId].state.status == ACTIVE
    ensures Usable(t, installationId, providerId) <==> Shown(t.repositories, tenantId, installationId, providerId)
  {
    forall i | 0 <= i < |t.repositories|
      ensures IsUsable(t, t.repositories[i], installationId, providerId)
         <==> IsShown(t.repositories[i], tenantId, installationId, providerId)
    {
      assert Owned(t, t.repositories[i]);
    }
  }

  /** Binding an installation makes exactly the repositories of the snapshot usable, whatever was there before. */
  lemma BindShowsTheSnapshot(t: Tables, tenantId: string, s: Snapshot, ids: int -> string, providerId: int)
    requires Valid(t) && Bind(t, tenantId, s, ids).Some?
    ensures var u := Bind(t, tenantId, s, ids).value;
            Valid(u) && (Usable(u, s.installationId, providerId) <==> Names(s.repositories, providerId))
  {
    var u := Bind(t, tenantId, s, ids).value;
    var bound := t.(installations := u.installations);
    forall i | 0 <= i < |t.repositories|
      ensures Owned(bound, t.repositories[i])
    {
      assert Owned(t, t.repositories[i]);
    }
    SnapshotIsShown(bound, tenantId, s, None, ids, providerId);
    forall i | 0 <= i < |u.repositories|
      ensures Owned(u, u.repositories[i])
    {
      assert Owned(bound, u.repositories[i]);
    }
    UsableIsShown(u, tenantId, s.installationId, providerId);
  }

  /** So does reconciling an active installation; one that is suspended or removed shows nothing. */
  lemma ReconcileShowsTheSnapshot(t: Tables, s: Snapshot, ids: int -> string, providerId: int)
    requires Valid(t) && s.installationId in t.installations && Reconcile(t, s, ids).Some?
    ensures Usable(Reconcile(t, s, ids).value, s.installationId, providerId)
       <==> t.installations[s.installationId].state.status == ACTIVE && Names(s.repositories, providerId)
  {
    var tenantId, u := t.installations[s.installationId].tenantId, Reconcile(t, s, ids).value;
    SnapshotIsShown(t, tenantId, s, s.updatedAt, ids, providerId);
    ReconcileIsLater(t, s, ids);
    LaterIsValid(t, u);
    if t.installations[s.installationId].state.status == ACTIVE {
      UsableIsShown(u, tenantId, s.installationId, providerId);
    }
  }

  // ---------------------------------------------------------------------------------------------
  // Paging
  // ---------------------------------------------------------------------------------------------

  lemma ByIdIsStrict(collation: Collation)
    requires Total(collation)
    ensures StrictOrder(ById(collation))
  {
    var order := ById(collation);
    forall a: Repository, b: Repository, c: Repository
      ensures !order(a, a) && (order(a, b) && order(b, c) ==> order(a, c))
    {
      assert !collation(a.repositoryId, a.repositoryId);
      assert collation(a.repositoryId, b.repositoryId) && collation(b.repositoryId, c.repositoryId)
             ==> collation(a.repositoryId, c.repositoryId);
    }
  }

  /** The selected rows are in order, and are exactly the rows the query asks for. */
  lemma SelectedMeans(collation: Collation, t: Tables, tenantId: string, cursor: Option<string>)
    requires Total(collation) && Valid(t)
    ensures var selected := Selected(collation, t, tenantId, cursor);
            && Sorted(ById(collation), selected)
            && forall r :: r in selected <==> r in t.repositories && Listed(collation, t, tenantId, cursor)(r)
  {
    var listed := Listed(collation, t, tenantId, cursor);
    var rows := Where(listed, t.repositories);
    WherePairwise(RowsApart, listed, t.repositories);
    forall r
      ensures r in rows <==> r in t.repositories && listed(r)
    {
      WhereMeans(listed, t.repositories, r);
    }
    forall i, j | 0 <= i < j < |rows|
      ensures ById(collation)(rows[i], rows[j]) || ById(collation)(rows[j], rows[i])
    {
      assert RowsApart(rows[i], rows[j]) && rows[i] in rows && rows[j] in rows;
    }
    ByIdIsStrict(collation);
    SortSorts(ById(collation), rows);
  }

  /** What the list query shows of a tenant is what can be used. */
  lemma ListedIsUsable(collation: Collation, t: Tables, tenantId: string, r: Repository)
    requires Total(collation) && Valid(t)
    ensures r in Selected(collation, t, tenantId, None)
       <==> r in t.repositories && r.tenantId == tenantId && Effective(t, r) == ACTIVE
  {
    SelectedMeans(collation, t, tenantId, None);
  }

  /** What a tenant is told about a repository: REMOVED and SUSPENDED are the installation's own, or the row's removal. */
  ghost predicate Seen(t: Tables, r: Repository, status: Status)
    requires Owned(t, r)
  {
    var installation := t.installations[r.installationId].state.status;
    match status
    case SUSPENDED => installation == SUSPENDED
    case REMOVED => installation == REMOVED || (installation == ACTIVE && r.state.status == REMOVED)
    case ACTIVE => installation == ACTIVE && r.state.status == ACTIVE
  }

  /** A repository is found exactly when the tenant itself has a row of that id, and then with what the tenant is told. */
  lemma FoundExactly(t: Tables, tenantId: string, repositoryId: string, r: Repository, status: Status)
    requires Valid(t)
    ensures FindRepository(t, tenantId, repositoryId) == Some((r, status))
       <==> r in t.repositories && r.tenantId == tenantId && r.repositoryId == repositoryId && Owned(t, r) && Seen(t, r, status)
  {
    var named := (r: Repository) => r.tenantId == tenantId && r.repositoryId == repositoryId;
    var rows := Where(named, t.repositories);
    WhereMeans(named, t.repositories, r);
    if rows != [] {
      WhereMeans(named, t.repositories, rows[0]);
      if r in rows {
        assert r == rows[0] by {
          var i :| 0 <= i < |t.repositories| && t.repositories[i] == r;
          var k :| 0 <= k < |t.repositories| && t.repositories[k] == rows[0];
          assert i < k ==> RowsApart(t.repositories[i], t.repositories[k]);
          assert k < i ==> RowsApart(t.repositories[k], t.repositories[i]);
        }
      }
    }
  }

  /** The next page starts where this one ended. */
  lemma CursorContinues(collation: Collation, t: Tables, tenantId: string, cursor: Option<string>, limit: nat)
    requires Total(collation) && Valid(t) && limit >= 1
    ensures var selected, page := Selected(collation, t, tenantId, cursor), ListRepositories(collation, t, tenantId, cursor, limit);
            if page.nextCursor.Some? then
              |selected| > limit && page.repositories == selected[..limit]
              && Selected(collation, t, tenantId, page.nextCursor) == selected[limit..]
            else page.repositories == selected
  {
    var selected := Selected(collation, t, tenantId, cursor);
    var page := ListRepositories(collation, t, tenantId, cursor, limit);
    if page.nextCursor.Some? {
      var last, next := selected[limit - 1], Selected(collation, t, tenantId, page.nextCursor);
      assert page.repositories == selected[..limit] && page.nextCursor == Some(last.repositoryId);
      SelectedMeans(collation, t, tenantId, cursor);
      SelectedMeans(collation, t, tenantId, page.nextCursor);
      ByIdIsStrict(collation);
      forall r
        ensures r in selected[limit..] <==> r in next
      {
        RestIsAfter(collation, selected, limit, r);
        assert last in selected;
      }
      SortedIsUnique(ById(collation), selected[limit..], next);
    }
  }

  /** In an ordered list, what follows an element is what sorts after it. */
  lemma RestIsAfter(collation: Collation, rows: seq<Repository>, n: nat, r: Repository)
    requires Total(collation) && Sorted(ById(collation), rows) && 0 < n < |rows|
    ensures r in rows[n..] <==> r in rows && collation(rows[n - 1].repositoryId, r.repositoryId)
  {
    var order := ById(collation);
    if r in rows {
      var i :| 0 <= i < |rows| && rows[i] == r;
      if i < n - 1 {
        assert order(rows[i], rows[n - 1]);
      } else if i >= n {
        assert order(rows[n - 1], rows[i]) && rows[n..][i - n] == r;
      }
      assert r in rows[n..] ==> order(rows[n - 1], r);
    }
  }

  /** The pages from a cursor on, put together. */
  function AllPages(collation: Collation, t: Tables, tenantId: string, cursor: Option<string>, limit: nat): seq<Repository>
    requires Total(collation) && Valid(t) && limit >= 1
    decreases |Selected(collation, t, tenantId, cursor)|
  {
    var page := ListRepositories(collation, t, tenantId, cursor, limit);
    CursorContinues(collation, t, tenantId, cursor, limit);
    if page.nextCursor.None? then page.repositories
    else page.repositories + AllPages(collation, t, tenantId, page.nextCursor, limit)
  }

  lemma {:induction false} PagesAreSelected(collation: Collation, t: Tables, tenantId: string, cursor: Option<string>, limit: nat)
    requires Total(collation) && Valid(t) && limit >= 1
    ensures AllPages(collation, t, tenantId, cursor, limit) == Selected(collation, t, tenantId, cursor)
    decreases |Selected(collation, t, tenantId, cursor)|
  {
    CursorContinues(collation, t, tenantId, cursor, limit);
    var page := ListRepositories(collation, t, tenantId, cursor, limit);
    if page.nextCursor.Some? {
      PagesAreSelected(collation, t, tenantId, page.nextCursor, limit);
      var selected := Selected(collation, t, tenantId, cursor);
      assert selected[..limit] + selected[limit..] == selected;
    }
  }

  /**
   Following the cursor from the start ends, and shows exactly the usable repositories of the tenant, each once and
   in ascending order of id, whatever the page size.
   */
  lemma PagesShowUsableOnce(collation: Collation, t: Tables, tenantId: string, limit: nat)
    requires Total(collation) && Valid(t) && limit >= 1
    ensures var shown := AllPages(collation, t, tenantId, None, limit);
            && Sorted(ById(collation), shown)
            && (forall r :: r in shown
                            <==> r in t.repositories && r.tenantId == tenantId && Effective(t, r) == ACTIVE)
  {
    PagesAreSelected(collation, t, tenantId, None, limit);
    SelectedMeans(collation, t, tenantId, None);
    forall r
      ensures r in Selected(collation, t, tenantId, None)
         <==> r in t.repositories && r.tenantId == tenantId && Effective(t, r) == ACTIVE
    {
      ListedIsUsable(collation, t, tenantId, r);
    }
  }

  // ---------------------------------------------------------------------------------------------
  // An installation converges
  // ---------------------------------------------------------------------------------------------

  /** The transition a delivery asks of the installation. */
  ghost predicate Asks(e: Envelope, installationId: int, t: Transition) {
    && e.body.InstallationEvent? && e.body.installation.installationId == installationId
    && Desired(e.body.installation) == Some(t.status) && e.body.installation.updatedAt == t.at
  }

  ghost predicate Delivered(es: seq<Envelope>, installationId: int, t: Transition) {
    exists i :: 0 <= i < |es| && Asks(es[i], installationId, t)
  }

  /** A reconciliation of the installation that carries a time of the provider, which overwrites the one stored. */
  predicate Dates(e: Envelope, installationId: int) {
    && e.body.RepositoryEvent? && e.body.repositories.installationId == installationId
    && e.snapshot.Some? && e.snapshot.value.installationId == installationId && e.snapshot.value.updatedAt.Some?
  }

  /** What a webhook does to the state of the installation when its transaction commits. */
  function OpOf(t: Tables, e: Envelope, installationId: int): Option<Op> {
    if Process(t, e).None? then None
    else if e.deliveryId !in t.deliveries && e.body.InstallationEvent?
            && e.body.installation.installationId == installationId && Desired(e.body.installation).Some?
    then Some(Change(Transition(e.body.installation.updatedAt, Desired(e.body.installation).value)))
    else if Dates(e, installationId) then Some(Date(e.snapshot.value.updatedAt.value))
    else None
  }

  /** What a run does to the state of the installation, in order. */
  function Applied(t: Tables, es: seq<Envelope>, installationId: int): seq<Op> {
    if es == [] then []
    else
      var n := |es| - 1;
      var op := OpOf(Run(t, es[..n]), es[n], installationId);
      Applied(t, es[..n], installationId) + if op.Some? then [op.value] else []
  }

  function AfterOp(state: State, op: Option<Op>): State { if op.Some? then Step(state, op.value) else state }

  /** The row of an installation is the fold of what the run did to it. */
  lemma {:induction false} RowIsFold(t: Tables, es: seq<Envelope>, installationId: int)
    requires Valid(t) && installationId in t.installations
    ensures installationId in Run(t, es).installations
    ensures Run(t, es).installations[installationId].state
         == FoldOps(t.installations[installationId].state, Applied(t, es, installationId))
  {
    RunIsLater(t, es);
    if es != [] {
      var n := |es| - 1;
      var e, before, applied := es[n], Run(t, es[..n]), Applied(t, es[..n], installationId);
      RowIsFold(t, es[..n], installationId);
      RunIsLater(t, es[..n]);
      StepOfRow(before, e, installationId);
      var op := OpOf(before, e, installationId);
      if op.Some? {
        assert (applied + [op.value])[..|applied|] == applied;
      } else {
        assert applied + [] == applied;
      }
    }
  }

  lemma StepOfRow(t: Tables, e: Envelope, installationId: int)
    requires Valid(t) && installationId in t.installations
    ensures Process(t, e).Some? ==>
              installationId in Process(t, e).value.0.installations
              && Process(t, e).value.0.installations[installationId].state
                 == AfterOp(t.installations[installationId].state, OpOf(t, e, installationId))
  {
  }

  lemma {:induction false} DeliveriesComeFromTheRun(t: Tables, es: seq<Envelope>, id: string)
    requires id in Run(t, es).deliveries && id !in t.deliveries
    ensures exists i :: 0 <= i < |es| && es[i].deliveryId == id
  {
    if es != [] {
      var n := |es| - 1;
      if id in Run(t, es[..n]).deliveries {
        DeliveriesComeFromTheRun(t, es[..n], id);
        var i :| 0 <= i < n && es[..n][i].deliveryId == id;
        assert es[i].deliveryId == id;
      } else {
        assert es[n].deliveryId == id;
      }
    }
  }

  /** A redelivery carries the same body. */
  ghost predicate Consistent(es: seq<Envelope>, fs: seq<Envelope>) {
    forall i, j :: 0 <= i < |es| && 0 <= j < |fs| && es[i].deliveryId == fs[j].deliveryId ==> es[i].body == fs[j].body
  }

  ghost predicate Fresh(t: Tables, es: seq<Envelope>) {
    forall i :: 0 <= i < |es| ==> es[i].deliveryId !in t.deliveries
  }

  lemma DeliveredLast(es: seq<Envelope>, installationId: int, tr: Transition)
    requires es != []
    ensures Delivered(es, installationId, tr)
       <==> Delivered(es[..|es| - 1], installationId, tr) || Asks(es[|es| - 1], installationId, tr)
  {
    var n := |es| - 1;
    if Delivered(es[..n], installationId, tr) {
      var i :| 0 <= i < n && Asks(es[..n][i], installationId, tr);
      assert Asks(es[i], installationId, tr);
    }
    if Delivered(es, installationId, tr) && !Asks(es[n], installationId, tr) {
      var i :| 0 <= i < |es| && Asks(es[i], installationId, tr);
      assert es[..n][i] == es[i];
    }
  }

  lemma AppliedLast(t: Tables, es: seq<Envelope>, installationId: int, tr: Transition)
    requires es != []
    ensures var n := |es| - 1;
            Changes(Applied(t, es, installationId), tr)
            <==> Changes(Applied(t, es[..n], installationId), tr)
                 || OpOf(Run(t, es[..n]), es[n], installationId) == Some(Change(tr))
  {
  }

  /** A delivery that is new applies the transition it asks, and a redelivery none. */
  lemma NewDeliveryApplies(t: Tables, e: Envelope, installationId: int, tr: Transition)
    requires Valid(t) && installationId in t.installations
    ensures OpOf(t, e, installationId) == Some(Change(tr)) <==> Asks(e, installationId, tr) && e.deliveryId !in t.deliveries
  {
  }

  lemma RedeliveryWasAsked(t: Tables, es: seq<Envelope>, e: Envelope, installationId: int, tr: Transition)
    requires Fresh(t, [e]) && Consistent([e], es) && e.deliveryId in Run(t, es).deliveries && Asks(e, installationId, tr)
    ensures Delivered(es, installationId, tr)
  {
    assert [e][0] == e;
    DeliveriesComeFromTheRun(t, es, e.deliveryId);
    var j :| 0 <= j < |es| && es[j].deliveryId == e.deliveryId;
    assert Asks(es[j], installationId, tr);
  }

  /** Redeliveries add no transition, and no delivery is lost. */
  lemma {:induction false} AppliedMeans(t: Tables, es: seq<Envelope>, installationId: int, tr: Transition)
    requires Valid(t) && installationId in t.installations && Fresh(t, es) && Consistent(es, es)
    ensures Changes(Applied(t, es, installationId), tr) <==> Delivered(es, installationId, tr)
  {
    if es != [] {
      var n := |es| - 1;
      var e, before := es[n], Run(t, es[..n]);
      AppliedMeans(t, es[..n], installationId, tr);
      RunIsLater(t, es[..n]);
      DeliveredLast(es, installationId, tr);
      AppliedLast(t, es, installationId, tr);
      NewDeliveryApplies(before, e, installationId, tr);
      if e.deliveryId in before.deliveries && Asks(e, installationId, tr) {
        RedeliveryWasAsked(t, es[..n], e, installationId, tr);
      }
    }
  }

  /**
   Two runs that deliver the same transitions of an installation and reconcile it with the same dates leave it in the
   same state, whatever their order, redeliveries, and other webhooks between them, as long as transitions and dates
   settle. Without dated reconciliations they always do.
   */
  lemma InstallationConverges(t: Tables, es: seq<Envelope>, fs: seq<Envelope>, installationId: int)
    requires Valid(t) && installationId in t.installations
    requires Fresh(t, es) && Fresh(t, fs) && Consistent(es, es) && Consistent(fs, fs)
    requires forall tr :: Delivered(es, installationId, tr) <==> Delivered(fs, installationId, tr)
    requires forall at :: Date(at) in Applied(t, es, installationId) <==> Date(at) in Applied(t, fs, installationId)
    requires OrderFree(t.installations[installationId].state, Applied(t, es, installationId))
    ensures installationId in Run(t, es).installations && installationId in Run(t, fs).installations
    ensures Run(t, es).installations[installationId].state == Run(t, fs).installations[installationId].state
  {
    RowIsFold(t, es, installationId);
    RowIsFold(t, fs, installationId);
    var ops, others := Applied(t, es, installationId), Applied(t, fs, installationId);
    forall op
      ensures op in ops <==> op in others
    {
      SameApplied(t, es, fs, installationId, op);
    }
    SameOpsSameState(t.installations[installationId].state, ops, others);
  }

  lemma SameApplied(t: Tables, es: seq<Envelope>, fs: seq<Envelope>, installationId: int, op: Op)
    requires Valid(t) && installationId in t.installations
    requires Fresh(t, es) && Fresh(t, fs) && Consistent(es, es) && Consistent(fs, fs)
    requires op.Change? ==> (Delivered(es, installationId, op.transition) <==> Delivered(fs, installationId, op.transition))
    requires op.Date? ==> (op in Applied(t, es, installationId) <==> op in Applied(t, fs, installationId))
    ensures op in Applied(t, es, installationId) <==> op in Applied(t, fs, installationId)
  {
    if op.Change? {
      AppliedMeans(t, es, installationId, op.transition);
      AppliedMeans(t, fs, installationId, op.transition);
    }
  }

  // ---------------------------------------------------------------------------------------------
  // Exactly when runs converge
  // ---------------------------------------------------------------------------------------------

  /** Deliveries with different ids that do this to the installation, in some order. */
  ghost predicate Realizes(t: Tables, es: seq<Envelope>, installationId: int, ops: seq<Op>) {
    && Fresh(t, es) && (forall i, j :: 0 <= i < j < |es| ==> es[i].deliveryId != es[j].deliveryId)
    && multiset(Applied(t, es, installationId)) == multiset(ops)
  }

  ghost predicate EndInTheSameState(t: Tables, installationId: int, ops: seq<Op>)
    requires Valid(t) && installationId in t.installations
  {
    forall es: seq<Envelope>, fs: seq<Envelope> :: Realizes(t, es, installationId, ops) && Realizes(t, fs, installationId, ops) ==>
      StateAfter(t, es, installationId) == StateAfter(t, fs, installationId)
  }

  ghost function StateAfter(t: Tables, es: seq<Envelope>, installationId: int): State
    requires Valid(t) && installationId in t.installations
  {
    RowIsFold(t, es, installationId);
    Run(t, es).installations[installationId].state
  }

  lemma UnusedId(used: set<string>) returns (id: string)
    ensures id !in used
  {
    var rest, length := used, 0;
    while rest != {}
      invariant rest <= used && length >= 0
      invariant forall s :: s in used && s !in rest ==> |s| < length
    {
      var s :| s in rest;
      length := if |s| < length then length else |s| + 1;
      rest := rest - {s};
    }
    id := seq(length, _ => '0');
  }

  function ActionFor(status: Status): string {
    match status
    case REMOVED => "deleted"
    case SUSPENDED => "suspended"
    case ACTIVE => "unsuspended"
  }

  lemma ActionsDiffer(at: int, installationId: int, status: Status)
    ensures Desired(InstallationPayload(ActionFor(status), installationId, true, at)) == Some(status)
  {
    assert |"deleted"| == 7 && |"suspended"| == 9 && |"unsuspended"| == 11;
  }

  /** A delivery that does this to the installation; a reconciliation with no repositories always commits. */
  function DeliveryOf(op: Op, id: string, installationId: int): Envelope {
    match op
    case Change(tr) =>
      Envelope(id, InstallationEvent(InstallationPayload(ActionFor(tr.status), installationId, true, tr.at)), None, _ => "")
    case Date(at) =>
      Envelope(id, RepositoryEvent(RepositoryPayload(installationId, at, [], [])),
               Some(Snapshot(installationId, Details(0, "", ""), Some(at), [])), _ => "")
  }

  lemma DeliveryDoes(t: Tables, op: Op, id: string, installationId: int)
    requires installationId in t.installations && id !in t.deliveries
    ensures OpOf(t, DeliveryOf(op, id, installationId), installationId) == Some(op)
    ensures id in Process(t, DeliveryOf(op, id, installationId)).value.0.deliveries
  {
    if op.Change? {
      ActionsDiffer(op.transition.at, installationId, op.transition.status);
    }
  }

  /** Deliveries with ids of their own, all of them new and processed, that do this to the installation. */
  ghost predicate Delivers(t: Tables, es: seq<Envelope>, installationId: int, ops: seq<Op>) {
    && Fresh(t, es) && (forall i, j :: 0 <= i < j < |es| ==> es[i].deliveryId != es[j].deliveryId)
    && (forall i :: 0 <= i < |es| ==> es[i].deliveryId in Run(t, es).deliveries)
    && Applied(t, es, installationId) == ops
  }

  lemma OneMoreDelivered(t: Tables, installationId: int, ops: seq<Op>, before: seq<Envelope>, op: Op) returns (es: seq<Envelope>)
    requires Valid(t) && installationId in t.installations && Delivers(t, before, installationId, ops)
    ensures Delivers(t, es, installationId, ops + [op])
  {
    RunIsLater(t, before);
    var id := UnusedId(Run(t, before).deliveries.Keys);
    var e := DeliveryOf(op, id, installationId);
    DeliveryDoes(Run(t, before), op, id, installationId);
    ProcessIsLater(Run(t, before), e);
    es := before + [e];
    assert es[..|before|] == before && es[|before|] == e;
  }

  /** Anything can happen to an installation, in any order. */
  lemma {:induction false} Realized(t: Tables, installationId: int, ops: seq<Op>) returns (es: seq<Envelope>)
    requires Valid(t) && installationId in t.installations
    ensures Delivers(t, es, installationId, ops)
  {
    if ops == [] {
      es := [];
    } else {
      var n := |ops| - 1;
      var before := Realized(t, installationId, ops[..n]);
      es := OneMoreDelivered(t, installationId, ops[..n], before, ops[n]);
      assert ops == ops[..n] + [ops[n]];
    }
  }

  /** The runs that do the same to an installation all end in the same state exactly when the order is free. */
  lemma RunsConvergeExactly(t: Tables, installationId: int, ops: seq<Op>)
    requires Valid(t) && installationId in t.installations
    ensures EndInTheSameState(t, installationId, ops) <==> OrderFree(t.installations[installationId].state, ops)
  {
    var start := t.installations[installationId].state;
    OrderIrrelevantExactly(start, ops);
    if OrderFree(start, ops) {
      forall es: seq<Envelope>, fs: seq<Envelope> | Realizes(t, es, installationId, ops) && Realizes(t, fs, installationId, ops)
        ensures StateAfter(t, es, installationId) == StateAfter(t, fs, installationId)
      {
        RowIsFold(t, es, installationId);
        RowIsFold(t, fs, installationId);
        assert FoldOps(start, Applied(t, es, installationId)) == FoldOps(start, ops);
        assert FoldOps(start, Applied(t, fs, installationId)) == FoldOps(start, ops);
      }
    } else {
      var others: seq<Op> :| multiset(others) == multiset(ops) && FoldOps(start, others) != FoldOps(start, ops);
      DifferentEnds(t, installationId, ops, others);
    }
  }

  lemma DifferentEnds(t: Tables, installationId: int, ops: seq<Op>, others: seq<Op>)
    requires Valid(t) && installationId in t.installations && multiset(others) == multiset(ops)
    requires FoldOps(t.installations[installationId].state, others) != FoldOps(t.installations[installationId].state, ops)
    ensures !EndInTheSameState(t, installationId, ops)
  {
    var es := Realized(t, installationId, ops);
    var fs := Realized(t, installationId, others);
    RowIsFold(t, es, installationId);
    RowIsFold(t, fs, installationId);
    assert Realizes(t, es, installationId, ops) && Realizes(t, fs, installationId, ops);
    assert StateAfter(t, es, installationId) != StateAfter(t, fs, installationId);
  }

  /** One transition and one date: which states they may come to in either order. */
  predicate SettlesOne(state: State, tr: Transition, s: int) {
    if state.status == REMOVED then tr.status == REMOVED ==> tr.at <= s
    else if tr.status == REMOVED then tr.at == s
    else
      && tr.at <= s
      && if tr == Transition(s, SUSPENDED) then state.updatedAt.Some? && state.updatedAt.value > s ==> state.status == SUSPENDED
         else Outranked(state, tr)
  }

  /**
   A webhook that asks a transition and a dated reconciliation, processed one after the other at any tables: both
   orders leave the installation in the same state exactly when the transition settles with the date.
   */
  lemma PairConvergesExactly(t: Tables, e: Envelope, f: Envelope, installationId: int, tr: Transition)
    requires Valid(t) && installationId in t.installations
    requires e.deliveryId !in t.deliveries && e.deliveryId != f.deliveryId
    requires Asks(e, installationId, tr) && Dates(f, installationId)
    requires Process(t, e).Some? && Process(Process(t, e).value.0, f).Some?
    requires Process(t, f).Some? && Process(Process(t, f).value.0, e).Some?
    ensures StateAfter(t, [e, f], installationId) == StateAfter(t, [f, e], installationId)
       <==> SettlesOne(t.installations[installationId].state, tr, f.snapshot.value.updatedAt.value)
  {
    RunOfTwo(t, e, f);
    RunOfTwo(t, f, e);
    var first, second := Process(t, e).value.0, Process(t, f).value.0;
    ProcessIsLater(t, e);
    ProcessIsLater(t, f);
    LaterIsValid(t, first);
    LaterIsValid(t, second);
    StepOfRow(t, e, installationId);
    StepOfRow(first, f, installationId);
    StepOfRow(t, f, installationId);
    StepOfRow(second, e, installationId);
    OnlyItsDelivery(t, f, e.deliveryId);
    CommutesExactly(t.installations[installationId].state, tr, f.snapshot.value.updatedAt.value);
  }

  lemma OnlyItsDelivery(t: Tables, e: Envelope, id: string)
    requires Process(t, e).Some? && id !in t.deliveries && id != e.deliveryId
    ensures id !in Process(t, e).value.0.deliveries
  {
  }

  lemma CommutesExactly(state: State, tr: Transition, s: int)
    ensures Reduce(Dated(state, s), tr) == Dated(Reduce(state, tr), s) <==> SettlesOne(state, tr, s)
  {
  }

  /** An instance: a snapshot dated later than a suspension hides it when it arrives first, and not when second. */
  lemma ReconciliationBreaksConvergence() returns (t: Tables, suspension: Envelope, reconciliation: Envelope)
    ensures Valid(t) && 1 in t.installations && Fresh(t, [suspension, reconciliation])
    ensures suspension.deliveryId != reconciliation.deliveryId
    ensures StateAfter(t, [suspension, reconciliation], 1) == State(Some(10), SUSPENDED)
    ensures StateAfter(t, [reconciliation, suspension], 1) == State(Some(10), ACTIVE)
  {
    t := Tables(map[1 := Installation("tenant", Details(7, "octo", "all"), State(Some(0), ACTIVE))], [], map[]);
    var ask, date := Change(Transition(5, SUSPENDED)), Date(10);
    suspension, reconciliation := DeliveryOf(ask, "a", 1), DeliveryOf(date, "b", 1);
    DeliveryDoes(t, ask, "a", 1);
    DeliveryDoes(t, date, "b", 1);
    var suspended, dated := Process(t, suspension).value.0, Process(t, reconciliation).value.0;
    OnlyItsDelivery(t, suspension, "b");
    OnlyItsDelivery(t, reconciliation, "a");
    DeliveryDoes(suspended, date, "b", 1);
    DeliveryDoes(dated, ask, "a", 1);
    RunOfTwo(t, suspension, reconciliation);
    RunOfTwo(t, reconciliation, suspension);
    ProcessIsLater(t, suspension);
    ProcessIsLater(t, reconciliation);
    LaterIsValid(t, suspended);
    LaterIsValid(t, dated);
    StepOfRow(t, suspension, 1);
    StepOfRow(suspended, reconciliation, 1);
    StepOfRow(t, reconciliation, 1);
    StepOfRow(dated, suspension, 1);
  }

  lemma RunOfTwo(t: Tables, e: Envelope, f: Envelope)
    requires Process(t, e).Some? && Process(Process(t, e).value.0, f).Some?
    ensures Run(t, [e, f]) == Process(Process(t, e).value.0, f).value.0
  {
    assert [e, f][..1] == [e] && [e][..0] == [];
    assert Run(t, [e]) == Process(t, e).value.0;
  }
}
