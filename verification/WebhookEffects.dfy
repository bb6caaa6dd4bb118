/**
 What a processed webhook does to the tables, row by row.

 A repository webhook without a snapshot is two loops of transitions. Together they remove every repository of the
 installation that is named as removed, bring every other one that is named with all of its metadata up to date unless
 it is removed or newer, insert those that are not stored yet, and touch nothing else.
 */
module WebhookEffects {
  import opened Wrappers
  import opened Lists
  import opened AuthorizationState
  import opened AuthorizationStore

  // ---------------------------------------------------------------------------------------------
  // What each row becomes
  // ---------------------------------------------------------------------------------------------

  /** The metadata of the first of so many added entries that names the repository with all of it. */
  function FirstInfo(added: seq<(int, Option<Info>)>, n: nat, providerId: int): (r: Option<Info>)
    requires n <= |added|
    ensures r.Some? <==> exists k :: 0 <= k < n && added[k] == (providerId, added[k].1) && added[k].1.Some?
  {
    if n == 0 then None
    else
      var before := FirstInfo(added, n - 1, providerId);
      if before.Some? then before else if added[n - 1].0 == providerId then added[n - 1].1 else None
  }

  /** A removed state keeps its time when that is no earlier. */
  function RemovedState(s: State, at: int): State {
    if s.status == REMOVED && s.updatedAt.Some? && at <= s.updatedAt.value then s else State(Some(at), REMOVED)
  }

  function RowRemoved(r: Repository, tenantId: string, p: RepositoryPayload, n: nat): Repository
    requires n <= |p.removed|
  {
    if Belongs(r, tenantId, p.installationId) && r.providerId in p.removed[..n]
    then r.(state := RemovedState(r.state, p.updatedAt)) else r
  }

  predicate Older(s: State, at: int) { s.status != REMOVED && (s.updatedAt.None? || s.updatedAt.value < at) }

  function RowAdded(r: Repository, tenantId: string, p: RepositoryPayload, n: nat): Repository
    requires n <= |p.added|
  {
    var info := FirstInfo(p.added, n, r.providerId);
    if Belongs(r, tenantId, p.installationId) && info.Some? && Older(r.state, p.updatedAt)
    then r.(state := State(Some(p.updatedAt), ACTIVE), info := info.value) else r
  }

  function RowInserted(tenantId: string, p: RepositoryPayload, n: nat, providerId: int, ids: int -> string): Repository
    requires n <= |p.added| && FirstInfo(p.added, n, providerId).Some?
  {
    Repository(tenantId, ids(providerId), p.installationId, providerId, FirstInfo(p.added, n, providerId).value,
               State(Some(p.updatedAt), ACTIVE))
  }

  ghost predicate ProvidersApart(rows: seq<Repository>) {
    forall i, j :: 0 <= i < j < |rows| ==> rows[i].providerId != rows[j].providerId
  }

  lemma FindsAt(rows: seq<Repository>, k: nat)
    requires ProvidersApart(rows) && k < |rows|
    ensures Find(rows, rows[k].providerId) == Some(k)
  {
  }

  // ---------------------------------------------------------------------------------------------
  // Room for what is to be inserted
  // ---------------------------------------------------------------------------------------------

  /** The repository is named, and is not stored. */
  predicate IsNew(rows: seq<Repository>, named: set<int>, providerId: int) {
    providerId in named && Find(rows, providerId).None?
  }

  /** No named repository is stored for another installation, and the ids of those to insert are free and distinct. */
  ghost predicate Insertable(rows: seq<Repository>, tenantId: string, installationId: int, named: set<int>, ids: int -> string) {
    && (forall i :: 0 <= i < |rows| && rows[i].providerId in named ==> Belongs(rows[i], tenantId, installationId))
    && (forall providerId :: IsNew(rows, named, providerId) ==> !IdTaken(rows, tenantId, ids(providerId)))
    && (forall providerId, other :: IsNew(rows, named, providerId) && IsNew(rows, named, other) && providerId != other ==>
          ids(providerId) != ids(other))
  }

  predicate SameIdentity(a: Repository, b: Repository) {
    && a.providerId == b.providerId && a.tenantId == b.tenantId
    && a.repositoryId == b.repositoryId && a.installationId == b.installationId
  }

  /** The named repositories that were not stored have been inserted behind the stored ones. */
  ghost predicate Holds(rows: seq<Repository>, after: seq<Repository>, tenantId: string, installationId: int, named: set<int>,
                        ids: int -> string)
  {
    && |rows| <= |after| && ProvidersApart(after)
    && (forall i :: 0 <= i < |rows| ==> SameIdentity(rows[i], after[i]))
    && (forall j :: |rows| <= j < |after| ==>
          && IsNew(rows, named, after[j].providerId) && Belongs(after[j], tenantId, installationId)
          && after[j].repositoryId == ids(after[j].providerId))
    && (forall providerId :: IsNew(rows, named, providerId) ==> Find(after, providerId).Some?)
  }

  /** An id is taken after the insertions when it was before, or has been given to one of them. */
  lemma TakenAfter(rows: seq<Repository>, after: seq<Repository>, tenantId: string, installationId: int, named: set<int>,
                   ids: int -> string, id: string)
    requires Holds(rows, after, tenantId, installationId, named, ids)
    ensures IdTaken(after, tenantId, id)
       <==> IdTaken(rows, tenantId, id) || exists providerId :: IsNew(rows, named, providerId) && ids(providerId) == id
  {
    if IdTaken(rows, tenantId, id) {
      var i :| 0 <= i < |rows| && rows[i].tenantId == tenantId && rows[i].repositoryId == id;
      assert SameIdentity(rows[i], after[i]);
    }
    if IdTaken(after, tenantId, id) {
      var j :| 0 <= j < |after| && after[j].tenantId == tenantId && after[j].repositoryId == id;
      if j < |rows| {
        assert SameIdentity(rows[j], after[j]);
      } else {
        assert IsNew(rows, named, after[j].providerId);
      }
    }
    if providerId :| IsNew(rows, named, providerId) && ids(providerId) == id {
      var k := Find(after, providerId).value;
      assert k < |rows| ==> SameIdentity(rows[k], after[k]);
    }
  }

  /** What upserting one more repository needs. */
  ghost predicate Free(rows: seq<Repository>, tenantId: string, installationId: int, providerId: int, id: string) {
    var found := Find(rows, providerId);
    if found.Some? then Belongs(rows[found.value], tenantId, installationId) else !IdTaken(rows, tenantId, id)
  }

  /** The same, by what has been inserted so far. */
  ghost predicate Fits(rows: seq<Repository>, tenantId: string, installationId: int, named: set<int>, providerId: int,
                       ids: int -> string)
  {
    var found := Find(rows, providerId);
    if found.Some? then Belongs(rows[found.value], tenantId, installationId)
    else
      || providerId in named
      || (!IdTaken(rows, tenantId, ids(providerId))
          && forall other :: IsNew(rows, named, other) ==> ids(other) != ids(providerId))
  }

  lemma FreeWhenItFits(rows: seq<Repository>, after: seq<Repository>, tenantId: string, installationId: int, named: set<int>,
                       providerId: int, ids: int -> string)
    requires Holds(rows, after, tenantId, installationId, named, ids)
    ensures Free(after, tenantId, installationId, providerId, ids(providerId))
       <==> Fits(rows, tenantId, installationId, named, providerId, ids)
  {
    var found, at := Find(after, providerId), Find(rows, providerId);
    if at.Some? {
      assert SameIdentity(rows[at.value], after[at.value]);
      FindsAt(after, at.value);
    } else if found.Some? {
      assert found.value >= |rows|;
    } else {
      TakenAfter(rows, after, tenantId, installationId, named, ids, ids(providerId));
      assert !IsNew(rows, named, providerId);
    }
  }

  /** One more repository can be inserted exactly when it fits. */
  lemma OneMoreFits(rows: seq<Repository>, tenantId: string, installationId: int, named: set<int>, providerId: int, ids: int -> string)
    requires ProvidersApart(rows)
    ensures Insertable(rows, tenantId, installationId, named + {providerId}, ids)
       <==> Insertable(rows, tenantId, installationId, named, ids) && Fits(rows, tenantId, installationId, named, providerId, ids)
  {
    var more := named + {providerId};
    assert forall other :: IsNew(rows, more, other) <==> IsNew(rows, named, other) || (other == providerId && Find(rows, providerId).None?);
    forall i | 0 <= i < |rows|
      ensures rows[i].providerId == providerId ==> Find(rows, providerId) == Some(i)
    {
      FindsAt(rows, i);
    }
    if Find(rows, providerId).Some? {
      assert rows[Find(rows, providerId).value].providerId in more;
    } else {
      assert IsNew(rows, more, providerId);
    }
  }

  /** Rows of the same repositories are found alike, and leave the same room. */
  lemma SameRoom(rows: seq<Repository>, others: seq<Repository>, tenantId: string, installationId: int, named: set<int>, ids: int -> string)
    requires |rows| == |others| && forall i :: 0 <= i < |rows| ==> SameIdentity(rows[i], others[i])
    ensures forall providerId :: Find(others, providerId).None? <==> Find(rows, providerId).None?
    ensures Insertable(others, tenantId, installationId, named, ids) <==> Insertable(rows, tenantId, installationId, named, ids)
  {
    forall providerId
      ensures Find(others, providerId).None? <==> Find(rows, providerId).None?
    {
      if Find(rows, providerId).Some? {
        assert SameIdentity(rows[Find(rows, providerId).value], others[Find(rows, providerId).value]);
      }
      if Find(others, providerId).Some? {
        assert SameIdentity(rows[Find(others, providerId).value], others[Find(others, providerId).value]);
      }
    }
    forall id
      ensures IdTaken(others, tenantId, id) <==> IdTaken(rows, tenantId, id)
    {
      if IdTaken(rows, tenantId, id) {
        var i :| 0 <= i < |rows| && rows[i].tenantId == tenantId && rows[i].repositoryId == id;
        assert SameIdentity(rows[i], others[i]);
      }
    }
    assert forall providerId :: IsNew(others, named, providerId) <==> IsNew(rows, named, providerId);
  }

  // ---------------------------------------------------------------------------------------------
  // The first loop
  // ---------------------------------------------------------------------------------------------

  ghost predicate RemovedTo(rows: seq<Repository>, after: seq<Repository>, tenantId: string, p: RepositoryPayload, n: nat)
    requires n <= |p.removed|
  {
    |after| == |rows| && forall i :: 0 <= i < |rows| ==> after[i] == RowRemoved(rows[i], tenantId, p, n)
  }

  lemma OneMoreRemoved(rows: seq<Repository>, before: seq<Repository>, tenantId: string, p: RepositoryPayload, n: nat)
    requires 0 < n <= |p.removed| && ProvidersApart(rows) && RemovedTo(rows, before, tenantId, p, n - 1)
    ensures var r := Transit(before, tenantId, p.installationId, p.removed[n - 1], Transition(p.updatedAt, REMOVED), None, "");
            r.Some? && RemovedTo(rows, r.value, tenantId, p, n)
  {
    var after := Transit(before, tenantId, p.installationId, p.removed[n - 1], Transition(p.updatedAt, REMOVED), None, "").value;
    assert p.removed[..n] == p.removed[..n - 1] + [p.removed[n - 1]];
    forall i | 0 <= i < |rows|
      ensures after[i] == RowRemoved(rows[i], tenantId, p, n)
    {
      assert before[i] == RowRemoved(rows[i], tenantId, p, n - 1);
      if before[i].providerId == p.removed[n - 1] {
        FindsAt(before, i);
      }
    }
  }

  lemma {:induction false} RemoveAllMeans(rows: seq<Repository>, tenantId: string, p: RepositoryPayload, n: nat)
    requires n <= |p.removed| && ProvidersApart(rows)
    ensures RemoveAll(rows, tenantId, p, n).Some? && RemovedTo(rows, RemoveAll(rows, tenantId, p, n).value, tenantId, p, n)
  {
    if n > 0 {
      RemoveAllMeans(rows, tenantId, p, n - 1);
      OneMoreRemoved(rows, RemoveAll(rows, tenantId, p, n - 1).value, tenantId, p, n);
    }
  }

  // ---------------------------------------------------------------------------------------------
  // The second loop
  // ---------------------------------------------------------------------------------------------

  ghost predicate AddedTo(rows: seq<Repository>, after: seq<Repository>, tenantId: string, p: RepositoryPayload, n: nat,
                          ids: int -> string)
    requires n <= |p.added|
  {
    && |rows| <= |after| && ProvidersApart(after)
    && (forall i :: 0 <= i < |rows| ==> after[i] == RowAdded(rows[i], tenantId, p, n))
    && (forall j :: |rows| <= j < |after| ==> IsInserted(rows, after[j], tenantId, p, n, ids))
    && (forall providerId :: FirstInfo(p.added, n, providerId).Some? && Find(rows, providerId).None? ==>
          Find(after, providerId).Some?)
  }

  predicate IsInserted(rows: seq<Repository>, r: Repository, tenantId: string, p: RepositoryPayload, n: nat, ids: int -> string)
    requires n <= |p.added|
  {
    && Find(rows, r.providerId).None? && FirstInfo(p.added, n, r.providerId).Some?
    && r == RowInserted(tenantId, p, n, r.providerId, ids)
  }

  /** The transition of the last of so many added entries takes one list of rows to the other. */
  ghost predicate AddsOne(rows: seq<Repository>, before: seq<Repository>, after: seq<Repository>, tenantId: string,
                          p: RepositoryPayload, n: nat, ids: int -> string)
    requires 0 < n <= |p.added|
  {
    var (providerId, info) := p.added[n - 1];
    && info.Some? && AddedTo(rows, before, tenantId, p, n - 1, ids)
    && Transit(before, tenantId, p.installationId, providerId, Transition(p.updatedAt, ACTIVE), info, ids(providerId)) == Some(after)
  }

  lemma AddsToStored(rows: seq<Repository>, before: seq<Repository>, after: seq<Repository>, tenantId: string,
                     p: RepositoryPayload, n: nat, ids: int -> string, i: nat)
    requires 0 < n <= |p.added| && AddsOne(rows, before, after, tenantId, p, n, ids) && i < |rows|
    ensures i < |after| && after[i] == RowAdded(rows[i], tenantId, p, n)
  {
    assert before[i] == RowAdded(rows[i], tenantId, p, n - 1);
    FindsAt(before, i);
  }

  lemma AddsToInserted(rows: seq<Repository>, before: seq<Repository>, after: seq<Repository>, tenantId: string,
                       p: RepositoryPayload, n: nat, ids: int -> string, j: nat)
    requires 0 < n <= |p.added| && AddsOne(rows, before, after, tenantId, p, n, ids) && |rows| <= j < |after|
    ensures IsInserted(rows, after[j], tenantId, p, n, ids)
  {
    assert forall i :: 0 <= i < |rows| ==> before[i].providerId == rows[i].providerId;
    if j < |before| {
      assert IsInserted(rows, before[j], tenantId, p, n - 1, ids);
    }
  }

  lemma AddsProvider(rows: seq<Repository>, before: seq<Repository>, after: seq<Repository>, tenantId: string,
                     p: RepositoryPayload, n: nat, ids: int -> string, other: int)
    requires 0 < n <= |p.added| && AddsOne(rows, before, after, tenantId, p, n, ids)
    requires FirstInfo(p.added, n, other).Some? && Find(rows, other).None?
    ensures Find(after, other).Some?
  {
    var found := Find(before, other);
    assert other != p.added[n - 1].0 ==> FirstInfo(p.added, n - 1, other).Some?;
    assert after[if found.Some? then found.value else |before|].providerId == other;
  }

  lemma OneMoreAdded(rows: seq<Repository>, before: seq<Repository>, after: seq<Repository>, tenantId: string,
                     p: RepositoryPayload, n: nat, ids: int -> string)
    requires 0 < n <= |p.added| && AddsOne(rows, before, after, tenantId, p, n, ids)
    ensures AddedTo(rows, after, tenantId, p, n, ids)
  {
    forall i | 0 <= i < |rows|
      ensures after[i] == RowAdded(rows[i], tenantId, p, n)
    {
      AddsToStored(rows, before, after, tenantId, p, n, ids, i);
    }
    forall j | |rows| <= j < |after|
      ensures IsInserted(rows, after[j], tenantId, p, n, ids)
    {
      AddsToInserted(rows, before, after, tenantId, p, n, ids, j);
    }
    forall other | FirstInfo(p.added, n, other).Some? && Find(rows, other).None?
      ensures Find(after, other).Some?
    {
      AddsProvider(rows, before, after, tenantId, p, n, ids, other);
    }
  }

  lemma {:induction false} AddAllMeans(rows: seq<Repository>, tenantId: string, p: RepositoryPayload, n: nat, ids: int -> string)
    requires n <= |p.added| && ProvidersApart(rows) && AddAll(rows, tenantId, p, n, ids).Some?
    ensures AddedTo(rows, AddAll(rows, tenantId, p, n, ids).value, tenantId, p, n, ids)
  {
    if n > 0 {
      AddAllMeans(rows, tenantId, p, n - 1, ids);
      var before := AddAll(rows, tenantId, p, n - 1, ids).value;
      if p.added[n - 1].1.Some? {
        OneMoreAdded(rows, before, AddAll(rows, tenantId, p, n, ids).value, tenantId, p, n, ids);
      } else {
        NothingAdded(rows, before, tenantId, p, n, ids);
      }
    }
  }

  /** An entry without all of the metadata plays no part. */
  lemma NothingAdded(rows: seq<Repository>, after: seq<Repository>, tenantId: string, p: RepositoryPayload, n: nat, ids: int -> string)
    requires 0 < n <= |p.added| && p.added[n - 1].1.None? && AddedTo(rows, after, tenantId, p, n - 1, ids)
    ensures AddedTo(rows, after, tenantId, p, n, ids)
  {
    assert forall providerId :: FirstInfo(p.added, n, providerId) == FirstInfo(p.added, n - 1, providerId);
    forall j | |rows| <= j < |after|
      ensures IsInserted(rows, after[j], tenantId, p, n, ids)
    {
      assert IsInserted(rows, after[j], tenantId, p, n - 1, ids);
    }
  }

  // ---------------------------------------------------------------------------------------------
  // When the second loop fails
  // ---------------------------------------------------------------------------------------------

  /** The repositories named with all of their metadata. */
  function Named(added: seq<(int, Option<Info>)>, n: nat): (named: set<int>)
    requires n <= |added|
    ensures forall providerId :: providerId in named <==> FirstInfo(added, n, providerId).Some?
  {
    if n == 0 then {} else Named(added, n - 1) + if added[n - 1].1.Some? then {added[n - 1].0} else {}
  }

  lemma AddedHolds(rows: seq<Repository>, after: seq<Repository>, tenantId: string, p: RepositoryPayload, n: nat, ids: int -> string)
    requires n <= |p.added| && AddedTo(rows, after, tenantId, p, n, ids)
    ensures Holds(rows, after, tenantId, p.installationId, Named(p.added, n), ids)
  {
    forall i | 0 <= i < |rows|
      ensures SameIdentity(rows[i], after[i])
    {
      assert after[i] == RowAdded(rows[i], tenantId, p, n);
    }
    assert forall j :: |rows| <= j < |after| ==> IsInserted(rows, after[j], tenantId, p, n, ids);
  }

  lemma TransitGoesThrough(rows: seq<Repository>, tenantId: string, installationId: int, providerId: int, at: int, info: Info,
                           id: string)
    ensures Transit(rows, tenantId, installationId, providerId, Transition(at, ACTIVE), Some(info), id).Some?
       <==> Free(rows, tenantId, installationId, providerId, id)
  {
  }

  lemma {:induction false} AddAllSucceedsExactly(rows: seq<Repository>, tenantId: string, p: RepositoryPayload, n: nat,
                                                 ids: int -> string)
    requires n <= |p.added| && ProvidersApart(rows)
    ensures AddAll(rows, tenantId, p, n, ids).Some? <==> Insertable(rows, tenantId, p.installationId, Named(p.added, n), ids)
  {
    if n > 0 {
      var before := AddAll(rows, tenantId, p, n - 1, ids);
      var (providerId, info) := p.added[n - 1];
      AddAllSucceedsExactly(rows, tenantId, p, n - 1, ids);
      if info.None? {
        assert Named(p.added, n) == Named(p.added, n - 1);
      } else {
        OneMoreFits(rows, tenantId, p.installationId, Named(p.added, n - 1), providerId, ids);
        if before.Some? {
          AddAllMeans(rows, tenantId, p, n - 1, ids);
          AddedHolds(rows, before.value, tenantId, p, n - 1, ids);
          FreeWhenItFits(rows, before.value, tenantId, p.installationId, Named(p.added, n - 1), providerId, ids);
          TransitGoesThrough(before.value, tenantId, p.installationId, providerId, p.updatedAt, info.value, ids(providerId));
        }
      }
    }
  }

  // ---------------------------------------------------------------------------------------------
  // Repository webhooks
  // ---------------------------------------------------------------------------------------------

  /** What a stored repository becomes. */
  ghost predicate Becomes(r: Repository, after: Repository, tenantId: string, p: RepositoryPayload) {
    var named := FirstInfo(p.added, |p.added|, r.providerId);
    if !Belongs(r, tenantId, p.installationId) then after == r
    else if r.providerId in p.removed then
      && after == r.(state := after.state) && after.state.status == REMOVED && after.state.updatedAt.Some?
      && p.updatedAt <= after.state.updatedAt.value
      && (after.state.updatedAt.value == p.updatedAt || after.state == r.state)
    else if named.Some? && r.state.status != REMOVED && (r.state.updatedAt.None? || r.state.updatedAt.value < p.updatedAt) then
      after == r.(state := State(Some(p.updatedAt), ACTIVE), info := named.value)
    else after == r
  }

  lemma StepsBecome(r: Repository, tenantId: string, p: RepositoryPayload)
    ensures Becomes(r, RowAdded(RowRemoved(r, tenantId, p, |p.removed|), tenantId, p, |p.added|), tenantId, p)
  {
    assert p.removed[..|p.removed|] == p.removed;
  }

  /** The repository webhooks that are applied: first deliveries without a snapshot for a known installation. */
  ghost predicate IsRepositoryWebhook(t: Tables, e: Envelope) {
    && e.deliveryId !in t.deliveries && e.body.RepositoryEvent? && e.snapshot.None?
    && e.body.repositories.installationId in t.installations
  }

  /**
   A repository webhook goes through exactly when what it names can be inserted. Then the delivery is accepted, each
   stored repository becomes what the webhook makes of it, each repository that is named with all of its metadata and
   not stored is inserted once, and nothing else changes.
   */
  lemma RepositoryWebhookMeans(t: Tables, e: Envelope)
    requires Valid(t) && IsRepositoryWebhook(t, e)
    ensures var p := e.body.repositories;
            var tenantId := t.installations[p.installationId].tenantId;
            && (Process(t, e).Some? <==> Insertable(t.repositories, tenantId, p.installationId, Named(p.added, |p.added|), e.ids))
            && (Process(t, e).Some? ==>
                  var (u, answer) := Process(t, e).value;
                  && answer == Accepted && u.installations == t.installations
                  && u.deliveries == t.deliveries[e.deliveryId := Delivery(Some(tenantId), ACCEPTED)]
                  && |t.repositories| <= |u.repositories|
                  && (forall i :: 0 <= i < |t.repositories| ==> Becomes(t.repositories[i], u.repositories[i], tenantId, p))
                  && (forall j :: |t.repositories| <= j < |u.repositories| ==>
                        IsInserted(t.repositories, u.repositories[j], tenantId, p, |p.added|, e.ids))
                  && ProvidersApart(u.repositories)
                  && (forall providerId :: IsNew(t.repositories, Named(p.added, |p.added|), providerId) ==>
                        Find(u.repositories, providerId).Some?))
  {
    var p := e.body.repositories;
    var rows, tenantId, n := t.repositories, t.installations[p.installationId].tenantId, |p.added|;
    assert ProvidersApart(rows) by {
      assert forall i, j :: 0 <= i < j < |rows| ==> RowsApart(rows[i], rows[j]);
    }
    RemoveAllMeans(rows, tenantId, p, |p.removed|);
    var removed := RemoveAll(rows, tenantId, p, |p.removed|).value;
    assert forall i :: 0 <= i < |rows| ==> removed[i] == RowRemoved(rows[i], tenantId, p, |p.removed|);
    assert forall i :: 0 <= i < |rows| ==> SameIdentity(rows[i], removed[i]);
    SameRoom(rows, removed, tenantId, p.installationId, Named(p.added, n), e.ids);
    AddAllSucceedsExactly(removed, tenantId, p, n, e.ids);
    if Process(t, e).Some? {
      AddAllMeans(removed, tenantId, p, n, e.ids);
      var after := AddAll(removed, tenantId, p, n, e.ids).value;
      forall i | 0 <= i < |rows|
        ensures Becomes(rows[i], after[i], tenantId, p)
      {
        StepsBecome(rows[i], tenantId, p);
      }
      forall j | |rows| <= j < |after|
        ensures IsInserted(rows, after[j], tenantId, p, n, e.ids)
      {
        assert IsInserted(removed, after[j], tenantId, p, n, e.ids);
      }
    }
  }

  /**
   What can be used after a repository webhook: of what was stored, what was active and is not named as removed; of what
   was not, what is named with all of its metadata; and nothing unless the installation is active.
   */
  lemma RepositoryWebhookShows(t: Tables, e: Envelope, providerId: int)
    requires Valid(t) && IsRepositoryWebhook(t, e) && Process(t, e).Some?
    ensures var p, u, found := e.body.repositories, Process(t, e).value.0, Find(t.repositories, providerId);
            var installation := t.installations[p.installationId];
            Usable(u, p.installationId, providerId)
            <==> && installation.state.status == ACTIVE
                 && if found.Some? then
                      var r := t.repositories[found.value];
                      Belongs(r, installation.tenantId, p.installationId) && r.state.status == ACTIVE && providerId !in p.removed
                    else FirstInfo(p.added, |p.added|, providerId).Some?
  {
    var p, u, found := e.body.repositories, Process(t, e).value.0, Find(t.repositories, providerId);
    var tenantId := t.installations[p.installationId].tenantId;
    RepositoryWebhookMeans(t, e);
    ProcessIsLater(t, e);
    LaterIsValid(t, u);
    forall i | 0 <= i < |t.repositories|
      ensures u.repositories[i].providerId == t.repositories[i].providerId
    {
      assert Becomes(t.repositories[i], u.repositories[i], tenantId, p);
    }
    if t.installations[p.installationId].state.status == ACTIVE {
      UsableIsShown(u, tenantId, p.installationId, providerId);
      if found.Some? {
        assert Becomes(t.repositories[found.value], u.repositories[found.value], tenantId, p);
        ShownAt(u.repositories, tenantId, p.installationId, found.value);
      } else if Find(u.repositories, providerId).Some? {
        var k := Find(u.repositories, providerId).value;
        assert k >= |t.repositories|;
        assert IsInserted(t.repositories, u.repositories[k], tenantId, p, |p.added|, e.ids);
        ShownAt(u.repositories, tenantId, p.installationId, k);
      } else {
        assert !Shown(u.repositories, tenantId, p.installationId, providerId);
      }
    }
  }

  /** The one row of a repository decides whether it is shown. */
  lemma ShownAt(rows: seq<Repository>, tenantId: string, installationId: int, k: nat)
    requires ProvidersApart(rows) && k < |rows|
    ensures Shown(rows, tenantId, installationId, rows[k].providerId) <==> IsShown(rows[k], tenantId, installationId, rows[k].providerId)
  {
    if Shown(rows, tenantId, installationId, rows[k].providerId) {
      var i :| 0 <= i < |rows| && IsShown(rows[i], tenantId, installationId, rows[k].providerId);
      FindsAt(rows, i);
      FindsAt(rows, k);
    }
  }

  /** A stored repository named as removed is in no list afterwards. */
  lemma RemovedIsUnlisted(collation: Collation, t: Tables, e: Envelope, i: nat, tenantId: string, cursor: Option<string>)
    requires Total(collation) && Valid(t) && IsRepositoryWebhook(t, e) && Process(t, e).Some? && i < |t.repositories|
    requires var p := e.body.repositories;
             t.repositories[i].installationId == p.installationId && t.repositories[i].providerId in p.removed
    ensures forall r :: r in Selected(collation, Process(t, e).value.0, tenantId, cursor) ==>
              r.providerId != t.repositories[i].providerId
  {
    var p, u := e.body.repositories, Process(t, e).value.0;
    RepositoryWebhookMeans(t, e);
    ProcessIsLater(t, e);
    LaterIsValid(t, u);
    SelectedMeans(collation, u, tenantId, cursor);
    assert Owned(t, t.repositories[i]);
    assert Becomes(t.repositories[i], u.repositories[i], t.installations[p.installationId].tenantId, p);
    forall r | r in Selected(collation, u, tenantId, cursor)
      ensures r.providerId != t.repositories[i].providerId
    {
      var k :| 0 <= k < |u.repositories| && u.repositories[k] == r;
      FindsAt(u.repositories, k);
      FindsAt(u.repositories, i);
    }
  }

  // ---------------------------------------------------------------------------------------------
  // Installation webhooks
  // ---------------------------------------------------------------------------------------------

  /** What an installation webhook asks for. */
  ghost predicate Asks(p: InstallationPayload, status: Status) {
    match status
    case REMOVED => p.action == "deleted"
    case SUSPENDED => p.action != "deleted" && (p.action == "suspended" || !p.permissionsExact)
    case ACTIVE => p.permissionsExact && (p.action == "unsuspended" || p.action == "new_permissions_accepted")
  }

  /** The state an installation gets. */
  ghost predicate Moves(s: State, after: State, p: InstallationPayload) {
    var newer := s.updatedAt.None? || s.updatedAt.value < p.updatedAt;
    if Asks(p, REMOVED) then
      after == if s.status != REMOVED || newer then State(Some(p.updatedAt), REMOVED) else s
    else if s.status == REMOVED then after == s
    else if Asks(p, SUSPENDED) then
      after == if newer || s == State(Some(p.updatedAt), ACTIVE) then State(Some(p.updatedAt), SUSPENDED) else s
    else if Asks(p, ACTIVE) then
      after == if newer then State(Some(p.updatedAt), ACTIVE) else s
    else after == s
  }

  /**
   An installation webhook moves its installation, and only that one; when that is what removes it, its repositories are
   removed with it. It counts as accepted exactly when it moved the installation.
   */
  lemma InstallationWebhookMeans(t: Tables, e: Envelope)
    requires Valid(t) && e.deliveryId !in t.deliveries && e.body.InstallationEvent?
    requires e.body.installation.installationId in t.installations
    ensures Process(t, e).Some?
    ensures var p, (u, answer) := e.body.installation, Process(t, e).value;
            var row := t.installations[p.installationId];
            && answer == Accepted && u.installations.Keys == t.installations.Keys
            && (forall id :: id in t.installations && id != p.installationId ==> u.installations[id] == t.installations[id])
            && (var after := u.installations[p.installationId];
                && after == row.(state := after.state) && Moves(row.state, after.state, p)
                && u.deliveries == t.deliveries[e.deliveryId :=
                     Delivery(Some(row.tenantId), if after.state != row.state then ACCEPTED else IGNORED)]
                && |u.repositories| == |t.repositories|
                && forall i :: 0 <= i < |t.repositories| ==>
                     u.repositories[i] ==
                     if after.state != row.state && Asks(p, REMOVED) && t.repositories[i].installationId == p.installationId
                     then t.repositories[i].(state := t.repositories[i].state.(status := REMOVED)) else t.repositories[i])
  {
    var p := e.body.installation;
    assert forall i :: 0 <= i < |t.repositories| ==> Owned(t, t.repositories[i]);
  }

  /** Deliveries of unknown installations, and bodies that are none, are recorded and do nothing else. */
  lemma OthersAreIgnored(t: Tables, e: Envelope)
    requires e.deliveryId !in t.deliveries
    requires match e.body
             case InvalidEvent => true
             case InstallationEvent(p) => p.installationId !in t.installations
             case RepositoryEvent(p) => p.installationId !in t.installations
    ensures Process(t, e) == Some((t.(deliveries := t.deliveries[e.deliveryId := Delivery(None, IGNORED)]), Accepted))
  {
  }

  // ---------------------------------------------------------------------------------------------
  // Snapshots
  // ---------------------------------------------------------------------------------------------

  /** The metadata of the last of so many entries that names the repository. */
  function LastInfo(vs: seq<Verified>, providerId: int): (r: Option<Info>)
    ensures r.Some? <==> Names(vs, providerId)
  {
    if vs == [] then None
    else
      NamesLast(vs, providerId);
      var v := vs[|vs| - 1];
      if v.providerId == providerId then Some(v.info) else LastInfo(vs[..|vs| - 1], providerId)
  }

  /** What a stored repository becomes when so many entries of a snapshot are upserted. */
  function RowUpserted(r: Repository, tenantId: string, installationId: int, vs: seq<Verified>, at: Option<int>): Repository {
    var info := LastInfo(vs, r.providerId);
    if Belongs(r, tenantId, installationId) && info.Some?
    then r.(info := info.value, state := State(if at.Some? then at else r.state.updatedAt, ACTIVE)) else r
  }

  predicate IsUpserted(rows: seq<Repository>, r: Repository, tenantId: string, installationId: int, vs: seq<Verified>,
                       at: Option<int>, ids: int -> string)
  {
    && Find(rows, r.providerId).None? && LastInfo(vs, r.providerId).Some?
    && r == Repository(tenantId, ids(r.providerId), installationId, r.providerId, LastInfo(vs, r.providerId).value, State(at, ACTIVE))
  }

  ghost predicate UpsertedTo(rows: seq<Repository>, after: seq<Repository>, tenantId: string, installationId: int,
                             vs: seq<Verified>, at: Option<int>, ids: int -> string)
  {
    && |rows| <= |after| && ProvidersApart(after)
    && (forall i :: 0 <= i < |rows| ==> after[i] == RowUpserted(rows[i], tenantId, installationId, vs, at))
    && (forall j :: |rows| <= j < |after| ==> IsUpserted(rows, after[j], tenantId, installationId, vs, at, ids))
    && (forall providerId :: Names(vs, providerId) && Find(rows, providerId).None? ==> Find(after, providerId).Some?)
  }

  /** Upserting the last entry takes one list of rows to the other. */
  ghost predicate UpsertsOne(rows: seq<Repository>, before: seq<Repository>, after: seq<Repository>, tenantId: string,
                             installationId: int, vs: seq<Verified>, at: Option<int>, ids: int -> string)
    requires vs != []
  {
    var v := vs[|vs| - 1];
    && UpsertedTo(rows, before, tenantId, installationId, vs[..|vs| - 1], at, ids)
    && Upsert(before, tenantId, installationId, v, at, ids(v.providerId)) == Some(after)
  }

  lemma UpsertsStored(rows: seq<Repository>, before: seq<Repository>, after: seq<Repository>, tenantId: string,
                      installationId: int, vs: seq<Verified>, at: Option<int>, ids: int -> string, i: nat)
    requires vs != [] && UpsertsOne(rows, before, after, tenantId, installationId, vs, at, ids) && i < |rows|
    ensures i < |after| && after[i] == RowUpserted(rows[i], tenantId, installationId, vs, at)
  {
    assert before[i] == RowUpserted(rows[i], tenantId, installationId, vs[..|vs| - 1], at);
    FindsAt(before, i);
  }

  lemma UpsertsInserted(rows: seq<Repository>, before: seq<Repository>, after: seq<Repository>, tenantId: string,
                        installationId: int, vs: seq<Verified>, at: Option<int>, ids: int -> string, j: nat)
    requires vs != [] && UpsertsOne(rows, before, after, tenantId, installationId, vs, at, ids) && |rows| <= j < |after|
    ensures IsUpserted(rows, after[j], tenantId, installationId, vs, at, ids)
  {
    var earlier := vs[..|vs| - 1];
    assert forall i :: 0 <= i < |rows| ==> before[i].providerId == rows[i].providerId;
    if j < |before| {
      assert IsUpserted(rows, before[j], tenantId, installationId, earlier, at, ids);
    }
  }

  lemma OneMoreUpserted(rows: seq<Repository>, before: seq<Repository>, after: seq<Repository>, tenantId: string,
                        installationId: int, vs: seq<Verified>, at: Option<int>, ids: int -> string)
    requires vs != [] && UpsertsOne(rows, before, after, tenantId, installationId, vs, at, ids)
    ensures UpsertedTo(rows, after, tenantId, installationId, vs, at, ids)
  {
    forall i | 0 <= i < |rows|
      ensures after[i] == RowUpserted(rows[i], tenantId, installationId, vs, at)
    {
      UpsertsStored(rows, before, after, tenantId, installationId, vs, at, ids, i);
    }
    forall j | |rows| <= j < |after|
      ensures IsUpserted(rows, after[j], tenantId, installationId, vs, at, ids)
    {
      UpsertsInserted(rows, before, after, tenantId, installationId, vs, at, ids, j);
    }
    forall other | Names(vs, other) && Find(rows, other).None?
      ensures Find(after, other).Some?
    {
      NamesLast(vs, other);
      var found := Find(before, other);
      assert after[if found.Some? then found.value else |before|].providerId == other;
    }
  }

  lemma {:induction false} UpsertAllMeans(rows: seq<Repository>, tenantId: string, installationId: int, vs: seq<Verified>,
                                          at: Option<int>, ids: int -> string)
    requires ProvidersApart(rows) && UpsertAll(rows, tenantId, installationId, vs, at, ids).Some?
    ensures UpsertedTo(rows, UpsertAll(rows, tenantId, installationId, vs, at, ids).value, tenantId, installationId, vs, at, ids)
  {
    if vs != [] {
      var n := |vs| - 1;
      UpsertAllMeans(rows, tenantId, installationId, vs[..n], at, ids);
      OneMoreUpserted(rows, UpsertAll(rows, tenantId, installationId, vs[..n], at, ids).value,
                      UpsertAll(rows, tenantId, installationId, vs, at, ids).value, tenantId, installationId, vs, at, ids);
    }
  }

  function NamedBy(vs: seq<Verified>): (named: set<int>)
    ensures forall providerId :: providerId in named <==> Names(vs, providerId)
  {
    if vs == [] then {}
    else
      assert forall providerId :: Names(vs, providerId)
                                  <==> Names(vs[..|vs| - 1], providerId) || vs[|vs| - 1].providerId == providerId by {
        forall providerId { NamesLast(vs, providerId); }
      }
      NamedBy(vs[..|vs| - 1]) + {vs[|vs| - 1].providerId}
  }

  lemma UpsertedHolds(rows: seq<Repository>, after: seq<Repository>, tenantId: string, installationId: int, vs: seq<Verified>,
                      at: Option<int>, ids: int -> string)
    requires UpsertedTo(rows, after, tenantId, installationId, vs, at, ids)
    ensures Holds(rows, after, tenantId, installationId, NamedBy(vs), ids)
  {
    forall i | 0 <= i < |rows|
      ensures SameIdentity(rows[i], after[i])
    {
      assert after[i] == RowUpserted(rows[i], tenantId, installationId, vs, at);
    }
    assert forall j :: |rows| <= j < |after| ==> IsUpserted(rows, after[j], tenantId, installationId, vs, at, ids);
  }

  lemma {:induction false} UpsertAllSucceedsExactly(rows: seq<Repository>, tenantId: string, installationId: int,
                                                    vs: seq<Verified>, at: Option<int>, ids: int -> string)
    requires ProvidersApart(rows)
    ensures UpsertAll(rows, tenantId, installationId, vs, at, ids).Some?
       <==> Insertable(rows, tenantId, installationId, NamedBy(vs), ids)
  {
    if vs != [] {
      var n := |vs| - 1;
      var before, providerId := UpsertAll(rows, tenantId, installationId, vs[..n], at, ids), vs[n].providerId;
      UpsertAllSucceedsExactly(rows, tenantId, installationId, vs[..n], at, ids);
      OneMoreFits(rows, tenantId, installationId, NamedBy(vs[..n]), providerId, ids);
      if before.Some? {
        UpsertAllMeans(rows, tenantId, installationId, vs[..n], at, ids);
        UpsertedHolds(rows, before.value, tenantId, installationId, vs[..n], at, ids);
        FreeWhenItFits(rows, before.value, tenantId, installationId, NamedBy(vs[..n]), providerId, ids);
        assert Upsert(before.value, tenantId, installationId, vs[n], at, ids(providerId)).Some?
          <==> Free(before.value, tenantId, installationId, providerId, ids(providerId));
      }
    }
  }

  /** What a stored repository becomes when an installation is bound or reconciled. */
  ghost predicate Follows(r: Repository, after: Repository, tenantId: string, s: Snapshot, at: Option<int>) {
    var info := LastInfo(s.repositories, r.providerId);
    if !Belongs(r, tenantId, s.installationId) then after == r
    else if info.Some? then after == r.(info := info.value, state := State(if at.Some? then at else r.state.updatedAt, ACTIVE))
    else after == r.(state := r.state.(status := REMOVED))
  }

  ghost predicate Follow(rows: seq<Repository>, after: seq<Repository>, tenantId: string, s: Snapshot, at: Option<int>, ids: int -> string) {
    && |rows| <= |after|
    && (forall i :: 0 <= i < |rows| ==> Follows(rows[i], after[i], tenantId, s, at))
    && (forall j :: |rows| <= j < |after| ==> IsUpserted(rows, after[j], tenantId, s.installationId, s.repositories, at, ids))
  }

  /** Withdrawing everything and upserting a snapshot. */
  lemma SnapshotIsStored(rows: seq<Repository>, tenantId: string, s: Snapshot, at: Option<int>, ids: int -> string)
    requires Pairwise(RowsApart, rows)
    ensures var after := UpsertAll(Withdraw(rows, tenantId, s.installationId), tenantId, s.installationId, s.repositories, at, ids);
            && (after.Some? <==> Insertable(rows, tenantId, s.installationId, NamedBy(s.repositories), ids))
            && (after.Some? ==> Follow(rows, after.value, tenantId, s, at, ids))
  {
    var withdrawn := Withdraw(rows, tenantId, s.installationId);
    var upserted := UpsertAll(withdrawn, tenantId, s.installationId, s.repositories, at, ids);
    assert forall i, j :: 0 <= i < j < |rows| ==> RowsApart(rows[i], rows[j]);
    assert ProvidersApart(withdrawn);
    assert forall i :: 0 <= i < |rows| ==> SameIdentity(rows[i], withdrawn[i]);
    SameRoom(rows, withdrawn, tenantId, s.installationId, NamedBy(s.repositories), ids);
    UpsertAllSucceedsExactly(withdrawn, tenantId, s.installationId, s.repositories, at, ids);
    if upserted.Some? {
      UpsertAllMeans(withdrawn, tenantId, s.installationId, s.repositories, at, ids);
      FollowsWithdrawn(rows, upserted.value, tenantId, s, at, ids);
    }
  }

  lemma FollowsWithdrawn(rows: seq<Repository>, after: seq<Repository>, tenantId: string, s: Snapshot, at: Option<int>, ids: int -> string)
    requires var withdrawn := Withdraw(rows, tenantId, s.installationId);
             && UpsertedTo(withdrawn, after, tenantId, s.installationId, s.repositories, at, ids)
             && forall providerId :: Find(withdrawn, providerId).None? <==> Find(rows, providerId).None?
    ensures Follow(rows, after, tenantId, s, at, ids)
  {
    var withdrawn := Withdraw(rows, tenantId, s.installationId);
    forall i | 0 <= i < |rows|
      ensures Follows(rows[i], after[i], tenantId, s, at)
    {
      assert after[i] == RowUpserted(withdrawn[i], tenantId, s.installationId, s.repositories, at);
    }
    forall j | |rows| <= j < |after|
      ensures IsUpserted(rows, after[j], tenantId, s.installationId, s.repositories, at, ids)
    {
      assert IsUpserted(withdrawn, after[j], tenantId, s.installationId, s.repositories, at, ids);
    }
  }

  /** A snapshot is reconciled with an installation; `None` is a transaction that throws. */
  ghost predicate Reconciles(t: Tables, u: Option<Tables>, s: Snapshot, ids: int -> string)
    requires s.installationId in t.installations
  {
    var row := t.installations[s.installationId];
    var updatedAt := if s.updatedAt.Some? then s.updatedAt else row.state.updatedAt;
    && (u.Some? <==> Insertable(t.repositories, row.tenantId, s.installationId, NamedBy(s.repositories), ids))
    && (u.Some? ==>
          && u.value.installations
             == t.installations[s.installationId := Installation(row.tenantId, s.details, State(updatedAt, row.state.status))]
          && u.value.deliveries == t.deliveries
          && Follow(t.repositories, u.value.repositories, row.tenantId, s, s.updatedAt, ids))
  }

  /**
   Binding goes through exactly when the installation is not another tenant's and its repositories can be inserted;
   reconciling needs the latter only. Binding overwrites the installation and its state; reconciling keeps its status, and
   its time unless the snapshot has one. Both leave the repositories as the snapshot has them: of the installation those
   it names are ACTIVE with the metadata it names last, the others are REMOVED, and those of other installations stay.
   */
  lemma SnapshotMeans(t: Tables, tenantId: string, s: Snapshot, ids: int -> string)
    requires Valid(t)
    ensures var bound := Bind(t, tenantId, s, ids);
            && (bound.Some? <==>
                  && (s.installationId in t.installations ==> t.installations[s.installationId].tenantId == tenantId)
                  && Insertable(t.repositories, tenantId, s.installationId, NamedBy(s.repositories), ids))
            && (bound.Some? ==>
                  && bound.value.installations
                     == t.installations[s.installationId := Installation(tenantId, s.details, State(s.updatedAt, ACTIVE))]
                  && bound.value.deliveries == t.deliveries
                  && Follow(t.repositories, bound.value.repositories, tenantId, s, None, ids))
    ensures s.installationId in t.installations ==> Reconciles(t, Reconcile(t, s, ids), s, ids)
  {
    SnapshotIsStored(t.repositories, tenantId, s, None, ids);
    if s.installationId in t.installations {
      SnapshotIsStored(t.repositories, t.installations[s.installationId].tenantId, s, s.updatedAt, ids);
    }
  }

  /** The repository webhooks that carry a snapshot: those for a known installation, redeliveries included. */
  predicate CarriesSnapshot(t: Tables, e: Envelope) {
    e.body.RepositoryEvent? && e.body.repositories.installationId in t.installations && e.snapshot.Some?
  }

  /**
   A repository webhook with a snapshot throws when that is of another installation. Otherwise it reconciles and does
   nothing else, whatever the webhook names; only a first delivery is recorded.
   */
  lemma SnapshotWebhookMeans(t: Tables, e: Envelope)
    requires Valid(t) && CarriesSnapshot(t, e)
    ensures var s, installationId := e.snapshot.value, e.body.repositories.installationId;
            if s.installationId != installationId then Process(t, e).None?
            else
              var (first, tenantId) := (e.deliveryId !in t.deliveries, t.installations[installationId].tenantId);
              exists u: Option<Tables> ::
                && Reconciles(t, u, s, e.ids)
                && Process(t, e) == if u.None? then None
                                    else if first then
                                      Some((u.value.(deliveries := t.deliveries[e.deliveryId := Delivery(Some(tenantId), ACCEPTED)]), Accepted))
                                    else Some((u.value, Duplicate))
  {
    var s := e.snapshot.value;
    if s.installationId == e.body.repositories.installationId {
      SnapshotMeans(t, t.installations[s.installationId].tenantId, s, e.ids);
      assert Reconciles(t, Reconcile(t, s, e.ids), s, e.ids);
    }
  }

  /** Every other redelivery is a duplicate and changes nothing. */
  lemma RedeliveriesDoNothing(t: Tables, e: Envelope)
    requires e.deliveryId in t.deliveries && !CarriesSnapshot(t, e)
    ensures Process(t, e) == Some((t, Duplicate))
  {
  }
}
