/**
 The transactions of the authorization store as they run: statements on rows one after the other, rolled back
 together when one of them violates a constraint. Each computes exactly what its specification in
 AuthorizationStore says.
 */
module AuthorizationTransactions {
  import opened Wrappers
  import opened Lists
  import opened AuthorizationState
  import opened AuthorizationStore

  class Store {
    var installations: map<int, Installation>
    var repositories: seq<Repository>
    var deliveries: map<string, Delivery>

    constructor ()
      ensures Contents() == Tables(map[], [], map[])
    {
      installations, repositories, deliveries := map[], [], map[];
    }

    function Contents(): Tables
      reads this
    {
      Tables(installations, repositories, deliveries)
    }

    // -------------------------------------------------------------------------------------------
    // Statements on repositories; when one fails the rows no longer matter
    // -------------------------------------------------------------------------------------------

    method Insert(row: Repository) returns (ok: bool)
      modifies this`repositories
      ensures ok <==> InsertRow(old(repositories), row).Some?
      ensures ok ==> repositories == InsertRow(old(repositories), row).value
    {
      ok := Find(repositories, row.providerId).None? && !IdTaken(repositories, row.tenantId, row.repositoryId);
      if ok {
        repositories := repositories + [row];
      }
    }

    method UpsertRepository(tenantId: string, installationId: int, v: Verified, at: Option<int>, id: string)
      returns (ok: bool)
      modifies this`repositories
      ensures ok <==> Upsert(old(repositories), tenantId, installationId, v, at, id).Some?
      ensures ok ==> repositories == Upsert(old(repositories), tenantId, installationId, v, at, id).value
    {
      var found := Find(repositories, v.providerId);
      if found.Some? && Belongs(repositories[found.value], tenantId, installationId) {
        var row := repositories[found.value];
        var kept := if at.Some? then at else row.state.updatedAt;
        repositories := repositories[found.value := row.(info := v.info, state := State(kept, ACTIVE))];
        ok := true;
      } else {
        ok := Insert(Repository(tenantId, id, installationId, v.providerId, v.info, State(at, ACTIVE)));
      }
    }

    method UpsertRepositories(tenantId: string, installationId: int, vs: seq<Verified>, at: Option<int>, ids: int -> string)
      returns (ok: bool)
      modifies this`repositories
      ensures ok <==> UpsertAll(old(repositories), tenantId, installationId, vs, at, ids).Some?
      ensures ok ==> repositories == UpsertAll(old(repositories), tenantId, installationId, vs, at, ids).value
    {
      for i := 0 to |vs|
        invariant UpsertAll(old(repositories), tenantId, installationId, vs[..i], at, ids) == Some(repositories)
      {
        assert vs[..i + 1][..i] == vs[..i];
        ok := UpsertRepository(tenantId, installationId, vs[i], at, ids(vs[i].providerId));
        if !ok {
          UpsertAllStopped(old(repositories), tenantId, installationId, vs, at, ids, i + 1);
          return;
        }
      }
      assert vs[..|vs|] == vs;
      ok := true;
    }

    method WithdrawRepositories(tenantId: string, installationId: int)
      modifies this`repositories
      ensures repositories == Withdraw(old(repositories), tenantId, installationId)
    {
      var before := repositories;
      for i := 0 to |before|
        invariant |repositories| == |before|
        invariant forall k :: i <= k < |before| ==> repositories[k] == before[k]
        invariant forall k :: 0 <= k < i ==>
                    repositories[k] == if Belongs(before[k], tenantId, installationId)
                                       then before[k].(state := before[k].state.(status := REMOVED)) else before[k]
      {
        var row := before[i];
        if Belongs(row, tenantId, installationId) && row.state.status != REMOVED {
          repositories := repositories[i := row.(state := row.state.(status := REMOVED))];
        }
      }
    }

    method ApplyTransition(tenantId: string, installationId: int, providerId: int, t: Transition, info: Option<Info>,
                           id: string) returns (ok: bool)
      modifies this`repositories
      ensures ok <==> Transit(old(repositories), tenantId, installationId, providerId, t, info, id).Some?
      ensures ok ==> repositories == Transit(old(repositories), tenantId, installationId, providerId, t, info, id).value
    {
      var found := Find(repositories, providerId);
      if found.None? || !Belongs(repositories[found.value], tenantId, installationId) {
        ok := true;
        if t.status == ACTIVE && info.Some? {
          ok := Insert(Repository(tenantId, id, installationId, providerId, info.value, State(Some(t.at), ACTIVE)));
        }
        return;
      }
      var row := repositories[found.value];
      var next := Reduce(row.state, t);
      if next != row.state {
        repositories := repositories[found.value := row.(state := next, info := if info.Some? then info.value else row.info)];
      }
      ok := true;
    }

    /** The two loops of applyRepositoryWebhook without a snapshot. */
    method ApplyTransitions(tenantId: string, p: RepositoryPayload, ids: int -> string) returns (ok: bool)
      modifies this`repositories
      ensures var removed := RemoveAll(old(repositories), tenantId, p, |p.removed|);
              var added := if removed.None? then None else AddAll(removed.value, tenantId, p, |p.added|, ids);
              (ok <==> added.Some?) && (ok ==> repositories == added.value)
    {
      for i := 0 to |p.removed|
        invariant RemoveAll(old(repositories), tenantId, p, i) == Some(repositories)
      {
        ok := ApplyTransition(tenantId, p.installationId, p.removed[i], Transition(p.updatedAt, REMOVED), None, "");
        if !ok {
          RemoveAllStopped(old(repositories), tenantId, p, i + 1, |p.removed|);
          return;
        }
      }
      ghost var removed := repositories;
      for i := 0 to |p.added|
        invariant AddAll(removed, tenantId, p, i, ids) == Some(repositories)
      {
        var (providerId, info) := p.added[i];
        if info.Some? {
          ok := ApplyTransition(tenantId, p.installationId, providerId, Transition(p.updatedAt, ACTIVE), info, ids(providerId));
          if !ok {
            AddAllStopped(removed, tenantId, p, i + 1, |p.added|, ids);
            return;
          }
        }
      }
      ok := true;
    }

    // -------------------------------------------------------------------------------------------
    // The two kinds of webhook
    // -------------------------------------------------------------------------------------------

    method ApplyInstallationWebhook(p: InstallationPayload) returns (changed: bool)
      requires p.installationId in installations
      modifies this`installations, this`repositories
      ensures (Contents(), changed) == ApplyInstallation(old(Contents()), p)
    {
      var desired := Desired(p);
      if desired.None? {
        return false;
      }
      var row := installations[p.installationId];
      var next := Reduce(row.state, Transition(p.updatedAt, desired.value));
      if next == row.state {
        return false;
      }
      installations := installations[p.installationId := row.(state := next)];
      if next.status == REMOVED {
        WithdrawRepositories(row.tenantId, p.installationId);
      }
      changed := true;
    }

    method ReconcileWith(s: Snapshot, ids: int -> string) returns (ok: bool)
      requires s.installationId in installations
      modifies this`installations, this`repositories
      ensures ok <==> Reconcile(old(Contents()), s, ids).Some?
      ensures ok ==> Contents() == Reconcile(old(Contents()), s, ids).value
    {
      var row := installations[s.installationId];
      var kept := if s.updatedAt.Some? then s.updatedAt else row.state.updatedAt;
      installations := installations[s.installationId := row.(details := s.details, state := row.state.(updatedAt := kept))];
      WithdrawRepositories(row.tenantId, s.installationId);
      ok := UpsertRepositories(row.tenantId, s.installationId, s.repositories, s.updatedAt, ids);
    }

    method ApplyRepositoryWebhook(p: RepositoryPayload, snapshot: Option<Snapshot>, ids: int -> string) returns (ok: bool)
      requires p.installationId in installations
      modifies this`installations, this`repositories
      ensures ok <==> ApplyRepositories(old(Contents()), p, snapshot, ids).Some?
      ensures ok ==> Contents() == ApplyRepositories(old(Contents()), p, snapshot, ids).value
    {
      if snapshot.Some? {
        if snapshot.value.installationId != p.installationId {
          return false;
        }
        ok := ReconcileWith(snapshot.value, ids);
      } else {
        ok := ApplyTransitions(installations[p.installationId].tenantId, p, ids);
      }
    }

    // -------------------------------------------------------------------------------------------
    // Transactions
    // -------------------------------------------------------------------------------------------

    /** processWebhook: inserting the delivery tells a first delivery from a redelivery. */
    method ProcessWebhook(e: Envelope) returns (r: Option<Answer>)
      modifies this
      ensures r.Some? <==> Process(old(Contents()), e).Some?
      ensures r.Some? ==> (Contents(), r.value) == Process(old(Contents()), e).value
      ensures r.None? ==> Contents() == old(Contents())
    {
      if e.deliveryId in deliveries {
        r := Redeliver(e);
        return;
      }
      var known := match e.body
        case InvalidEvent => None
        case InstallationEvent(p) => if p.installationId in installations then Some(installations[p.installationId].tenantId) else None
        case RepositoryEvent(p) => if p.installationId in installations then Some(installations[p.installationId].tenantId) else None;
      deliveries := deliveries[e.deliveryId := Delivery(None, PROCESSING)];
      var outcome := IGNORED;
      if known.Some? && e.body.InstallationEvent? {
        var changed := ApplyInstallationWebhook(e.body.installation);
        outcome := if changed then ACCEPTED else IGNORED;
      } else if known.Some? {
        var rolledBack := (installations, repositories);
        var ok := ApplyRepositoryWebhook(e.body.repositories, e.snapshot, e.ids);
        if !ok {
          installations, repositories := rolledBack.0, rolledBack.1;
          deliveries := deliveries - {e.deliveryId};
          return None;
        }
        outcome := ACCEPTED;
      }
      deliveries := deliveries[e.deliveryId := Delivery(known, outcome)];
      assert deliveries == old(deliveries)[e.deliveryId := Delivery(known, outcome)];
      return Some(Accepted);
    }

    /** A redelivery of a repository webhook still reconciles with the snapshot fetched for it. */
    method Redeliver(e: Envelope) returns (r: Option<Answer>)
      requires e.deliveryId in deliveries
      modifies this`installations, this`repositories
      ensures r.Some? <==> Process(old(Contents()), e).Some?
      ensures r.Some? ==> (Contents(), r.value) == Process(old(Contents()), e).value
      ensures r.None? ==> Contents() == old(Contents())
    {
      if e.body.RepositoryEvent? && e.snapshot.Some? && e.body.repositories.installationId in installations {
        var rolledBack := (installations, repositories);
        var ok := ApplyRepositoryWebhook(e.body.repositories, e.snapshot, e.ids);
        if !ok {
          installations, repositories := rolledBack.0, rolledBack.1;
          return None;
        }
      }
      return Some(Duplicate);
    }

    /** bind: the only way back from REMOVED. */
    method BindInstallation(tenantId: string, s: Snapshot, ids: int -> string) returns (ok: bool)
      modifies this
      ensures ok <==> Bind(old(Contents()), tenantId, s, ids).Some?
      ensures ok ==> Contents() == Bind(old(Contents()), tenantId, s, ids).value
      ensures !ok ==> Contents() == old(Contents())
    {
      if s.installationId in installations && installations[s.installationId].tenantId != tenantId {
        return false;
      }
      var rolledBack := (installations, repositories);
      installations := installations[s.installationId := Installation(tenantId, s.details, State(s.updatedAt, ACTIVE))];
      WithdrawRepositories(tenantId, s.installationId);
      ok := UpsertRepositories(tenantId, s.installationId, s.repositories, None, ids);
      if !ok {
        installations, repositories := rolledBack.0, rolledBack.1;
      }
    }
  }

  // A failed statement fails the rest of the list.

  lemma {:induction false} UpsertAllStopped(rows: seq<Repository>, tenantId: string, installationId: int, vs: seq<Verified>,
                                            at: Option<int>, ids: int -> string, n: nat)
    requires n <= |vs| && UpsertAll(rows, tenantId, installationId, vs[..n], at, ids).None?
    ensures UpsertAll(rows, tenantId, installationId, vs, at, ids).None?
    decreases |vs|
  {
    if n < |vs| {
      assert vs[..|vs| - 1][..n] == vs[..n];
      UpsertAllStopped(rows, tenantId, installationId, vs[..|vs| - 1], at, ids, n);
    } else {
      assert vs[..n] == vs;
    }
  }

  lemma {:induction false} RemoveAllStopped(rows: seq<Repository>, tenantId: string, p: RepositoryPayload, m: nat, n: nat)
    requires m <= n <= |p.removed| && RemoveAll(rows, tenantId, p, m).None?
    ensures RemoveAll(rows, tenantId, p, n).None?
  {
    if m < n {
      RemoveAllStopped(rows, tenantId, p, m, n - 1);
    }
  }

  lemma {:induction false} AddAllStopped(rows: seq<Repository>, tenantId: string, p: RepositoryPayload, m: nat, n: nat,
                                         ids: int -> string)
    requires m <= n <= |p.added| && AddAll(rows, tenantId, p, m, ids).None?
    ensures AddAll(rows, tenantId, p, n, ids).None?
  {
    if m < n {
      AddAllStopped(rows, tenantId, p, m, n - 1, ids);
    }
  }
}
