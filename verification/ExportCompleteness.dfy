/**
 What an export contains: every row of the tenant, once.

 The export is guarded by counts only. That no key, job or artifact is lost follows from the counts together with the
 constraints of the tables and the checks of the manifest; for cases it holds exactly when none of the tenant's jobs
 belongs to a deleted case.
 */
module ExportCompleteness {
  import opened Wrappers
  import opened Json
  import opened Lifecycle
  import opened Lists
  import opened TenantManifest
  import opened TenantRestore
  import opened TenantDatabase

  // ---------------------------------------------------------------------------------------------
  // Counting
  // ---------------------------------------------------------------------------------------------

  ghost predicate AllDistinct<T(!new)>(xs: seq<T>) { forall i, j :: 0 <= i < j < |xs| ==> xs[i] != xs[j] }

  lemma {:induction false} DistinctCount<T(!new)>(xs: seq<T>)
    requires AllDistinct(xs)
    ensures |set x | x in xs| == |xs|
  {
    if xs == [] {
      assert (set x | x in xs) == {};
    } else {
      var n := |xs| - 1;
      DistinctCount(xs[..n]);
      assert xs == xs[..n] + [xs[n]];
      assert (set x | x in xs) == (set x | x in xs[..n]) + {xs[n]};
    }
  }

  /** As many distinct elements of a list as the list has are all of them. */
  lemma Pigeonhole<T(!new)>(xs: seq<T>, ys: seq<T>)
    requires AllDistinct(xs) && AllDistinct(ys) && |xs| == |ys|
    requires forall x :: x in xs ==> x in ys
    ensures forall y :: y in ys ==> y in xs
  {
    DistinctCount(xs);
    DistinctCount(ys);
    var here, there := set x | x in xs, set y | y in ys;
    assert here <= there;
    assert |there - here| == 0;
    forall y | y in ys
      ensures y in xs
    {
      assert y in there && y !in there - here;
    }
  }

  /** Selecting as many by a stronger condition is selecting the same. */
  lemma {:induction false} SameCountSameRows<T>(strong: T -> bool, weak: T -> bool, xs: seq<T>)
    requires forall x :: x in xs && strong(x) ==> weak(x)
    ensures |Where(strong, xs)| <= |Where(weak, xs)|
    ensures |Where(strong, xs)| == |Where(weak, xs)| ==> forall x :: x in xs && weak(x) ==> strong(x)
  {
    if xs != [] {
      assert xs == [xs[0]] + xs[1..];
      SameCountSameRows(strong, weak, xs[1..]);
    }
  }

  // ---------------------------------------------------------------------------------------------
  // Keys, jobs and cases
  // ---------------------------------------------------------------------------------------------

  /** The rows joined for a tenant, in the order of its manifest. */
  function JoinedRows(collation: Collation, t: Tables, id: Text): seq<Joined> {
    Sort(JoinedOrder(collation), JoinRows(t, Where(KeyIn(id), t.keys)))
  }

  lemma {:induction false} FindsCase(cases: seq<CaseRow>, tenantId: Text, id: Text, k: nat)
    requires k < |cases| && cases[k].tenantId == tenantId && cases[k].id == id
    ensures FindCase(cases, tenantId, id).Some?
  {
    if cases[0].tenantId != tenantId || cases[0].id != id {
      FindsCase(cases[1..], tenantId, id, k - 1);
    }
  }

  lemma {:induction false} FindsJob(jobs: seq<JobRow>, tenantId: Text, caseId: Text, id: Text, k: nat)
    requires k < |jobs| && jobs[k].tenantId == tenantId && jobs[k].caseId == caseId && jobs[k].id == id
    ensures FindJobRow(jobs, tenantId, caseId, id).Some?
  {
    if jobs[0].tenantId != tenantId || jobs[0].caseId != caseId || jobs[0].id != id {
      FindsJob(jobs[1..], tenantId, caseId, id, k - 1);
    }
  }

  /** The foreign keys make every key join. */
  lemma KeyJoins(t: Tables, key: KeyRow)
    requires Valid(t) && key in t.keys
    ensures FindCase(t.cases, key.tenantId, key.caseId).Some? && FindJobRow(t.jobs, key.tenantId, key.caseId, key.jobId).Some?
  {
    var i :| 0 <= i < |t.keys| && t.keys[i] == key;
    assert JobExists(t, key.tenantId, key.caseId, key.jobId);
    var j :| 0 <= j < |t.jobs| && t.jobs[j].tenantId == key.tenantId && t.jobs[j].caseId == key.caseId && t.jobs[j].id == key.jobId;
    assert CaseExists(t, t.jobs[j].tenantId, t.jobs[j].caseId);
    var c :| 0 <= c < |t.cases| && t.cases[c].tenantId == key.tenantId && t.cases[c].id == key.caseId;
    FindsJob(t.jobs, key.tenantId, key.caseId, key.jobId, j);
    FindsCase(t.cases, key.tenantId, key.caseId, c);
  }

  lemma {:induction false} EveryKeyJoins(t: Tables, keys: seq<KeyRow>)
    requires Valid(t) && forall k :: k in keys ==> k in t.keys
    ensures |JoinRows(t, keys)| == |keys|
    ensures forall k :: k in keys ==> exists i :: 0 <= i < |JoinRows(t, keys)| && JoinRows(t, keys)[i].key == k
  {
    if keys != [] {
      assert keys == [keys[0]] + keys[1..];
      EveryKeyJoins(t, keys[1..]);
      KeyJoins(t, keys[0]);
      var rows, rest := JoinRows(t, keys), JoinRows(t, keys[1..]);
      assert rows[0].key == keys[0] && rows[1..] == rest;
      forall k | k in keys
        ensures exists i :: 0 <= i < |rows| && rows[i].key == k
      {
        if k != keys[0] {
          var i :| 0 <= i < |rest| && rest[i].key == k;
          assert rows[i + 1].key == k;
        }
      }
    }
  }

  /** A joined row is made of the rows of the tenant that its keys say. */
  ghost predicate IsJoined(t: Tables, id: Text, row: Joined) {
    && row.key in t.keys && row.caseRow in t.cases && row.job in t.jobs
    && row.key.tenantId == row.caseRow.tenantId == row.job.tenantId == id
    && row.key.caseId == row.caseRow.id == row.job.caseId && row.key.jobId == row.job.id
  }

  lemma RowsAreJoined(collation: Collation, t: Tables, id: Text)
    requires Total(collation) && Valid(t)
    ensures var rows := JoinedRows(collation, t, id);
            && |rows| == |Where(KeyIn(id), t.keys)|
            && (forall k :: k in t.keys && k.tenantId == id ==> exists i :: 0 <= i < |rows| && rows[i].key == k)
            && (forall i :: 0 <= i < |rows| ==> IsJoined(t, id, rows[i]))
  {
    var keys, order := Where(KeyIn(id), t.keys), JoinedOrder(collation);
    var joined, rows := JoinRows(t, keys), JoinedRows(collation, t, id);
    forall k
      ensures k in keys <==> k in t.keys && k.tenantId == id
    {
      WhereMeans(KeyIn(id), t.keys, k);
    }
    EveryKeyJoins(t, keys);
    SortIsPermutation(order, joined);
    assert |rows| == |multiset(rows)| == |multiset(joined)| == |joined|;
    SamePermutation(rows, joined);
    forall k | k in keys
      ensures exists i :: 0 <= i < |rows| && rows[i].key == k
    {
      var i :| 0 <= i < |joined| && joined[i].key == k;
      assert joined[i] in rows;
    }
    forall i | 0 <= i < |rows|
      ensures IsJoined(t, id, rows[i])
    {
      assert rows[i] in joined;
      JoinedFromKeys(t, keys, rows[i]);
    }
  }

  predicate RowsDiffer(a: Joined, b: Joined) { a.job.id != b.job.id && a.caseRow.id != b.caseRow.id && a.key != b.key }

  /** A reproduction is inserted as the rows it was read from; the state of a case is read from its record. */
  predicate IsOf(r: Reproduction, row: Joined) { ToKey(r) == row.key && ToJob(r) == row.job && IsOfCase(r, row.caseRow) }

  predicate IsOfCase(r: Reproduction, c: CaseRow) {
    ToCase(r) == c.(state := c.domain.caseRecord.state, deleted := false)
  }

  /** The reproductions of a manifest, and the rows of the tenant they were read from. */
  ghost predicate Lines(t: Tables, id: Text, rs: seq<Reproduction>, rows: seq<Joined>) {
    && |rs| == |rows|
    && (forall i :: 0 <= i < |rows| ==> IsJoined(t, id, rows[i]))
    && (forall i :: 0 <= i < |rows| ==> IsOf(rs[i], rows[i]))
    && (forall i, j :: 0 <= i < j < |rows| ==> RowsDiffer(rows[i], rows[j]))
  }

  lemma MappedLines(t: Tables, id: Text, rs: seq<Reproduction>, rows: seq<Joined>)
    requires MapAll(rows) == Some(rs) && ReproductionsAgree(id, rs)
    requires forall i :: 0 <= i < |rows| ==> IsJoined(t, id, rows[i])
    ensures Lines(t, id, rs, rows)
  {
    forall i | 0 <= i < |rows|
      ensures IsOf(rs[i], rows[i])
    {
      assert IsJoined(t, id, rows[i]);
      InsertUndoesMap(rows[i]);
    }
    forall i, j | 0 <= i < j < |rows|
      ensures RowsDiffer(rows[i], rows[j])
    {
      assert IsOf(rs[i], rows[i]) && IsOf(rs[j], rows[j]);
      assert Apart(rs[i], rs[j]);
    }
  }

  function JobOfRow(row: Joined): JobRow { row.job }
  function CaseOfRow(row: Joined): CaseRow { row.caseRow }

  /** Every job of the tenant is in one of the rows. */
  lemma JobsAreJoined(t: Tables, id: Text, rs: seq<Reproduction>, rows: seq<Joined>)
    requires Lines(t, id, rs, rows) && Pairwise(JobsApart, t.jobs) && |rows| == |Where(JobIn(id), t.jobs)|
    ensures forall j :: j in t.jobs && j.tenantId == id ==> j in Apply(JobOfRow, rows)
  {
    var jobs, joined := Where(JobIn(id), t.jobs), Apply(JobOfRow, rows);
    WherePairwise(JobsApart, JobIn(id), t.jobs);
    forall j
      ensures j in jobs <==> j in t.jobs && j.tenantId == id
    {
      WhereMeans(JobIn(id), t.jobs, j);
    }
    forall i, k | 0 <= i < k < |jobs|
      ensures jobs[i] != jobs[k]
    {
      assert JobsApart(jobs[i], jobs[k]);
    }
    forall i, k | 0 <= i < k < |joined|
      ensures joined[i] != joined[k]
    {
      assert RowsDiffer(rows[i], rows[k]);
    }
    forall i | 0 <= i < |joined|
      ensures joined[i] in jobs
    {
      assert IsJoined(t, id, rows[i]);
    }
    Pigeonhole(joined, jobs);
  }

  /** Every live case is in one of the rows exactly when none of them has a deleted one. */
  lemma CasesAreJoinedExactly(t: Tables, id: Text, rs: seq<Reproduction>, rows: seq<Joined>)
    requires Lines(t, id, rs, rows) && Pairwise(CasesApart, t.cases) && |rows| == |Where(LiveCase(id), t.cases)|
    ensures (forall c :: c in t.cases && c.tenantId == id && !c.deleted ==> c in Apply(CaseOfRow, rows))
       <==> forall i :: 0 <= i < |rows| ==> !rows[i].caseRow.deleted
  {
    var cases, joined := Where(LiveCase(id), t.cases), Apply(CaseOfRow, rows);
    WherePairwise(CasesApart, LiveCase(id), t.cases);
    forall c
      ensures c in cases <==> c in t.cases && c.tenantId == id && !c.deleted
    {
      WhereMeans(LiveCase(id), t.cases, c);
    }
    forall i, k | 0 <= i < k < |cases|
      ensures cases[i] != cases[k]
    {
      assert CasesApart(cases[i], cases[k]);
    }
    forall i, k | 0 <= i < k < |joined|
      ensures joined[i] != joined[k]
    {
      assert RowsDiffer(rows[i], rows[k]);
    }
    forall i | 0 <= i < |joined|
      ensures joined[i] in cases <==> !rows[i].caseRow.deleted
    {
      assert IsJoined(t, id, rows[i]);
    }
    if forall c :: c in cases ==> c in joined {
      Pigeonhole(cases, joined);
      assert forall i :: 0 <= i < |joined| ==> joined[i] in joined;
    }
    if forall i :: 0 <= i < |rows| ==> !rows[i].caseRow.deleted {
      Pigeonhole(joined, cases);
    }
  }

  // ---------------------------------------------------------------------------------------------
  // Completeness
  // ---------------------------------------------------------------------------------------------

  /** What the export of a tenant is made of. */
  ghost predicate Exported(collation: Collation, t: Tables, id: Text, createdAt: int, m: Manifest) {
    && Total(collation) && Valid(t) && Export(collation, t, id, createdAt) == Ok(m)
  }

  /** Exactly one reproduction of the manifest meets the condition. */
  ghost predicate ExactlyOne(rs: seq<Reproduction>, p: Reproduction -> bool) {
    exists i :: 0 <= i < |rs| && p(rs[i]) && forall k :: 0 <= k < |rs| && p(rs[k]) ==> k == i
  }

  function WithKey(k: KeyRow): Reproduction -> bool { (r: Reproduction) => ToKey(r) == k }
  function WithJob(j: JobRow): Reproduction -> bool { (r: Reproduction) => ToJob(r) == j }
  function WithCase(c: CaseRow): Reproduction -> bool { (r: Reproduction) => IsOfCase(r, c) }

  /** No job of the tenant belongs to a deleted case. */
  ghost predicate NoOrphans(t: Tables, id: Text) {
    forall j, c :: j in t.jobs && c in t.cases && j.tenantId == id && c.tenantId == id && c.id == j.caseId ==> !c.deleted
  }

  /** What the guard of an export has counted, and that its manifest has been checked. */
  lemma ExportIsGuarded(collation: Collation, t: Tables, id: Text, createdAt: int, m: Manifest)
    requires Export(collation, t, id, createdAt) == Ok(m)
    ensures id in t.tenants && Collected(collation, t, id, createdAt) == Some(m) && Consistent(m)
    ensures |Where(KeyIn(id), t.keys)| == |Where(JobIn(id), t.jobs)| == |Where(LiveCase(id), t.cases)|
    ensures |Where(ArtifactIn(id), t.artifacts)| == |Where(AvailableIn(id), t.artifacts)|
  {
  }

  /** The parts of an exported manifest. */
  lemma ExportParts(collation: Collation, t: Tables, id: Text, createdAt: int, m: Manifest)
    requires Export(collation, t, id, createdAt) == Ok(m)
    ensures MapAll(JoinedRows(collation, t, id)) == Some(m.reproductions) && ReproductionsAgree(id, m.reproductions)
    ensures m.artifacts == Apply(Described, ArtifactRows(collation, t, id))
    ensures m.evidence == Sort(EvidenceOrder(collation), Where(EvidenceIn(id), t.evidence))
  {
    ExportIsGuarded(collation, t, id, createdAt, m);
  }

  lemma ExportLines(collation: Collation, t: Tables, id: Text, createdAt: int, m: Manifest) returns (rows: seq<Joined>)
    requires Exported(collation, t, id, createdAt, m)
    ensures Lines(t, id, m.reproductions, rows)
    ensures |rows| == |Where(JobIn(id), t.jobs)| == |Where(LiveCase(id), t.cases)|
    ensures forall k :: k in t.keys && k.tenantId == id ==> exists i :: 0 <= i < |rows| && rows[i].key == k
  {
    rows := JoinedRows(collation, t, id);
    ExportIsGuarded(collation, t, id, createdAt, m);
    ExportParts(collation, t, id, createdAt, m);
    RowsAreJoined(collation, t, id);
    MappedLines(t, id, m.reproductions, rows);
  }

  lemma OneLine(t: Tables, id: Text, rs: seq<Reproduction>, rows: seq<Joined>, p: Reproduction -> bool, i: nat)
    requires Lines(t, id, rs, rows) && i < |rs| && p(rs[i])
    requires forall n :: 0 <= n < |rs| && p(rs[n]) ==> !RowsDiffer(rows[n], rows[i]) && !RowsDiffer(rows[i], rows[n])
    ensures ExactlyOne(rs, p)
  {
    assert forall n :: 0 <= n < |rs| && p(rs[n]) ==> n == i;
  }

  lemma KeyHasLine(t: Tables, id: Text, rs: seq<Reproduction>, rows: seq<Joined>, i: nat)
    requires Lines(t, id, rs, rows) && i < |rows|
    ensures ExactlyOne(rs, WithKey(rows[i].key)) && ExactlyOne(rs, WithJob(rows[i].job))
  {
    forall n | 0 <= n < |rs|
      ensures WithKey(rows[i].key)(rs[n]) <==> rows[n].key == rows[i].key
      ensures WithJob(rows[i].job)(rs[n]) <==> rows[n].job == rows[i].job
    {
      assert IsOf(rs[n], rows[n]);
    }
    OneLine(t, id, rs, rows, WithKey(rows[i].key), i);
    OneLine(t, id, rs, rows, WithJob(rows[i].job), i);
  }

  lemma CaseHasLine(t: Tables, id: Text, rs: seq<Reproduction>, rows: seq<Joined>, c: CaseRow)
    requires Lines(t, id, rs, rows) && Pairwise(CasesApart, t.cases) && c in t.cases && c.tenantId == id
    ensures ExactlyOne(rs, WithCase(c)) <==> c in Apply(CaseOfRow, rows)
  {
    forall n | 0 <= n < |rs|
      ensures WithCase(c)(rs[n]) <==> rows[n].caseRow == c
    {
      assert IsOf(rs[n], rows[n]) && IsJoined(t, id, rows[n]);
      if WithCase(c)(rs[n]) {
        OneCase(t, c, rows[n].caseRow);
      }
    }
    if c in Apply(CaseOfRow, rows) {
      var i :| 0 <= i < |rows| && Apply(CaseOfRow, rows)[i] == c;
      OneLine(t, id, rs, rows, WithCase(c), i);
    }
    if ExactlyOne(rs, WithCase(c)) {
      var i :| 0 <= i < |rs| && WithCase(c)(rs[i]);
      assert Apply(CaseOfRow, rows)[i] == c;
    }
  }

  lemma OneCase(t: Tables, c: CaseRow, d: CaseRow)
    requires Pairwise(CasesApart, t.cases) && c in t.cases && d in t.cases && c.tenantId == d.tenantId && c.id == d.id
    ensures c == d
  {
    var i :| 0 <= i < |t.cases| && t.cases[i] == c;
    var k :| 0 <= k < |t.cases| && t.cases[k] == d;
    assert !CasesApart(t.cases[i], t.cases[k]) && !CasesApart(t.cases[k], t.cases[i]);
  }

  lemma OrphansHaveLines(t: Tables, id: Text, rs: seq<Reproduction>, rows: seq<Joined>)
    requires Lines(t, id, rs, rows) && Pairwise(CasesApart, t.cases)
    requires forall j :: j in t.jobs && j.tenantId == id ==> j in Apply(JobOfRow, rows)
    ensures NoOrphans(t, id) <==> forall i :: 0 <= i < |rows| ==> !rows[i].caseRow.deleted
  {
    if NoOrphans(t, id) {
      forall i | 0 <= i < |rows|
        ensures !rows[i].caseRow.deleted
      {
        assert IsJoined(t, id, rows[i]);
      }
    }
    forall j, c | j in t.jobs && c in t.cases && j.tenantId == id && c.tenantId == id && c.id == j.caseId
      ensures exists i :: 0 <= i < |rows| && rows[i].caseRow == c
    {
      JobHasCase(t, id, rs, rows, j, c);
    }
  }

  lemma JobHasCase(t: Tables, id: Text, rs: seq<Reproduction>, rows: seq<Joined>, j: JobRow, c: CaseRow)
    requires Lines(t, id, rs, rows) && Pairwise(CasesApart, t.cases) && j in Apply(JobOfRow, rows)
    requires c in t.cases && c.tenantId == id && c.id == j.caseId
    ensures exists i :: 0 <= i < |rows| && rows[i].caseRow == c
  {
    var i :| 0 <= i < |rows| && Apply(JobOfRow, rows)[i] == j;
    assert IsJoined(t, id, rows[i]);
    OneCase(t, c, rows[i].caseRow);
  }

  lemma KeysHaveLines(t: Tables, id: Text, rs: seq<Reproduction>, rows: seq<Joined>)
    requires Lines(t, id, rs, rows)
    requires forall k :: k in t.keys && k.tenantId == id ==> exists i :: 0 <= i < |rows| && rows[i].key == k
    ensures forall k :: k in t.keys && k.tenantId == id ==> ExactlyOne(rs, WithKey(k))
  {
    forall k | k in t.keys && k.tenantId == id
      ensures ExactlyOne(rs, WithKey(k))
    {
      var i :| 0 <= i < |rows| && rows[i].key == k;
      KeyHasLine(t, id, rs, rows, i);
    }
  }

  lemma JobsHaveLines(t: Tables, id: Text, rs: seq<Reproduction>, rows: seq<Joined>)
    requires Lines(t, id, rs, rows)
    requires forall j :: j in t.jobs && j.tenantId == id ==> j in Apply(JobOfRow, rows)
    ensures forall j :: j in t.jobs && j.tenantId == id ==> ExactlyOne(rs, WithJob(j))
  {
    forall j | j in t.jobs && j.tenantId == id
      ensures ExactlyOne(rs, WithJob(j))
    {
      var i :| 0 <= i < |rows| && Apply(JobOfRow, rows)[i] == j;
      KeyHasLine(t, id, rs, rows, i);
    }
  }

  lemma CasesHaveLines(t: Tables, id: Text, rs: seq<Reproduction>, rows: seq<Joined>)
    requires Lines(t, id, rs, rows) && Pairwise(CasesApart, t.cases) && |rows| == |Where(LiveCase(id), t.cases)|
    requires forall j :: j in t.jobs && j.tenantId == id ==> j in Apply(JobOfRow, rows)
    ensures (forall c :: c in t.cases && c.tenantId == id && !c.deleted ==> ExactlyOne(rs, WithCase(c))) <==> NoOrphans(t, id)
  {
    CasesAreJoinedExactly(t, id, rs, rows);
    OrphansHaveLines(t, id, rs, rows);
    forall c | c in t.cases && c.tenantId == id && !c.deleted
      ensures ExactlyOne(rs, WithCase(c)) <==> c in Apply(CaseOfRow, rows)
    {
      CaseHasLine(t, id, rs, rows, c);
    }
  }

  /**
   An export loses no key and no job: each of the tenant is in exactly one reproduction. It loses no live case exactly
   when no job of the tenant belongs to a deleted one.
   */
  lemma ReproductionsAreComplete(collation: Collation, t: Tables, id: Text, createdAt: int, m: Manifest)
    requires Exported(collation, t, id, createdAt, m)
    ensures forall k :: k in t.keys && k.tenantId == id ==> ExactlyOne(m.reproductions, WithKey(k))
    ensures forall j :: j in t.jobs && j.tenantId == id ==> ExactlyOne(m.reproductions, WithJob(j))
    ensures (forall c :: c in t.cases && c.tenantId == id && !c.deleted ==> ExactlyOne(m.reproductions, WithCase(c)))
       <==> NoOrphans(t, id)
  {
    var rows := ExportLines(collation, t, id, createdAt, m);
    KeysHaveLines(t, id, m.reproductions, rows);
    JobsAreJoined(t, id, m.reproductions, rows);
    JobsHaveLines(t, id, m.reproductions, rows);
    CasesHaveLines(t, id, m.reproductions, rows);
  }

  /** The artifacts of a manifest, and the rows of the tenant they were read from. */
  lemma ArtifactsHaveRows(t: Tables, id: Text, rows: seq<ArtifactRow>, artifacts: seq<Artifact>)
    requires artifacts == Apply(Described, rows) && SameElements(rows, Where(AvailableIn(id), t.artifacts))
    requires |Where(ArtifactIn(id), t.artifacts)| == |Where(AvailableIn(id), t.artifacts)|
    ensures forall a :: a in t.artifacts && a.described.tenantId == id ==> a.available
    ensures forall x :: x in artifacts <==> exists i :: 0 <= i < |t.artifacts| && t.artifacts[i].described == x && x.tenantId == id
  {
    SameCountSameRows(AvailableIn(id), ArtifactIn(id), t.artifacts);
    forall a | a in t.artifacts && a.described.tenantId == id
      ensures a.available
    {
      assert ArtifactIn(id)(a);
    }
    forall a
      ensures a in rows <==> a in t.artifacts && a.described.tenantId == id
    {
      WhereMeans(AvailableIn(id), t.artifacts, a);
    }
    forall x
      ensures x in artifacts <==> exists i :: 0 <= i < |t.artifacts| && t.artifacts[i].described == x && x.tenantId == id
    {
      if x in artifacts {
        var k :| 0 <= k < |rows| && artifacts[k] == x;
        assert rows[k] in rows;
      }
      if i :| 0 <= i < |t.artifacts| && t.artifacts[i].described == x && x.tenantId == id {
        assert t.artifacts[i] in rows;
        var k :| 0 <= k < |rows| && rows[k] == t.artifacts[i];
        assert artifacts[k] == x;
      }
    }
  }

  /** The artifacts of the manifest are those of the tenant, all of them AVAILABLE, and its evidence is that of the tenant. */
  lemma ArtifactsAreComplete(collation: Collation, t: Tables, id: Text, createdAt: int, m: Manifest)
    requires Exported(collation, t, id, createdAt, m)
    ensures forall a :: a in t.artifacts && a.described.tenantId == id ==> a.available
    ensures forall x :: x in m.artifacts <==> exists i :: 0 <= i < |t.artifacts| && t.artifacts[i].described == x && x.tenantId == id
    ensures forall e :: e in m.evidence <==> e in t.evidence && e.tenantId == id
  {
    ExportIsGuarded(collation, t, id, createdAt, m);
    ExportParts(collation, t, id, createdAt, m);
    ArtifactsInOrder(collation, t, id);
    EvidenceInOrder(collation, t, id);
    ArtifactsHaveRows(t, id, ArtifactRows(collation, t, id), m.artifacts);
    forall e
      ensures e in Where(EvidenceIn(id), t.evidence) <==> e in t.evidence && e.tenantId == id
    {
      WhereMeans(EvidenceIn(id), t.evidence, e);
    }
  }

  /** Something of the tenant stands in the way of an export. */
  ghost predicate Unsettled(t: Tables, id: Text) {
    || (exists i :: 0 <= i < |t.cases| && t.cases[i].tenantId == id && !t.cases[i].deleted && !TerminalCase(t.cases[i].state))
    || (exists i :: 0 <= i < |t.jobs| && t.jobs[i].tenantId == id && !TerminalJob(t.jobs[i].state))
    || (exists i :: 0 <= i < |t.artifacts| && t.artifacts[i].described.tenantId == id && !t.artifacts[i].available)
  }

  /** A case or a job that has not ended, and an artifact that is not AVAILABLE, each make a tenant not quiescent. */
  lemma UnsettledIsNotQuiescent(t: Tables, id: Text)
    requires Unsettled(t, id)
    ensures !Quiescent(t, id)
  {
    if i :| 0 <= i < |t.cases| && t.cases[i].tenantId == id && !t.cases[i].deleted && !TerminalCase(t.cases[i].state) {
      WhereMeans(LiveCase(id), t.cases, t.cases[i]);
    } else if i :| 0 <= i < |t.jobs| && t.jobs[i].tenantId == id && !TerminalJob(t.jobs[i].state) {
      WhereMeans(JobIn(id), t.jobs, t.jobs[i]);
    } else {
      var i :| 0 <= i < |t.artifacts| && t.artifacts[i].described.tenantId == id && !t.artifacts[i].available;
      SameCountSameRows(AvailableIn(id), ArtifactIn(id), t.artifacts);
      assert ArtifactIn(id)(t.artifacts[i]) && !AvailableIn(id)(t.artifacts[i]);
    }
  }

  lemma UnsettledIsRefused(collation: Collation, t: Tables, id: Text, createdAt: int)
    requires id in t.tenants && (!t.tenants[id].active || Unsettled(t, id))
    ensures Export(collation, t, id, createdAt) == Err(NotQuiescent)
  {
    if Unsettled(t, id) {
      UnsettledIsNotQuiescent(t, id);
    }
  }

  /** Everything of the tenant is in the manifest, and nothing else; cases under the condition stated. */
  ghost predicate Complete(t: Tables, id: Text, m: Manifest) {
    && id in t.tenants && t.tenants[id].active
    && m.tenant == Tenant(t.tenants[id].createdAt, t.tenants[id].retentionUntil, id, t.tenants[id].updatedAt)
    && (forall k :: k in t.keys && k.tenantId == id ==> ExactlyOne(m.reproductions, WithKey(k)))
    && (forall j :: j in t.jobs && j.tenantId == id ==> ExactlyOne(m.reproductions, WithJob(j)))
    && ((forall c :: c in t.cases && c.tenantId == id && !c.deleted ==> ExactlyOne(m.reproductions, WithCase(c))) <==> NoOrphans(t, id))
    && (forall a :: a in t.artifacts && a.described.tenantId == id ==> a.available)
    && (forall x :: x in m.artifacts <==> exists i :: 0 <= i < |t.artifacts| && t.artifacts[i].described == x && x.tenantId == id)
    && (forall e :: e in m.evidence <==> e in t.evidence && e.tenantId == id)
  }

  lemma ExportIsComplete(collation: Collation, t: Tables, id: Text, createdAt: int, m: Manifest)
    requires Exported(collation, t, id, createdAt, m)
    ensures Complete(t, id, m) && m.createdAt == createdAt
  {
    ReproductionsAreComplete(collation, t, id, createdAt, m);
    ArtifactsAreComplete(collation, t, id, createdAt, m);
  }

  // ---------------------------------------------------------------------------------------------
  // A live case that is lost
  // ---------------------------------------------------------------------------------------------

  /** A finished case that has been deleted, with its job and its key, and a finished live case without any. */
  function Orphaned(): Tables {
    var r := Stripped(BlockedReproduction());
    Tables(map[FIRST_ID := TenantRow(true, 0, 0, None)], map[], [ToCase(r).(deleted := true), ToCase(r).(id := Ascii("b"))],
           [ToJob(r)], [ToKey(r)], [], [])
  }

  function OrphanManifest(): Manifest { Manifest([], 0, [], [Stripped(BlockedReproduction())], Tenant(0, None, FIRST_ID, 0)) }

  lemma OrphanedRowsOk()
    ensures var t := Orphaned();
            CaseRowOk(t.cases[0]) && CaseRowOk(t.cases[1]) && JobRowOk(t.jobs[0]) && KeyRowOk(t.keys[0]) && TenantRowOk(FIRST_ID, t.tenants[FIRST_ID])
  {
    SmallRowsOk();
    assert RowsOk(SmallManifest().reproductions[0]);
    assert |Ascii("b")| == 1 && Ascii("b")[0] == 0x62;
  }

  /** The rows refer to one another, and the two cases differ. */
  lemma OrphanedRefers()
    ensures var t := Orphaned();
            && t.cases[0].id == FIRST_ID != t.cases[1].id
            && t.jobs[0].caseId == FIRST_ID && t.jobs[0].id == FIRST_ID && t.keys[0].caseId == FIRST_ID && t.keys[0].jobId == FIRST_ID
            && t.cases[0].tenantId == t.cases[1].tenantId == t.jobs[0].tenantId == t.keys[0].tenantId == FIRST_ID
  {
    assert Ascii("b")[0] == 0x62 && FIRST_ID[0] == 0x61;
  }

  lemma OrphanedIsValid()
    ensures Valid(Orphaned())
  {
    var t := Orphaned();
    OrphanedRowsOk();
    OrphanedRefers();
    assert CaseExists(t, FIRST_ID, FIRST_ID) && JobExists(t, FIRST_ID, FIRST_ID, FIRST_ID);
  }

  lemma OrphanedCollects(collation: Collation)
    ensures Collected(collation, Orphaned(), FIRST_ID, 0) == Some(OrphanManifest())
  {
    var t, r := Orphaned(), Stripped(BlockedReproduction());
    var row := Joined(ToKey(r), t.cases[0], ToJob(r));
    assert Where(KeyIn(FIRST_ID), t.keys) == [ToKey(r)];
    assert JoinRows(t, [ToKey(r)]) == [row] by {
      assert [ToKey(r)][1..] == [];
    }
    assert Sort(JoinedOrder(collation), [row]) == [row];
    assert MapReproduction(row) == Some(r);
    var mapped := MapAll([row]);
    assert mapped.Some? && Some(mapped.value[0]) == MapReproduction([row][0]);
    assert mapped.value == [r];
  }

  lemma OrphanedCounts()
    ensures var t := Orphaned();
            && Where(LiveCase(FIRST_ID), t.cases) == [t.cases[1]] && Where(JobIn(FIRST_ID), t.jobs) == t.jobs
            && Where(KeyIn(FIRST_ID), t.keys) == t.keys
  {
    var t := Orphaned();
    OrphanedRefers();
    assert t.cases[1..] == [t.cases[1]] && [t.cases[1]][1..] == [] && t.jobs[1..] == [] && t.keys[1..] == [];
    assert !LiveCase(FIRST_ID)(t.cases[0]) && LiveCase(FIRST_ID)(t.cases[1]);
    assert Where(LiveCase(FIRST_ID), [t.cases[1]]) == [t.cases[1]];
  }

  lemma OrphanedIsQuiescent()
    ensures Quiescent(Orphaned(), FIRST_ID)
  {
    OrphanedCounts();
  }

  lemma OrphanManifestIsConsistent()
    ensures Consistent(OrphanManifest())
  {
    SmallIsConsistent();
    assert Consistent(SmallManifest());
  }

  lemma OrphanedIsExported(collation: Collation)
    ensures Export(collation, Orphaned(), FIRST_ID, 0) == Ok(OrphanManifest())
  {
    OrphanedCollects(collation);
    OrphanedIsQuiescent();
    OrphanManifestIsConsistent();
  }

  /** The guard of the export counts, so a deleted case can stand in for a live one. */
  lemma LiveCaseIsLost(collation: Collation)
    requires Total(collation)
    ensures Exported(collation, Orphaned(), FIRST_ID, 0, OrphanManifest())
    ensures !Orphaned().cases[1].deleted && !ExactlyOne(OrphanManifest().reproductions, WithCase(Orphaned().cases[1]))
  {
    OrphanedIsValid();
    OrphanedIsExported(collation);
    OrphanedRefers();
    assert ToCase(OrphanManifest().reproductions[0]).id == FIRST_ID;
  }
}
