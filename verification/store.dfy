/**
 * The record store the server actions read and write, as an immutable
 * value. Every action takes a `Db` and returns the `Db` after it, so
 * "nothing was written" is `db' == db` and "one job was created" is
 * `db'.jobs == db.jobs + [job]`.
 *
 * Row ids are minted from a counter; the database's own id generator is
 * not modelled. Lookups return the first matching row in store order,
 * which stands for the database's unspecified order.
 */
module Store {
  import opened Wrappers
  import opened Text
  import opened Seqs

  type Id = string

  /** Milliseconds since the epoch. */
  type Time = int

  /** One day in milliseconds. */
  const DayMs: int := 24 * 60 * 60 * 1000

  /** `DUPLICATE_CHECK_TIME_WINDOW_MS`: 30 days. */
  const DuplicateWindowMs: int := 30 * DayMs

  /** `MAX_DUPLICATE_CHECK_JOBS`. */
  const MaxDuplicateCheckJobs: nat := 50

  /** `DEFAULT_JOB_TYPE`. */
  const DefaultJobType := "FT"

  /** `DEFAULT_JOB_STATUS`. */
  const DraftStatus := "draft"

  datatype User = User(id: Id, name: string, email: string, password: string)

  /** A company, job title or location row: the user-facing name and its per-user key. */
  datatype Entity = Entity(id: Id, labelText: string, value: string, createdBy: Id)

  /** The optional columns of a company row. */
  datatype CompanyInfo = CompanyInfo(
    logoUrl: Option<string>,
    website: Option<string>,
    careerSite: Option<string>,
    archetype: Option<string>,
    ownership: Option<string>,
    industryRole: Option<string>,
    innovationLevel: Option<string>,
    cultureTag: Option<string>,
    country: Option<string>,
    summary: Option<string>,
    fitNotes: Option<string>,
    hasWorksCouncil: bool,
    hasCollectiveAgreement: bool,
    locationIds: seq<Id>)

  /** The optional columns of a location row; coordinates are numbers the model never inspects. */
  datatype Place = Place(zipCode: Option<string>, country: Option<string>, lat: Option<real>, lng: Option<real>)

  /** A job status or job source row (shared by all users). */
  datatype Lookup = Lookup(id: Id, labelText: string, value: string)

  datatype Job = Job(
    id: Id,
    userId: Id,
    jobUrl: Option<string>,
    companyId: Id,
    jobTitleId: Id,
    locationId: Option<Id>,
    statusId: Id,
    jobSourceId: Option<Id>,
    jobType: string,
    description: string,
    salaryRange: Option<string>,
    applied: bool,
    appliedDate: Option<Time>,
    dueDate: Option<Time>,
    createdAt: Time)

  datatype Db = Db(
    users: seq<User>,
    companies: seq<Entity>,
    companyInfo: map<Id, CompanyInfo>,
    titles: seq<Entity>,
    locations: seq<Entity>,
    places: map<Id, Place>,
    statuses: seq<Lookup>,
    sources: seq<Lookup>,
    jobs: seq<Job>,
    nextId: nat)

  /** The id the next created row receives. */
  function FreshId(db: Db): (r: Id)
    ensures |r| > 0
  {
    "c" + NatToDecimal(db.nextId)
  }

  /**
   * The per-user key of a company, job title or location name:
   * `name.toLowerCase().trim()` (the company actions write
   * `name.trim().toLowerCase()`, which is the same string).
   */
  function ValueKey(name: string): (r: string)
    ensures IsTrimmed(r) && IsLower(r)
  {
    ToLowerIsLower(name);
    TrimPreservesLower(ToLower(name));
    Trim(ToLower(name))
  }

  /** Trimming first and lower-casing second gives the same key. */
  lemma ValueKeyEitherOrder(name: string)
    ensures ToLower(Trim(name)) == ValueKey(name)
  {
    TrimLowerCommute(name);
  }

  /** A key is its own key. */
  lemma ValueKeyIdempotent(name: string)
    ensures ValueKey(ValueKey(name)) == ValueKey(name)
  {
    var k := ValueKey(name);
    ToLowerFixesLower(k);
    TrimFixesTrimmed(k);
  }

  /** Labels that differ only in letter case share a key. */
  lemma ValueKeyIgnoresCase(name: string)
    ensures ValueKey(ToLower(name)) == ValueKey(name)
  {
    ToLowerIsLower(name);
    ToLowerFixesLower(ToLower(name));
  }

  /** The row of `rows` whose key is `(value, user)` (a `findUnique` on `value_createdBy`). */
  function FindByKey(rows: seq<Entity>, value: string, user: Id): (r: Option<Entity>)
    ensures r.Some? ==> r.value in rows && r.value.value == value && r.value.createdBy == user
    ensures r.None? <==> forall i :: 0 <= i < |rows| ==> !(rows[i].value == value && rows[i].createdBy == user)
  {
    Find(rows, (e: Entity) => e.value == value && e.createdBy == user)
  }

  /** The shared row whose `value` is `value` (a `findFirst` on statuses or sources). */
  function FindLookup(rows: seq<Lookup>, value: string): (r: Option<Lookup>)
    ensures r.Some? ==> r.value in rows && r.value.value == value
    ensures r.None? <==> forall i :: 0 <= i < |rows| ==> rows[i].value != value
  {
    Find(rows, (l: Lookup) => l.value == value)
  }

  /** The job title row with id `id`. */
  function TitleById(db: Db, id: Id): (r: Option<Entity>)
    ensures r.Some? ==> r.value in db.titles && r.value.id == id
  {
    Find(db.titles, (e: Entity) => e.id == id)
  }

  /** A find-or-create on a per-user table keyed by `(value, user)`: the row, and the table after. */
  function EnsureKeyed(rows: seq<Entity>, labelText: string, value: string, user: Id, newId: Id): (r: (Entity, seq<Entity>))
    ensures r.0.value == value && r.0.createdBy == user
    ensures FindByKey(rows, value, user).Some? ==> r.0 == FindByKey(rows, value, user).value && r.1 == rows
    ensures FindByKey(rows, value, user).None? ==> r.0 == Entity(newId, labelText, value, user) && r.1 == rows + [r.0]
  {
    match FindByKey(rows, value, user)
    case Some(e) => (e, rows)
    case None => var e := Entity(newId, labelText, value, user); (e, rows + [e])
  }

  /** A find-or-create on a shared lookup table by `value`. */
  function EnsureLookup(rows: seq<Lookup>, labelText: string, value: string, newId: Id): (r: (Lookup, seq<Lookup>))
    ensures r.0.value == value
    ensures FindLookup(rows, value).Some? ==> r.0 == FindLookup(rows, value).value && r.1 == rows
    ensures FindLookup(rows, value).None? ==> r.0 == Lookup(newId, labelText, value) && r.1 == rows + [r.0]
  {
    match FindLookup(rows, value)
    case Some(l) => (l, rows)
    case None => var l := Lookup(newId, labelText, value); (l, rows + [l])
  }

  /** A second find-or-create with the same key finds the row the first one returned and adds nothing. */
  lemma {:induction false} EnsureKeyedTwice(rows: seq<Entity>, labelText: string, labelText2: string, value: string, user: Id, newId: Id, newId2: Id)
    ensures var (e, rows') := EnsureKeyed(rows, labelText, value, user, newId);
      EnsureKeyed(rows', labelText2, value, user, newId2) == (e, rows')
  {
    if FindByKey(rows, value, user).None? {
      var e := Entity(newId, labelText, value, user);
      FindAfterMisses(rows, e, (x: Entity) => x.value == value && x.createdBy == user);
    }
  }

  /** Appending a row whose key the table lacks makes that row the one `FindByKey` returns. */
  lemma FindByKeyAfterMiss(rows: seq<Entity>, e: Entity)
    requires FindByKey(rows, e.value, e.createdBy).None?
    ensures FindByKey(rows + [e], e.value, e.createdBy) == Some(e)
  {
    FindAfterMisses(rows, e, (x: Entity) => x.value == e.value && x.createdBy == e.createdBy);
  }

  /** Searching `xs + [x]` when nothing in `xs` qualifies but `x` does finds `x`. */
  lemma {:induction false} FindAfterMisses<T>(xs: seq<T>, x: T, p: T -> bool)
    requires forall i :: 0 <= i < |xs| ==> !p(xs[i])
    requires p(x)
    ensures Find(xs + [x], p) == Some(x)
  {
    var ys := xs + [x];
    assert ys[|xs|] == x;
    var r := Find(ys, p);
    assert r.Some?;
    var i :| 0 <= i < |ys| && ys[i] == r.value && p(ys[i]) && forall j :: 0 <= j < i ==> !p(ys[j]);
    if i < |xs| {
      assert false;
    }
  }

  /**
   * The candidate query of the duplicate checks: the user's jobs at the
   * company created at or after `now - 30 days`, at most 50 of them. There
   * is no ordering clause; the model takes them in store order.
   */
  function RecentCompanyJobs(db: Db, user: Id, companyId: Id, now: Time): (r: seq<Job>)
    ensures |r| <= MaxDuplicateCheckJobs
    ensures forall i :: 0 <= i < |r| ==> r[i] in db.jobs && IsRecentCompanyJob(r[i], user, companyId, now)
  {
    var all := Filter(db.jobs, (j: Job) => IsRecentCompanyJob(j, user, companyId, now));
    Take(all, MaxDuplicateCheckJobs)
  }

  /** The `where` clause of the duplicate check: the user's job at the company, created within the window. */
  predicate IsRecentCompanyJob(j: Job, user: Id, companyId: Id, now: Time) {
    j.userId == user && j.companyId == companyId && j.createdAt >= now - DuplicateWindowMs
  }

  /**
   * Only the cap of 50 leaves a qualifying job out: when fewer than 50 are
   * returned, every job of the user at the company created within the
   * window is among them.
   */
  lemma RecentCompanyJobsComplete(db: Db, user: Id, companyId: Id, now: Time, j: Job)
    requires j in db.jobs && IsRecentCompanyJob(j, user, companyId, now)
    requires |RecentCompanyJobs(db, user, companyId, now)| < MaxDuplicateCheckJobs
    ensures j in RecentCompanyJobs(db, user, companyId, now)
  {
    var all := Filter(db.jobs, (x: Job) => IsRecentCompanyJob(x, user, companyId, now));
    assert |all| <= MaxDuplicateCheckJobs;
    var i :| 0 <= i < |db.jobs| && db.jobs[i] == j;
    assert j in all;
  }

  /** The number of jobs that reference a row through `ref` (`prisma.job.count`). */
  function CountJobs(jobs: seq<Job>, ref: Job -> bool): (n: nat)
    ensures n <= |jobs|
    ensures n == 0 <==> forall i :: 0 <= i < |jobs| ==> !ref(jobs[i])
  {
    |Filter(jobs, ref)|
  }

  /** Deleting the row with id `id` created by `user`: `None` where there is no such row (Prisma throws). */
  function DeleteOwned(rows: seq<Entity>, id: Id, user: Id): (r: Option<seq<Entity>>)
    ensures r.None? <==> forall i :: 0 <= i < |rows| ==> !(rows[i].id == id && rows[i].createdBy == user)
    ensures r.Some? ==> forall i :: 0 <= i < |r.value| ==> r.value[i] in rows && r.value[i].id != id
    ensures r.Some? ==> forall i :: 0 <= i < |rows| && rows[i].id != id ==> rows[i] in r.value
  {
    if exists i :: 0 <= i < |rows| && rows[i].id == id && rows[i].createdBy == user then
      Some(Filter(rows, (e: Entity) => e.id != id))
    else None
  }

  /** The error every action throws when there is no session. */
  const NotAuthenticated := "Not authenticated"

  /** The error Prisma raises when an update or delete finds no row; its text is not part of the model. */
  const RecordNotFound := "Record not found"

  /** At most one row per `(value, createdBy)`: the `value_createdBy` unique key. */
  predicate KeysUnique(rows: seq<Entity>) {
    forall i, j :: 0 <= i < j < |rows| ==> !(rows[i].value == rows[j].value && rows[i].createdBy == rows[j].createdBy)
  }

  /** Rewriting row `k` keeps the keys unique when no other row holds the new key. */
  lemma RewriteKeepsKeysUnique(rows: seq<Entity>, k: nat, e: Entity)
    requires KeysUnique(rows) && k < |rows|
    requires forall i :: 0 <= i < |rows| && i != k ==> !(rows[i].value == e.value && rows[i].createdBy == e.createdBy)
    ensures KeysUnique(rows[k := e])
  {
  }

  /** Appending a row whose key is not taken keeps the keys unique. */
  lemma AppendKeepsKeysUnique(rows: seq<Entity>, e: Entity)
    requires KeysUnique(rows)
    requires FindByKey(rows, e.value, e.createdBy).None?
    ensures KeysUnique(rows + [e])
  {
    var rows' := rows + [e];
    forall i, j | 0 <= i < j < |rows'|
      ensures !(rows'[i].value == rows'[j].value && rows'[i].createdBy == rows'[j].createdBy)
    {
      if j == |rows| {
        assert rows'[i] == rows[i];
      }
    }
  }

  /** A find-or-create keeps the keys unique. */
  lemma EnsureKeyedKeepsKeysUnique(rows: seq<Entity>, labelText: string, value: string, user: Id, newId: Id)
    requires KeysUnique(rows)
    ensures KeysUnique(EnsureKeyed(rows, labelText, value, user, newId).1)
  {
    if FindByKey(rows, value, user).None? {
      AppendKeepsKeysUnique(rows, Entity(newId, labelText, value, user));
    }
  }

  /** The message of the "refuse delete when jobs exist" rule. */
  function DeleteBlocked(noun: string, n: nat): (msg: string)
    ensures StartsWith(msg, noun + " cannot be deleted due to ")
  {
    noun + " cannot be deleted due to " + NatToDecimal(n) + " number of associated jobs! "
  }

  /** The number of jobs whose reference `key` points at row `id` (`prisma.job.count({ where: { <key>: id } })`). */
  function RefCount(jobs: seq<Job>, key: Job -> Option<Id>, id: Id): (n: nat)
    ensures n == 0 <==> forall i :: 0 <= i < |jobs| ==> key(jobs[i]) != Some(id)
  {
    CountJobs(jobs, (j: Job) => key(j) == Some(id))
  }

  /**
   * `deleteCompanyById`, `deleteJobLocationById` and `deleteJobTitleById`:
   * refuse while any job (of any user) references the row through `key`;
   * otherwise delete the row with id `id` created by `user`, which fails
   * when there is none.
   */
  function GuardedDelete(rows: seq<Entity>, jobs: seq<Job>, id: Id, user: Id, key: Job -> Option<Id>, noun: string): (r: Result<seq<Entity>>)
    ensures RefCount(jobs, key, id) > 0 ==> r == Err(DeleteBlocked(noun, RefCount(jobs, key, id)))
    ensures r.Ok? <==> RefCount(jobs, key, id) == 0 && DeleteOwned(rows, id, user).Some?
    ensures r.Ok? ==> r.value == DeleteOwned(rows, id, user).value
    ensures r.Err? && RefCount(jobs, key, id) == 0 ==> r.message == RecordNotFound
  {
    var n := RefCount(jobs, key, id);
    if n > 0 then Err(DeleteBlocked(noun, n))
    else match DeleteOwned(rows, id, user)
      case None => Err(RecordNotFound)
      case Some(kept) => Ok(kept)
  }

  /** Every job's reference through `key`, where it has one, names a row of `rows`. */
  predicate RefsResolve(rows: seq<Entity>, jobs: seq<Job>, key: Job -> Option<Id>) {
    forall i :: 0 <= i < |jobs| && key(jobs[i]).Some? ==> exists e :: e in rows && e.id == key(jobs[i]).value
  }

  /** A guarded delete never leaves a job pointing at a row that is gone. */
  lemma GuardedDeleteKeepsRefs(rows: seq<Entity>, jobs: seq<Job>, id: Id, user: Id, key: Job -> Option<Id>, noun: string)
    requires RefsResolve(rows, jobs, key)
    requires GuardedDelete(rows, jobs, id, user, key, noun).Ok?
    ensures RefsResolve(GuardedDelete(rows, jobs, id, user, key, noun).value, jobs, key)
  {
    var kept := GuardedDelete(rows, jobs, id, user, key, noun).value;
    forall i | 0 <= i < |jobs| && key(jobs[i]).Some?
      ensures exists e :: e in kept && e.id == key(jobs[i]).value
    {
      var e :| e in rows && e.id == key(jobs[i]).value;
      var k :| 0 <= k < |rows| && rows[k] == e;
      assert rows[k] in kept;
    }
  }
}
