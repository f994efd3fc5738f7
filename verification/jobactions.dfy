/**
 * `src/actions/job.actions.ts`: the job actions the capture pipeline leans
 * on: the duplicate listing `findDuplicateJobs`, `createLocation`, the
 * status change `updateJobStatus` and the ownership guard of `updateJob`.
 */
module JobActions {
  import opened Wrappers
  import opened Text
  import opened Seqs
  import opened Url
  import opened Dedup
  import opened Store
  import opened UserEnsure
  import opened LocationActions

  // ---------------------------------------------------------------------------
  // findDuplicateJobs
  // ---------------------------------------------------------------------------

  /** The label of the row with id `id`; a dangling reference reads as no label. */
  function LabelOf(rows: seq<Entity>, id: Id): (r: Option<Entity>)
    ensures r.Some? ==> r.value in rows && r.value.id == id
    ensures r.None? <==> forall i :: 0 <= i < |rows| ==> rows[i].id != id
  {
    Find(rows, (e: Entity) => e.id == id)
  }

  /** A stored job as `arePotentialDuplicates` sees it: its company, its title's key and its URL. */
  function StoredJobKey(db: Db, job: Job): (k: JobKey)
    ensures k.companyId == Some(job.companyId) && k.jobUrl == job.jobUrl
    ensures LabelOf(db.titles, job.jobTitleId).Some? ==> k.jobTitleValue == Some(LabelOf(db.titles, job.jobTitleId).value.value)
  {
    var t := LabelOf(db.titles, job.jobTitleId);
    JobKey(Some(job.companyId), if t.Some? then Some(t.value.value) else None, job.jobUrl)
  }

  /** One entry of the `duplicates` list. */
  datatype DuplicateSummary = DuplicateSummary(id: Id, title: Option<string>, company: Option<string>, createdAt: Time, jobUrl: Option<string>)

  function Summary(db: Db, job: Job): (d: DuplicateSummary)
    ensures d.id == job.id && d.createdAt == job.createdAt && d.jobUrl == job.jobUrl
  {
    var t := LabelOf(db.titles, job.jobTitleId);
    var c := LabelOf(db.companies, job.companyId);
    DuplicateSummary(job.id, if t.Some? then Some(t.value.labelText) else None,
                     if c.Some? then Some(c.value.labelText) else None, job.createdAt, job.jobUrl)
  }

  /** The new job `key` and the stored job `c` are potential duplicates. */
  predicate IsDuplicate(db: Db, key: JobKey, parse: UrlParser, c: Job) {
    ArePotentialDuplicates(key, StoredJobKey(db, c), parse)
  }

  /**
   * The summaries of the candidates that are potential duplicates of
   * `key`, in candidate order (the reference for the loop below).
   */
  function Duplicates(db: Db, candidates: seq<Job>, key: JobKey, parse: UrlParser): (r: seq<DuplicateSummary>)
    ensures |r| <= |candidates|
    decreases |candidates|
  {
    if |candidates| == 0 then []
    else
      var last := candidates[|candidates| - 1];
      Duplicates(db, candidates[..|candidates| - 1], key, parse)
        + (if IsDuplicate(db, key, parse, last) then [Summary(db, last)] else [])
  }

  /** Every listed summary is a matching candidate's, and every matching candidate is listed. */
  lemma {:induction false} DuplicatesAreMatches(db: Db, candidates: seq<Job>, key: JobKey, parse: UrlParser)
    ensures forall d :: d in Duplicates(db, candidates, key, parse) ==>
      exists c :: c in candidates && IsDuplicate(db, key, parse, c) && d == Summary(db, c)
    ensures forall c :: c in candidates && IsDuplicate(db, key, parse, c) ==> Summary(db, c) in Duplicates(db, candidates, key, parse)
    decreases |candidates|
  {
    if |candidates| > 0 {
      var init := candidates[..|candidates| - 1];
      var last := candidates[|candidates| - 1];
      DuplicatesAreMatches(db, init, key, parse);
      assert candidates == init + [last];
      forall c | c in candidates && IsDuplicate(db, key, parse, c)
        ensures Summary(db, c) in Duplicates(db, candidates, key, parse)
      {
        if c != last {
          assert c in init;
        }
      }
    }
  }

  /** Appending a candidate appends its summary exactly when it matches. */
  lemma DuplicatesSnoc(db: Db, candidates: seq<Job>, c: Job, key: JobKey, parse: UrlParser)
    ensures Duplicates(db, candidates + [c], key, parse)
      == Duplicates(db, candidates, key, parse) + (if IsDuplicate(db, key, parse, c) then [Summary(db, c)] else [])
  {
    assert (candidates + [c])[..|candidates|] == candidates;
  }

  /** The `for ... of` loop of `findDuplicateJobs`, which pushes each duplicate's summary. */
  method CollectDuplicates(db: Db, candidates: seq<Job>, key: JobKey, parse: UrlParser) returns (dups: seq<DuplicateSummary>)
    ensures dups == Duplicates(db, candidates, key, parse)
  {
    dups := [];
    var i := 0;
    while i < |candidates|
      invariant 0 <= i <= |candidates|
      invariant dups == Duplicates(db, candidates[..i], key, parse)
    {
      var existing := candidates[i];
      DuplicatesSnoc(db, candidates[..i], existing, key, parse);
      assert candidates[..i + 1] == candidates[..i] + [existing];
      if IsDuplicate(db, key, parse, existing) {
        dups := dups + [Summary(db, existing)];
      }
      i := i + 1;
    }
    assert candidates[..i] == candidates;
  }

  /**
   * `findDuplicateJobs(companyId, jobTitleValue, jobUrl)`: the summaries of
   * every candidate (the user's jobs at the company in the last 30 days, at
   * most 50, in store order) that `arePotentialDuplicates` accepts.
   */
  function FindDuplicateJobs(db: Db, current: Option<CurrentUser>, companyId: Id, jobTitleValue: string,
                             jobUrl: Option<string>, parse: UrlParser, now: Time): (r: (Result<seq<DuplicateSummary>>, Db))
    ensures current.None? <==> r.0.Err?
    ensures current.None? ==> r == (Err(NotAuthenticated), db)
    ensures current.Some? ==>
      var (user, db1) := EnsureUser(db, current.value);
      && r.1 == db1
      && r.0 == Ok(Duplicates(db1, RecentCompanyJobs(db1, user.id, companyId, now),
                              JobKey(Some(companyId), Some(jobTitleValue), OrNull(jobUrl)), parse))
    ensures r.0.Ok? ==> |r.0.value| <= MaxDuplicateCheckJobs
  {
    match current
    case None => (Err(NotAuthenticated), db)
    case Some(u) =>
      var (user, db1) := EnsureUser(db, u);
      var candidates := RecentCompanyJobs(db1, user.id, companyId, now);
      var key := JobKey(Some(companyId), Some(jobTitleValue), OrNull(jobUrl));
      DuplicatesLength(db1, candidates, key, parse);
      (Ok(Duplicates(db1, candidates, key, parse)), db1)
  }

  /** No more summaries than candidates. */
  lemma {:induction false} DuplicatesLength(db: Db, candidates: seq<Job>, key: JobKey, parse: UrlParser)
    ensures |Duplicates(db, candidates, key, parse)| <= |candidates|
    decreases |candidates|
  {
    if |candidates| > 0 {
      DuplicatesLength(db, candidates[..|candidates| - 1], key, parse);
    }
  }

  /**
   * Every listed duplicate is one of the user's own jobs at the company,
   * created within the 30-day window.
   */
  lemma FindDuplicateJobsFromRecent(db: Db, u: CurrentUser, companyId: Id, jobTitleValue: string,
                                    jobUrl: Option<string>, parse: UrlParser, now: Time, k: nat)
    requires FindDuplicateJobs(db, Some(u), companyId, jobTitleValue, jobUrl, parse, now).0.Ok?
    requires k < |FindDuplicateJobs(db, Some(u), companyId, jobTitleValue, jobUrl, parse, now).0.value|
    ensures exists j :: (j in db.jobs && IsRecentCompanyJob(j, EnsureUser(db, u).0.id, companyId, now)
                         && j.id == FindDuplicateJobs(db, Some(u), companyId, jobTitleValue, jobUrl, parse, now).0.value[k].id)
  {
    var (user, db1) := EnsureUser(db, u);
    var candidates := RecentCompanyJobs(db1, user.id, companyId, now);
    var key := JobKey(Some(companyId), Some(jobTitleValue), OrNull(jobUrl));
    var dups := Duplicates(db1, candidates, key, parse);
    DuplicatesAreMatches(db1, candidates, key, parse);
    assert dups[k] in dups;
    var c :| c in candidates && IsDuplicate(db1, key, parse, c) && dups[k] == Summary(db1, c);
    assert c in db1.jobs;
  }

  /** A candidate at another company is never listed, however similar its URL or title. */
  lemma DuplicatesShareCompany(db: Db, candidates: seq<Job>, companyId: Id, jobTitleValue: string,
                               jobUrl: Option<string>, parse: UrlParser, d: DuplicateSummary)
    requires d in Duplicates(db, candidates, JobKey(Some(companyId), Some(jobTitleValue), OrNull(jobUrl)), parse)
    ensures exists c :: c in candidates && c.companyId == companyId && c.id == d.id
  {
    var key := JobKey(Some(companyId), Some(jobTitleValue), OrNull(jobUrl));
    DuplicatesAreMatches(db, candidates, key, parse);
    var c :| c in candidates && IsDuplicate(db, key, parse, c) && d == Summary(db, c);
    assert StoredJobKey(db, c).companyId == Some(c.companyId);
  }

  // ---------------------------------------------------------------------------
  // createLocation
  // ---------------------------------------------------------------------------

  /**
   * `createLocation(label, zipCode, country)` once the user's row exists:
   * the same key as `createJobLocation`, but a geocoder without an answer
   * does not stop it: the coordinates are stored as `null`.
   */
  function CreateLocationFor(db: Db, user: Id, labelText: string, zip: Option<string>,
                             country: Option<string>, geo: Geo): (r: (Result<Entity>, Db))
    ensures ValueKey(labelText) == "" <==> r.0.Err?
    ensures r.0.Err? ==> r == (Err(BlankLabelError), db)
    ensures r.0.Ok? ==>
      var key := LocationKey(labelText, zip, country);
      && r.0.value.value == key && r.0.value.createdBy == user && r.0.value in r.1.locations
      && (FindByKey(db.locations, key, user).Some? ==> r == (Ok(FindByKey(db.locations, key, user).value), db))
      && (FindByKey(db.locations, key, user).None? ==>
            r.1 == db.(locations := db.locations + [r.0.value],
                       places := db.places[r.0.value.id := PlaceOf(zip, country, geo)], nextId := db.nextId + 1))
  {
    if ValueKey(labelText) == "" then (Err(BlankLabelError), db)
    else
      var found := FindOrAppend(db, user, labelText, LocationKey(labelText, zip, country), PlaceOf(zip, country, geo));
      (Ok(found.0), found.1)
  }

  /** `createLocation(label, zipCode, country)`. */
  function CreateLocation(db: Db, current: Option<CurrentUser>, labelText: string, zip: Option<string>,
                          country: Option<string>, geo: Geo): (r: (Result<Entity>, Db))
    ensures current.None? ==> r == (Err(NotAuthenticated), db)
    ensures current.Some? ==>
      r == CreateLocationFor(EnsureUser(db, current.value).1, EnsureUser(db, current.value).0.id, labelText, zip, country, geo)
  {
    match current
    case None => (Err(NotAuthenticated), db)
    case Some(u) =>
      var (user, db1) := EnsureUser(db, u);
      CreateLocationFor(db1, user.id, labelText, zip, country, geo)
  }

  /** When the geocoder answers with both coordinates, the two location-creating actions agree. */
  lemma CreateLocationAgreesWithCreateFor(db: Db, user: Id, labelText: string, zip: Option<string>,
                                          country: Option<string>, geo: Geo)
    requires geo.lat.Some? && geo.lng.Some?
    ensures CreateLocationFor(db, user, labelText, zip, country, geo) == CreateFor(db, user, labelText, zip, country, geo)
  {
    if ValueKey(labelText) != "" {
      var key := LocationKey(labelText, zip, country);
      var place := PlaceOf(zip, country, geo);
      var found := FindOrAppend(db, user, labelText, key, place);
      CreateWithCoordinates(db, user, labelText, key, place);
      assert CreateFor(db, user, labelText, zip, country, geo) == CreateWithPlace(db, user, labelText, key, place);
      assert CreateLocationFor(db, user, labelText, zip, country, geo) == (Ok(found.0), found.1);
    }
  }

  /** The same agreement for the whole actions, session check included. */
  lemma CreateLocationAgreesWithCreateJobLocation(db: Db, current: Option<CurrentUser>, labelText: string,
                                                  zip: Option<string>, country: Option<string>, geo: Geo)
    requires geo.lat.Some? && geo.lng.Some?
    ensures CreateLocation(db, current, labelText, zip, country, geo) == CreateJobLocation(db, current, labelText, zip, country, geo)
  {
    if current.Some? {
      var (user, db1) := EnsureUser(db, current.value);
      CreateLocationAgreesWithCreateFor(db1, user.id, labelText, zip, country, geo);
    }
  }

  /** Without coordinates a new location is still created, with `null` coordinates, where `createJobLocation` fails. */
  lemma CreateLocationWithoutCoordinates(db: Db, u: CurrentUser, labelText: string, zip: Option<string>, country: Option<string>)
    requires ValueKey(labelText) != ""
    requires FindByKey(EnsureUser(db, u).1.locations, LocationKey(labelText, zip, country), EnsureUser(db, u).0.id).None?
    ensures var r := CreateLocation(db, Some(u), labelText, zip, country, Geo(None, None));
      r.0.Ok? && r.0.value.id in r.1.places && r.1.places[r.0.value.id].lat.None? && r.1.places[r.0.value.id].lng.None?
    ensures CreateJobLocation(db, Some(u), labelText, zip, country, Geo(None, None)).0 == Err(GeocodeError)
  {
    var (user, db1) := EnsureUser(db, u);
    var key := LocationKey(labelText, zip, country);
    var place := PlaceOf(zip, country, Geo(None, None));
    FindOrAppendStoresPlace(db1, user.id, labelText, key, place);
    assert CreateWithPlace(db1, user.id, labelText, key, place).0 == Err(GeocodeError);
  }

  // ---------------------------------------------------------------------------
  // updateJobStatus
  // ---------------------------------------------------------------------------

  /** The fields `updateJobStatus` writes for `status`, applied to `job`. */
  function WithStatus(job: Job, status: Lookup, now: Time): (r: Job)
    ensures r.statusId == status.id
    ensures status.value == "applied" ==> r.applied && r.appliedDate == Some(now)
    ensures status.value == "interview" ==> r.applied && r.appliedDate == job.appliedDate
    ensures status.value != "applied" && status.value != "interview" ==> r.applied == job.applied && r.appliedDate == job.appliedDate
    ensures r.(statusId := job.statusId, applied := job.applied, appliedDate := job.appliedDate) == job
  {
    match status.value
    case "applied" => job.(statusId := status.id, applied := true, appliedDate := Some(now))
    case "interview" => job.(statusId := status.id, applied := true)
    case _ => job.(statusId := status.id)
  }

  /** `updateJobStatus(jobId, status)`: the user's job with that id gets the status fields. */
  function UpdateJobStatus(db: Db, current: Option<CurrentUser>, jobId: Id, status: Lookup, now: Time): (r: (Result<Job>, Db))
    ensures current.None? ==> r == (Err(NotAuthenticated), db)
    ensures r.0.Err? ==> r.1.jobs == db.jobs
    ensures r.0.Ok? ==>
      var user := EnsureUser(db, current.value).0.id;
      exists k :: 0 <= k < |db.jobs| && db.jobs[k].id == jobId && db.jobs[k].userId == user
        && r.0.value == WithStatus(db.jobs[k], status, now) && r.1.jobs == db.jobs[k := r.0.value]
    ensures current.Some? && (forall k :: 0 <= k < |db.jobs| ==> !(db.jobs[k].id == jobId && db.jobs[k].userId == EnsureUser(db, current.value).0.id))
      ==> r.0 == Err(RecordNotFound)
  {
    match current
    case None => (Err(NotAuthenticated), db)
    case Some(u) =>
      var (user, db1) := EnsureUser(db, u);
      match FindIndex(db1.jobs, (j: Job) => j.id == jobId && j.userId == user.id)
      case None => (Err(RecordNotFound), db1)
      case Some(k) =>
        var job := WithStatus(db1.jobs[k], status, now);
        (Ok(job), db1.(jobs := db1.jobs[k := job]))
  }

  /** A move to "interview" after "applied" keeps the date of the application. */
  lemma InterviewKeepsApplicationDate(job: Job, applied: Lookup, interview: Lookup, now1: Time, now2: Time)
    requires applied.value == "applied" && interview.value == "interview"
    ensures var j := WithStatus(WithStatus(job, applied, now1), interview, now2);
      j.applied && j.appliedDate == Some(now1) && j.statusId == interview.id
  {
  }

  // ---------------------------------------------------------------------------
  // updateJob
  // ---------------------------------------------------------------------------

  /** The fields of `AddJobFormSchema` that `updateJob` reads. */
  datatype JobForm = JobForm(
    id: Option<Id>,
    userId: Id,
    title: Id,
    company: Id,
    location: Option<Id>,
    jobType: string,
    status: Id,
    source: Option<Id>,
    salaryRange: Option<string>,
    dueDate: Option<Time>,
    dateApplied: Option<Time>,
    jobDescription: string,
    jobUrl: Option<string>,
    applied: bool)

  const UpdateGuardError := "Id is not provide or no user privilages"

  /**
   * The job after `updateJob` writes the form into it. The optional fields
   * are `undefined` when the form leaves them out (the edit form turns a
   * stored `null` into `undefined`), and Prisma leaves such a column as it
   * is; id, owner and creation time are not in the update.
   */
  function ApplyForm(job: Job, data: JobForm): (r: Job)
    ensures r.id == job.id && r.userId == job.userId && r.createdAt == job.createdAt
    ensures r.jobTitleId == data.title && r.companyId == data.company && r.statusId == data.status
    ensures r.description == data.jobDescription && r.jobType == data.jobType && r.applied == data.applied
    ensures Patched(job.locationId, data.location, r.locationId) && Patched(job.jobSourceId, data.source, r.jobSourceId)
    ensures Patched(job.salaryRange, data.salaryRange, r.salaryRange) && Patched(job.dueDate, data.dueDate, r.dueDate)
    ensures Patched(job.appliedDate, data.dateApplied, r.appliedDate) && Patched(job.jobUrl, data.jobUrl, r.jobUrl)
  {
    job.(jobTitleId := data.title, companyId := data.company, locationId := data.location.Or(job.locationId),
         statusId := data.status, jobSourceId := data.source.Or(job.jobSourceId),
         salaryRange := data.salaryRange.Or(job.salaryRange), dueDate := data.dueDate.Or(job.dueDate),
         appliedDate := data.dateApplied.Or(job.appliedDate), description := data.jobDescription,
         jobType := data.jobType, jobUrl := data.jobUrl.Or(job.jobUrl), applied := data.applied)
  }

  /** Saving the same form twice stores what saving it once does. */
  lemma ApplyFormIdempotent(job: Job, data: JobForm)
    ensures ApplyForm(ApplyForm(job, data), data) == ApplyForm(job, data)
  {
  }

  /**
   * Un-ticking "applied" sends no `dateApplied`: the job is no longer
   * marked applied, but the stored application date stays.
   */
  lemma UntickAppliedKeepsDate(job: Job, data: JobForm)
    requires !data.applied && data.dateApplied.None?
    ensures !ApplyForm(job, data).applied && ApplyForm(job, data).appliedDate == job.appliedDate
  {
  }

  /** `!data.id || dbUser.id != data.userId`. */
  predicate FormRefused(data: JobForm, user: Id) {
    !Truthy(data.id) || data.userId != user
  }

  /**
   * `updateJob(data)` as written: after the guard, the job is looked up by
   * `data.id` alone, so the guard compares the session user with the
   * `userId` the form carries, not with the job's owner.
   */
  function UpdateJob(db: Db, current: Option<CurrentUser>, data: JobForm): (r: (Result<Job>, Db))
    ensures current.None? ==> r == (Err(NotAuthenticated), db)
    ensures current.Some? && FormRefused(data, EnsureUser(db, current.value).0.id) ==> r.0 == Err(UpdateGuardError)
    ensures r.0.Err? ==> r.1.jobs == db.jobs
    ensures r.0.Ok? ==>
      && current.Some? && !FormRefused(data, EnsureUser(db, current.value).0.id)
      && exists k :: 0 <= k < |db.jobs| && db.jobs[k].id == data.id.value
           && r.0.value == ApplyForm(db.jobs[k], data) && r.1.jobs == db.jobs[k := r.0.value]
  {
    match current
    case None => (Err(NotAuthenticated), db)
    case Some(u) =>
      var (user, db1) := EnsureUser(db, u);
      if FormRefused(data, user.id) then (Err(UpdateGuardError), db1)
      else match FindIndex(db1.jobs, (j: Job) => j.id == data.id.value)
        case None => (Err(RecordNotFound), db1)
        case Some(k) =>
          var job := ApplyForm(db1.jobs[k], data);
          (Ok(job), db1.(jobs := db1.jobs[k := job]))
  }

  /**
   * The guard lets a user overwrite another user's job: the form names the
   * acting user in `userId` and the other user's job in `id`.
   */
  lemma UpdateJobOverwritesOthersJob(db: Db, u: CurrentUser, data: JobForm, k: nat)
    requires k < |db.jobs| && Truthy(data.id) && db.jobs[k].id == data.id.value
    requires forall j :: 0 <= j < k ==> db.jobs[j].id != data.id.value
    requires data.userId == EnsureUser(db, u).0.id && db.jobs[k].userId != data.userId
    ensures var r := UpdateJob(db, Some(u), data);
      r.0.Ok? && r.0.value.userId != EnsureUser(db, u).0.id && r.1.jobs[k] == ApplyForm(db.jobs[k], data)
  {
    FindIndexAt(EnsureUser(db, u).1.jobs, (j: Job) => j.id == data.id.value, k);
  }

  /**
   * `updateJob` with the ownership check the guard's message promises: the
   * job is looked up by `data.id` and the acting user, as `updateJobStatus`
   * and the delete actions do.
   */
  function UpdateOwnedJob(db: Db, current: Option<CurrentUser>, data: JobForm): (r: (Result<Job>, Db))
    ensures current.None? ==> r == (Err(NotAuthenticated), db)
    ensures current.Some? && FormRefused(data, EnsureUser(db, current.value).0.id) ==> r.0 == Err(UpdateGuardError)
    ensures r.0.Err? ==> r.1.jobs == db.jobs
    ensures r.0.Ok? ==>
      && current.Some?
      && exists k :: 0 <= k < |db.jobs| && db.jobs[k].id == data.id.value && db.jobs[k].userId == EnsureUser(db, current.value).0.id
           && r.0.value == ApplyForm(db.jobs[k], data) && r.1.jobs == db.jobs[k := r.0.value]
  {
    match current
    case None => (Err(NotAuthenticated), db)
    case Some(u) =>
      var (user, db1) := EnsureUser(db, u);
      if FormRefused(data, user.id) then (Err(UpdateGuardError), db1)
      else match FindIndex(db1.jobs, (j: Job) => j.id == data.id.value && j.userId == user.id)
        case None => (Err(RecordNotFound), db1)
        case Some(k) =>
          var job := ApplyForm(db1.jobs[k], data);
          (Ok(job), db1.(jobs := db1.jobs[k := job]))
  }

  /** With the ownership check, no other user's job is ever changed. */
  lemma UpdateOwnedJobKeepsOthersJobs(db: Db, current: Option<CurrentUser>, data: JobForm, k: nat)
    requires current.Some? && k < |db.jobs| && db.jobs[k].userId != EnsureUser(db, current.value).0.id
    ensures var r := UpdateOwnedJob(db, current, data);
      k < |r.1.jobs| && r.1.jobs[k] == db.jobs[k]
  {
  }
}
