/**
 * `src/actions/capture.actions.ts`: saving a job the user captured from a
 * web page.
 *
 * Before anything is written the action looks for a duplicate among the
 * user's jobs: first a job with exactly the same URL, then (only when the
 * page named both a company and a title) a job whose company and title
 * labels match after `normalizeText`. The company, title and location rows
 * are found or created by a lower-cased, dash-joined key.
 */
module CaptureActions {
  import opened Wrappers
  import opened Text
  import opened Seqs
  import opened Json
  import opened Scraper
  import opened Dedup
  import opened Store
  import opened UserEnsure

  // ---------------------------------------------------------------------------
  // normalizeText
  // ---------------------------------------------------------------------------

  /** `normalizeText(text)`: lower case, trimmed, white-space runs collapsed; "" for a missing text. */
  function NormalizeText(t: Option<string>): (r: string)
    ensures !Truthy(t) ==> r == ""
  {
    if !Truthy(t) then "" else CollapseSpaces(Trim(ToLower(t.value)))
  }

  /** Every normalised text is lower case, trimmed and collapsed. */
  lemma NormalizeTextShape(t: Option<string>)
    ensures var r := NormalizeText(t); IsLower(r) && IsTrimmed(r) && Collapsed(r)
  {
    if Truthy(t) {
      var l := ToLower(t.value);
      ToLowerIsLower(t.value);
      TrimPreservesLower(l);
      CollapsePreservesLower(Trim(l));
      CollapsePreservesTrimmed(Trim(l));
      CollapseSpacesCollapsed(Trim(l));
    }
  }

  /** A normalised text is its own normal form. */
  lemma NormalizeTextIdempotent(t: Option<string>)
    ensures NormalizeText(Some(NormalizeText(t))) == NormalizeText(t)
  {
    var r := NormalizeText(t);
    NormalizeTextShape(t);
    if r != "" {
      ToLowerFixesLower(r);
      TrimFixesTrimmed(r);
      CollapseFixesCollapsed(r);
    }
  }

  /** Texts that differ only in letter case normalise alike. */
  lemma NormalizeTextIgnoresCase(t: string)
    ensures NormalizeText(Some(ToLower(t))) == NormalizeText(Some(t))
  {
    ToLowerIsLower(t);
    ToLowerFixesLower(ToLower(t));
  }

  /**
   * The capture check's normal form and the title normal form of the
   * duplicate engine agree on every title that ends in no parenthetical.
   */
  lemma NormalizeTextMatchesJobTitle(t: string)
    requires NoParenSuffix(NormalizeText(Some(t)))
    ensures NormalizeJobTitle(Some(t)) == NormalizeText(Some(t))
  {
    var n := NormalizeText(Some(t));
    NormalizeTextShape(Some(t));
    TrimFixesTrimmed(n);
  }

  // ---------------------------------------------------------------------------
  // findDuplicateJob
  // ---------------------------------------------------------------------------

  /** The label of the row with id `id`; a dangling reference reads as no label. */
  function LabelById(rows: seq<Entity>, id: Id): (r: Option<string>)
    ensures r.Some? <==> exists i :: 0 <= i < |rows| && rows[i].id == id
  {
    match Find(rows, (e: Entity) => e.id == id)
    case Some(e) => Some(e.labelText)
    case None => None
  }

  /** A job of `user` saved with exactly the URL `url`. */
  predicate UrlHit(job: Job, user: Id, url: string) {
    job.userId == user && job.jobUrl == Some(url)
  }

  /** A job of `user` whose company and title labels normalise to `company` and `title`. */
  predicate LabelsHit(db: Db, job: Job, user: Id, company: string, title: string) {
    && job.userId == user
    && NormalizeText(LabelById(db.companies, job.companyId)) == company
    && NormalizeText(LabelById(db.titles, job.jobTitleId)) == title
  }

  /** The first job of `user` saved with exactly the URL `url` (`findFirst` on `userId` and `jobUrl`). */
  function UrlMatch(jobs: seq<Job>, user: Id, url: string): (r: Option<Job>)
    ensures r.Some? ==> r.value in jobs && UrlHit(r.value, user, url)
    ensures r.None? <==> forall i :: 0 <= i < |jobs| ==> !UrlHit(jobs[i], user, url)
  {
    Find(jobs, (j: Job) => UrlHit(j, user, url))
  }

  /** The first job of `user` whose labels normalise to `company` and `title` (the loop over `userJobs`). */
  function LabelMatch(db: Db, user: Id, company: string, title: string): (r: Option<Job>)
    ensures r.Some? ==> r.value in db.jobs && LabelsHit(db, r.value, user, company, title)
    ensures r.None? <==> forall i :: 0 <= i < |db.jobs| ==> !LabelsHit(db, db.jobs[i], user, company, title)
  {
    Find(db.jobs, (j: Job) => LabelsHit(db, j, user, company, title))
  }

  /** The label comparison runs only when the page named both a company and a title. */
  predicate BothNamed(company: Option<string>, title: Option<string>) {
    Truthy(company) && Truthy(title)
  }

  /** `findDuplicateJob(userId, url, company, title)`: the id of the duplicate, if there is one. */
  function FindDuplicateJob(db: Db, user: Id, url: string, company: Option<string>, title: Option<string>): (r: Option<Id>)
    ensures url != "" && UrlMatch(db.jobs, user, url).Some? ==> r == Some(UrlMatch(db.jobs, user, url).value.id)
    ensures r.Some? ==>
      exists j :: j in db.jobs && j.id == r.value &&
        ((url != "" && UrlHit(j, user, url)) ||
         (BothNamed(company, title) && LabelsHit(db, j, user, NormalizeText(company), NormalizeText(title))))
    ensures r.None? <==>
      (url == "" || UrlMatch(db.jobs, user, url).None?) &&
      (!BothNamed(company, title) || LabelMatch(db, user, NormalizeText(company), NormalizeText(title)).None?)
  {
    var byUrl := UrlMatch(db.jobs, user, url);
    if url != "" && byUrl.Some? then Some(byUrl.value.id)
    else if BothNamed(company, title) then
      match LabelMatch(db, user, NormalizeText(company), NormalizeText(title))
      case Some(j) => Some(j.id)
      case None => None
    else None
  }

  /** Without both a company and a title from the page, only an exact URL counts as a duplicate. */
  lemma UrlOnlyWithoutBothNames(db: Db, user: Id, url: string, company: Option<string>, title: Option<string>)
    requires !BothNamed(company, title)
    ensures FindDuplicateJob(db, user, url, company, title).Some? <==>
      url != "" && exists i :: 0 <= i < |db.jobs| && UrlHit(db.jobs[i], user, url)
  {
  }

  // ---------------------------------------------------------------------------
  // findOrCreateCompany / JobTitle / Location
  // ---------------------------------------------------------------------------

  /** `name.toLowerCase().replace(/\s+/g, '-')`; the name is not trimmed first. */
  function NameKey(name: string): (r: string)
    ensures NoSpace(r)
    ensures |r| <= |name|
  {
    ReplaceSpaceRunsNoSpace(ToLower(name), '-');
    ReplaceSpaceRunsShorter(ToLower(name), '-');
    ReplaceSpaceRuns(ToLower(name), '-')
  }

  lemma {:induction false} ReplaceSpaceRunsShorter(s: string, rep: char)
    ensures |ReplaceSpaceRuns(s, rep)| <= |s|
    decreases |s|
  {
    if |s| == 0 {
    } else if IsSpace(s[0]) {
      ReplaceSpaceRunsShorter(TrimStart(s[1..]), rep);
    } else {
      ReplaceSpaceRunsShorter(s[1..], rep);
    }
  }

  /** Leading white space is not trimmed away: it becomes a leading '-'. */
  lemma NameKeyKeepsLeadingSpace(name: string)
    requires |name| > 0 && IsSpace(name[0])
    ensures |NameKey(name)| > 0 && NameKey(name)[0] == '-'
  {
    ReplaceSpaceRunsHead(ToLower(name), '-');
  }

  /** The row the lookup accepts: the user's, with the same label or the same key. */
  predicate NamedBy(e: Entity, user: Id, name: string) {
    e.createdBy == user && (e.labelText == name || e.value == NameKey(name))
  }

  /** `findOrCreateCompany/JobTitle/Location(userId, name)`: the row, and the table after. */
  function FindOrCreateNamed(rows: seq<Entity>, user: Id, name: string, newId: Id): (r: (Entity, seq<Entity>))
    ensures NamedBy(r.0, user, name)
    ensures (exists i :: 0 <= i < |rows| && NamedBy(rows[i], user, name)) ==> r.1 == rows && r.0 in rows
    ensures (forall i :: 0 <= i < |rows| ==> !NamedBy(rows[i], user, name)) ==>
      r.0 == Entity(newId, name, NameKey(name), user) && r.1 == rows + [r.0]
  {
    match Find(rows, (e: Entity) => NamedBy(e, user, name))
    case Some(e) => (e, rows)
    case None => var e := Entity(newId, name, NameKey(name), user); (e, rows + [e])
  }

  /** A second lookup of the same name finds the row the first returned and creates nothing. */
  lemma FindOrCreateNamedTwice(rows: seq<Entity>, user: Id, name: string, newId: Id, newId2: Id)
    ensures var (e, rows') := FindOrCreateNamed(rows, user, name, newId);
      FindOrCreateNamed(rows', user, name, newId2) == (e, rows')
  {
    if forall i :: 0 <= i < |rows| ==> !NamedBy(rows[i], user, name) {
      var e := Entity(newId, name, NameKey(name), user);
      FindAfterMisses(rows, e, (x: Entity) => NamedBy(x, user, name));
    }
  }

  // ---------------------------------------------------------------------------
  // captureJob
  // ---------------------------------------------------------------------------

  /** `CaptureJobInput`. */
  datatype CaptureInput = CaptureInput(url: string, scrapedData: Option<ScrapedJob>)

  /** `CaptureJobResult`. */
  datatype CaptureResult = CaptureResult(
    success: bool,
    message: string,
    jobId: Option<Id>,
    isDuplicate: bool,
    existingJobId: Option<Id>)

  function Failure(message: string): (r: CaptureResult)
    ensures !r.success && !r.isDuplicate && r.message == message
  {
    CaptureResult(false, message, None, false, None)
  }

  const BrowserSourceValue := "browser-extension"
  const BrowserSourceLabel := "Browser Extension"

  /** `o || fallback` for an optional string. */
  function OrElse(o: Option<string>, fallback: string): (r: string)
    ensures Truthy(o) ==> r == o.value
    ensures !Truthy(o) ==> r == fallback
  {
    if Truthy(o) then o.value else fallback
  }

  /**
   * `input.scrapedData || await scrapeJobFromUrl(input.url)`, where `fetched`
   * is what `scrapeJobFromUrl` returns for the URL (`Scraper.ScrapeJobFromUrl`).
   */
  function ScrapedData(input: CaptureInput, fetched: ScrapedJob): (r: ScrapedJob)
    ensures input.scrapedData.Some? ==> r == input.scrapedData.value
    ensures input.scrapedData.None? ==> r == fetched
  {
    input.scrapedData.GetOr(fetched)
  }

  /** The user's row in `rows` that the job points to through `id`. */
  predicate Links(rows: seq<Entity>, id: Id, user: Id, name: string) {
    exists e :: e in rows && e.id == id && NamedBy(e, user, name)
  }

  /**
   * The writes of a successful capture: the "browser-extension" source, the
   * company, title and location rows, and the job with its defaults.
   */
  function SaveCapturedJob(db: Db, user: Id, url: string, fields: Fields, status: Lookup, now: Time): (r: (Job, Db))
    ensures r.1.jobs == db.jobs + [r.0]
    ensures r.1.users == db.users && r.1.statuses == db.statuses
    ensures r.0.id != "" && r.0.userId == user && r.0.jobUrl == Some(url)
    ensures r.0.jobType == DefaultJobType && r.0.statusId == status.id && !r.0.applied
    ensures r.0.dueDate == Some(now + 7 * DayMs) && r.0.createdAt == now
    ensures r.0.description == OrElse(fields.description, "Job captured from: " + url)
    ensures Links(r.1.companies, r.0.companyId, user, OrElse(fields.company, "Unknown Company"))
    ensures Links(r.1.titles, r.0.jobTitleId, user, OrElse(fields.title, "Unknown Position"))
    ensures r.0.locationId.Some? && Links(r.1.locations, r.0.locationId.value, user, OrElse(fields.location, "Remote"))
    ensures r.0.jobSourceId.Some? &&
      exists s :: s in r.1.sources && s.id == r.0.jobSourceId.value && s.value == BrowserSourceValue
  {
    var (source, sources) := EnsureLookup(db.sources, BrowserSourceLabel, BrowserSourceValue, FreshId(db));
    var db1 := db.(sources := sources, nextId := db.nextId + 1);
    var (company, companies) := FindOrCreateNamed(db1.companies, user, OrElse(fields.company, "Unknown Company"), FreshId(db1));
    var db2 := db1.(companies := companies, nextId := db1.nextId + 1);
    var (title, titles) := FindOrCreateNamed(db2.titles, user, OrElse(fields.title, "Unknown Position"), FreshId(db2));
    var db3 := db2.(titles := titles, nextId := db2.nextId + 1);
    var (location, locations) := FindOrCreateNamed(db3.locations, user, OrElse(fields.location, "Remote"), FreshId(db3));
    var db4 := db3.(locations := locations, nextId := db3.nextId + 1);
    var job := Job(
      FreshId(db4), user, Some(url), company.id, title.id, Some(location.id), status.id, Some(source.id),
      DefaultJobType, OrElse(fields.description, "Job captured from: " + url), None,
      false, None, Some(now + 7 * DayMs), now);
    assert source in sources;
    (job, db4.(jobs := db4.jobs + [job], nextId := db4.nextId + 1))
  }

  /**
   * The steps of `captureJob` after the user row is settled: the duplicate
   * check on the scraped company and title (before the fallbacks), the
   * draft status, then the writes.
   */
  function CaptureFor(db: Db, user: Id, url: string, fields: Fields, now: Time): (r: (CaptureResult, Db))
    ensures !r.0.success ==> r.1 == db
    ensures r.0.isDuplicate <==> Truthy(FindDuplicateJob(db, user, url, fields.company, fields.title))
    ensures r.0.isDuplicate ==> !r.0.success && r.0.existingJobId == FindDuplicateJob(db, user, url, fields.company, fields.title)
    ensures !r.0.isDuplicate && FindLookup(db.statuses, DraftStatus).None? ==> !r.0.success
    ensures r.0.success <==> !r.0.isDuplicate && FindLookup(db.statuses, DraftStatus).Some?
    ensures r.0.success ==>
      && r.0.jobId.Some? && r.0.jobId.value != ""
      && |r.1.jobs| == |db.jobs| + 1 && r.1.jobs[..|db.jobs|] == db.jobs
      && var job := r.1.jobs[|db.jobs|];
         job.id == r.0.jobId.value && job.userId == user && job.jobUrl == Some(url)
    ensures r.1.users == db.users
  {
    var dup := FindDuplicateJob(db, user, url, fields.company, fields.title);
    if Truthy(dup) then
      (CaptureResult(false, "Job already exists in your list", None, true, dup), db)
    else
      match FindLookup(db.statuses, DraftStatus)
      case None => (Failure("Default status not found. Please seed the database."), db)
      case Some(status) =>
        var (job, db2) := SaveCapturedJob(db, user, url, fields, status, now);
        assert db2.jobs[..|db.jobs|] == db.jobs;
        (CaptureResult(true, "Job captured successfully", Some(job.id), false, None), db2)
  }

  /** `captureJob(input)`: the result and the store after. */
  function CaptureJob(db: Db, current: Option<CurrentUser>, input: CaptureInput, fetched: ScrapedJob, now: Time): (r: (CaptureResult, Db))
    ensures current.None? ==> r == (Failure("Not authenticated"), db)
    ensures !r.0.success ==> r.1.jobs == db.jobs
    ensures current.Some? ==>
      var (user, db1) := EnsureUser(db, current.value);
      r == CaptureFor(db1, user.id, input.url, ScrapedData(input, fetched).fields, now)
  {
    match current
    case None => (Failure("Not authenticated"), db)
    case Some(u) =>
      var (user, db1) := EnsureUser(db, u);
      CaptureFor(db1, user.id, input.url, ScrapedData(input, fetched).fields, now)
  }

  /** Scraped data handed in is used as it is: the page is not fetched. */
  lemma ProvidedScrapedDataUsed(db: Db, current: Option<CurrentUser>, input: CaptureInput, f1: ScrapedJob, f2: ScrapedJob, now: Time)
    requires input.scrapedData.Some?
    ensures CaptureJob(db, current, input, f1, now) == CaptureJob(db, current, input, f2, now)
  {
  }

  /** Which user row `ensureUserExists` settles on depends on the user table alone. */
  lemma EnsureUserReadsUsers(d1: Db, d2: Db, u: CurrentUser)
    requires d1.users == d2.users
    ensures EnsureUser(d1, u).0 == EnsureUser(d2, u).0
  {
  }

  /** Every job in `jobs` carries an id (ids are never empty strings). */
  predicate JobIdsSet(jobs: seq<Job>) {
    forall i :: 0 <= i < |jobs| ==> jobs[i].id != ""
  }

  /** Appending a job with an id keeps every id set. */
  lemma JobIdsSetAppend(jobs: seq<Job>, jobs': seq<Job>)
    requires JobIdsSet(jobs) && |jobs'| == |jobs| + 1 && jobs'[..|jobs|] == jobs && jobs'[|jobs|].id != ""
    ensures JobIdsSet(jobs')
  {
    forall i | 0 <= i < |jobs|
      ensures jobs'[i].id != ""
    {
      assert jobs'[i] == jobs'[..|jobs|][i];
    }
  }

  /** When some job of the user has the URL, the URL lookup finds one, and its id is set. */
  lemma UrlMatchFound(jobs: seq<Job>, user: Id, url: string, k: nat)
    requires JobIdsSet(jobs) && k < |jobs| && UrlHit(jobs[k], user, url)
    ensures UrlMatch(jobs, user, url).Some? && UrlMatch(jobs, user, url).value.id != ""
  {
  }

  /**
   * Capturing the same URL again, after a capture that succeeded, is
   * reported as a duplicate, whatever the page says the second time.
   */
  lemma RecaptureIsDuplicate(db: Db, u: CurrentUser, input: CaptureInput, fetched: ScrapedJob,
                             input2: CaptureInput, fetched2: ScrapedJob, now: Time, now2: Time)
    requires JobIdsSet(db.jobs)
    requires input.url != "" && input2.url == input.url
    requires CaptureJob(db, Some(u), input, fetched, now).0.success
    ensures var db' := CaptureJob(db, Some(u), input, fetched, now).1;
      CaptureJob(db', Some(u), input2, fetched2, now2).0.isDuplicate
  {
    var (user, db1) := EnsureUser(db, u);
    var db' := CaptureJob(db, Some(u), input, fetched, now).1;
    assert db' == CaptureFor(db1, user.id, input.url, ScrapedData(input, fetched).fields, now).1;
    EnsureUserIdempotent(db, u);
    EnsureUserReadsUsers(db', db1, u);
    var (user2, db2) := EnsureUser(db', u);
    assert user2 == user && db2.jobs == db'.jobs;
    JobIdsSetAppend(db.jobs, db2.jobs);
    UrlMatchFound(db2.jobs, user.id, input.url, |db.jobs|);
  }

  // ---------------------------------------------------------------------------
  // previewCapturedJob
  // ---------------------------------------------------------------------------

  /** `previewCapturedJob(url)`: the scraped record, or the "Not authenticated" error. */
  function PreviewCapturedJob(signedIn: bool, url: string, fetched: FetchOutcome, rx: HtmlPatterns, parse: JsonParser): (r: Result<ScrapedJob>)
    ensures !signedIn <==> r.Err?
    ensures r.Err? ==> r.message == "Not authenticated"
    ensures r.Ok? ==> r.value.url == url && (!(fetched.Response? && fetched.ok) ==> r.value.fields == NoFields)
  {
    if !signedIn then Err("Not authenticated") else Ok(ScrapeJobFromUrl(url, fetched, rx, parse))
  }
}
