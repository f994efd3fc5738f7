/**
 * `src/app/api/jobs/email-ingest/route.ts`: `POST /api/jobs/email-ingest`,
 * which turns the text of a job e-mail into a saved job.
 *
 * The request passes authentication, the body schema and the parser's
 * title check; then the company, title, location and source rows are found
 * or created, the draft status is looked up, and the user's recent jobs at
 * the same company are scanned with `arePotentialDuplicates`. The first
 * candidate that matches is reported (200) and nothing is created;
 * otherwise one job is created (201).
 */
module EmailIngest {
  import opened Wrappers
  import opened Text
  import opened Seqs
  import opened Json
  import opened Url
  import opened Dedup
  import opened EmailParser
  import opened Store
  import opened UserEnsure
  import opened JobActions

  /** The body as `EmailIngestSchema` accepts it. */
  datatype IngestRequest = IngestRequest(emailBody: string, emailSubject: Option<string>, fromAddress: Option<string>)

  /** The responses of the route. */
  datatype IngestResponse =
    | AuthRequired                                   // "Authentication required"
    | InvalidData                                    // a `ZodError`: "Invalid email data"
    | NoTitle(parsed: ParsedEmail)                   // "Unable to extract job information"
    | Failed(error: string)                          // any other failure
    | Duplicate(existingJobId: Id, parsed: ParsedEmail)
    | Ingested(jobId: Id, parsed: ParsedEmail)
  {
    /** The HTTP status of the response. */
    function Status(): (s: int)
      ensures s == 201 <==> this.Ingested?
      ensures s == 200 <==> this.Duplicate?
      ensures s == 400 <==> this.InvalidData? || this.NoTitle?
      ensures s == 401 <==> this.AuthRequired?
      ensures s == 500 <==> this.Failed?
    {
      match this
      case AuthRequired => 401
      case InvalidData => 400
      case NoTitle(_) => 400
      case Failed(_) => 500
      case Duplicate(_, _) => 200
      case Ingested(_, _) => 201
    }
  }

  const EmailSourceValue := "email"
  const EmailSourceLabel := "Email Alert"
  const DraftMissingError := "Default status not found. Please run database seed."
  const IngestFailedError := "Failed to ingest job from email"

  // ---------------------------------------------------------------------------
  // The body schema
  // ---------------------------------------------------------------------------

  /**
   * `EmailIngestSchema.parse(body)`: `emailBody` a string of at least one
   * character, `emailSubject` an optional string, `fromAddress` an optional
   * e-mail address (`isEmail` stands for zod's address check). Other
   * members are dropped.
   */
  function ValidateRequest(body: Json, isEmail: string -> bool): (r: Option<IngestRequest>)
    ensures r.Some? <==>
      && body.JObj? && "emailBody" in body.fields
      && body.fields["emailBody"].JStr? && |body.fields["emailBody"].s| >= 1
      && OptionalMember(body.fields, "emailSubject", AnyString).Some?
      && OptionalMember(body.fields, "fromAddress", isEmail).Some?
    ensures r.Some? ==>
      && r.value.emailBody == body.fields["emailBody"].s
      && r.value.emailSubject == OptionalMember(body.fields, "emailSubject", AnyString).value
      && r.value.fromAddress == OptionalMember(body.fields, "fromAddress", isEmail).value
    ensures r.Some? && r.value.fromAddress.Some? ==> isEmail(r.value.fromAddress.value)
  {
    if !body.JObj? then None
    else
      var f := body.fields;
      if !("emailBody" in f && f["emailBody"].JStr? && |f["emailBody"].s| >= 1) then None
      else match (OptionalMember(f, "emailSubject", AnyString), OptionalMember(f, "fromAddress", isEmail))
        case (Some(subject), Some(from)) => Some(IngestRequest(f["emailBody"].s, subject, from))
        case _ => None
  }

  // ---------------------------------------------------------------------------
  // Entity resolution
  // ---------------------------------------------------------------------------

  /** The rows the new job will point to. */
  datatype Resolved = Resolved(company: Entity, title: Entity, location: Option<Entity>, source: Lookup)

  /** The company name: the parsed one, or "Unknown Company". */
  function CompanyName(parsed: ParsedEmail): (r: string)
    ensures Truthy(parsed.company) ==> r == parsed.company.value
    ensures !Truthy(parsed.company) ==> r == "Unknown Company"
  {
    if Truthy(parsed.company) then parsed.company.value else "Unknown Company"
  }

  /** Find or create the user's company row with the key of `name`. */
  function EnsureCompany(db: Db, user: Id, name: string): (r: (Entity, Db))
    ensures r.0.value == ValueKey(name) && r.0.createdBy == user && r.0 in r.1.companies
    ensures forall e :: e in db.companies ==> e in r.1.companies
    ensures r.1 == db.(companies := r.1.companies, nextId := db.nextId + 1)
  {
    var (e, rows) := EnsureKeyed(db.companies, name, ValueKey(name), user, FreshId(db));
    (e, db.(companies := rows, nextId := db.nextId + 1))
  }

  /** Find or create the user's job title row with the key of `name`. */
  function EnsureTitle(db: Db, user: Id, name: string): (r: (Entity, Db))
    ensures r.0.value == ValueKey(name) && r.0.createdBy == user && r.0 in r.1.titles
    ensures r.1 == db.(titles := r.1.titles, nextId := db.nextId + 1)
  {
    var (e, rows) := EnsureKeyed(db.titles, name, ValueKey(name), user, FreshId(db));
    (e, db.(titles := rows, nextId := db.nextId + 1))
  }

  /** Find or create the user's location row with the key of `name`, only when a location was parsed. */
  function EnsureLocation(db: Db, user: Id, name: Option<string>): (r: (Option<Entity>, Db))
    ensures r.0.Some? <==> Truthy(name)
    ensures r.0.Some? ==> r.0.value.value == ValueKey(name.value) && r.0.value.createdBy == user && r.0.value in r.1.locations
    ensures r.0.None? ==> r.1 == db
    ensures r.1 == db.(locations := r.1.locations, nextId := r.1.nextId)
  {
    if Truthy(name) then
      var (e, rows) := EnsureKeyed(db.locations, name.value, ValueKey(name.value), user, FreshId(db));
      (Some(e), db.(locations := rows, nextId := db.nextId + 1))
    else (None, db)
  }

  /** Find or create the shared "email" job source. */
  function EnsureEmailSource(db: Db): (r: (Lookup, Db))
    ensures r.0.value == EmailSourceValue && r.0 in r.1.sources
    ensures r.1 == db.(sources := r.1.sources, nextId := db.nextId + 1)
  {
    var (l, rows) := EnsureLookup(db.sources, EmailSourceLabel, EmailSourceValue, FreshId(db));
    (l, db.(sources := rows, nextId := db.nextId + 1))
  }

  /** Find or create the company, the job title, the location and the source, in that order. */
  function ResolveEntities(db: Db, user: Id, parsed: ParsedEmail): (r: (Resolved, Db))
    requires Truthy(parsed.jobTitle)
    ensures r.0.company.value == ValueKey(CompanyName(parsed)) && r.0.company.createdBy == user && r.0.company in r.1.companies
    ensures r.0.title.value == ValueKey(parsed.jobTitle.value) && r.0.title.createdBy == user && r.0.title in r.1.titles
    ensures r.0.location.Some? <==> Truthy(parsed.location)
    ensures r.0.location.Some? ==>
      r.0.location.value.value == ValueKey(parsed.location.value) && r.0.location.value.createdBy == user && r.0.location.value in r.1.locations
    ensures r.0.source.value == EmailSourceValue && r.0.source in r.1.sources
    ensures forall e :: e in db.companies ==> e in r.1.companies
    ensures r.1.jobs == db.jobs && r.1.users == db.users && r.1.statuses == db.statuses
  {
    var (company, db1) := EnsureCompany(db, user, CompanyName(parsed));
    var (title, db2) := EnsureTitle(db1, user, parsed.jobTitle.value);
    var (location, db3) := EnsureLocation(db2, user, parsed.location);
    var (source, db4) := EnsureEmailSource(db3);
    (Resolved(company, title, location, source), db4)
  }

  // ---------------------------------------------------------------------------
  // The duplicate scan
  // ---------------------------------------------------------------------------

  /** The parsed job as `arePotentialDuplicates` sees it. */
  function NewJobKey(rs: Resolved, parsed: ParsedEmail): (k: JobKey)
    ensures k.companyId == Some(rs.company.id)
  {
    JobKey(Some(rs.company.id), Some(rs.title.value), OrNull(parsed.jobUrl))
  }

  /** Candidate `i` is the first one the parsed job is a potential duplicate of. */
  predicate FirstDuplicateAt(db: Db, candidates: seq<Job>, key: JobKey, parse: UrlParser, i: nat) {
    && i < |candidates|
    && ArePotentialDuplicates(key, StoredJobKey(db, candidates[i]), parse)
    && forall j :: 0 <= j < i ==> !ArePotentialDuplicates(key, StoredJobKey(db, candidates[j]), parse)
  }

  /** The first candidate the parsed job is a potential duplicate of. */
  function FirstDuplicate(db: Db, candidates: seq<Job>, key: JobKey, parse: UrlParser): (r: Option<Job>)
    ensures r.Some? ==> exists i: nat :: FirstDuplicateAt(db, candidates, key, parse, i) && r.value == candidates[i]
    ensures r.None? <==> forall j :: 0 <= j < |candidates| ==> !ArePotentialDuplicates(key, StoredJobKey(db, candidates[j]), parse)
  {
    match FindIndex(candidates, (c: Job) => ArePotentialDuplicates(key, StoredJobKey(db, c), parse))
    case None => None
    case Some(i) =>
      assert FirstDuplicateAt(db, candidates, key, parse, i);
      Some(candidates[i])
  }

  /** The job the route creates when no candidate matched. */
  function NewJob(id: Id, user: Id, rs: Resolved, status: Lookup, parsed: ParsedEmail, now: Time): (j: Job)
    ensures j.id == id && j.userId == user && j.createdAt == now
    ensures j.companyId == rs.company.id && j.jobTitleId == rs.title.id
    ensures j.locationId.Some? <==> rs.location.Some?
    ensures j.statusId == status.id && j.jobSourceId == Some(rs.source.id)
    ensures j.jobType == DefaultJobType && !j.applied && j.appliedDate.None? && j.dueDate.None?
    ensures j.jobUrl == OrNull(parsed.jobUrl) && j.salaryRange == OrNull(parsed.salaryRange)
    ensures Truthy(parsed.description) ==> j.description == parsed.description.value
    ensures !Truthy(parsed.description) ==> j.description == ""
  {
    Job(id, user, OrNull(parsed.jobUrl), rs.company.id, rs.title.id, if rs.location.Some? then Some(rs.location.value.id) else None,
        status.id, Some(rs.source.id), DefaultJobType, if Truthy(parsed.description) then parsed.description.value else "",
        OrNull(parsed.salaryRange), false, None, None, now)
  }

  // ---------------------------------------------------------------------------
  // The route
  // ---------------------------------------------------------------------------

  /** The route after the rows are resolved: the draft status, the duplicate scan, the create. */
  function IngestResolved(db: Db, user: Id, rs: Resolved, parsed: ParsedEmail, parse: UrlParser, now: Time): (r: (IngestResponse, Db))
    ensures r.0.Ingested? || r.0.Duplicate? || r.0 == Failed(DraftMissingError)
    ensures r.0 == Failed(DraftMissingError) <==> FindLookup(db.statuses, DraftStatus).None?
    ensures !r.0.Ingested? ==> r.1 == db
    ensures r.0.Duplicate? || r.0.Ingested? ==> r.0.parsed == parsed
    ensures r.0.Duplicate? ==>
      var found := FirstDuplicate(db, RecentCompanyJobs(db, user, rs.company.id, now), NewJobKey(rs, parsed), parse);
      found.Some? && found.value.id == r.0.existingJobId
    ensures r.0.Ingested? ==>
      && FirstDuplicate(db, RecentCompanyJobs(db, user, rs.company.id, now), NewJobKey(rs, parsed), parse).None?
      && FindLookup(db.statuses, DraftStatus).Some?
      && r.1 == db.(jobs := db.jobs + [NewJob(r.0.jobId, user, rs, FindLookup(db.statuses, DraftStatus).value, parsed, now)],
                    nextId := db.nextId + 1)
  {
    match FindLookup(db.statuses, DraftStatus)
    case None => (Failed(DraftMissingError), db)
    case Some(status) =>
      var candidates := RecentCompanyJobs(db, user, rs.company.id, now);
      match FirstDuplicate(db, candidates, NewJobKey(rs, parsed), parse)
      case Some(existing) => (Duplicate(existing.id, parsed), db)
      case None =>
        var job := NewJob(FreshId(db), user, rs, status, parsed, now);
        (Ingested(job.id, parsed), db.(jobs := db.jobs + [job], nextId := db.nextId + 1))
  }

  /** The route after authentication and validation, for the user row `user` and the parsed e-mail. */
  function IngestFor(db: Db, user: Id, parsed: ParsedEmail, parse: UrlParser, now: Time): (r: (IngestResponse, Db))
    ensures r.0.NoTitle? <==> !Truthy(parsed.jobTitle)
    ensures r.0.NoTitle? ==> r.1 == db && r.0.parsed == parsed
    ensures Truthy(parsed.jobTitle) ==>
      var (rs, db1) := ResolveEntities(db, user, parsed);
      r == IngestResolved(db1, user, rs, parsed, parse, now)
    ensures !r.0.Ingested? ==> r.1.jobs == db.jobs
    ensures r.1.users == db.users
  {
    if !Truthy(parsed.jobTitle) then (NoTitle(parsed), db)
    else
      var (rs, db1) := ResolveEntities(db, user, parsed);
      IngestResolved(db1, user, rs, parsed, parse, now)
  }

  /**
   * `POST(request)`. `body` is what `request.json()` returns, `None` where
   * it throws; `isEmail` is zod's e-mail check; `now` is `Date.now()`.
   */
  function IngestEmail(db: Db, current: Option<CurrentUser>, body: Option<Json>, isEmail: string -> bool,
                       rx: EmailPatterns, parse: UrlParser, now: Time): (r: (IngestResponse, Db))
    ensures current.None? ==> r == (AuthRequired, db)
    ensures current.Some? && body.None? ==> r.0 == Failed(IngestFailedError)
    ensures current.Some? && body.Some? && ValidateRequest(body.value, isEmail).None? ==> r.0 == InvalidData
    ensures r.0.Status() != 201 ==> r.1.jobs == db.jobs
    ensures current.Some? && body.Some? && ValidateRequest(body.value, isEmail).Some? ==>
      var (user, db1) := EnsureUser(db, current.value);
      var req := ValidateRequest(body.value, isEmail).value;
      r == IngestFor(db1, user.id, ParseJobEmailAuto(req.emailBody, req.emailSubject, req.fromAddress, rx), parse, now)
  {
    match current
    case None => (AuthRequired, db)
    case Some(u) =>
      var (user, db1) := EnsureUser(db, u);
      match body
      case None => (Failed(IngestFailedError), db1)
      case Some(b) =>
        match ValidateRequest(b, isEmail)
        case None => (InvalidData, db1)
        case Some(req) =>
          var parsed := ParseJobEmailAuto(req.emailBody, req.emailSubject, req.fromAddress, rx);
          IngestFor(db1, user.id, parsed, parse, now)
  }

  // ---------------------------------------------------------------------------
  // Properties
  // ---------------------------------------------------------------------------

  /**
   * A missing draft status fails the request only after the company row
   * has been found or created: that write is not undone.
   */
  lemma DraftMissingKeepsEntityWrites(db: Db, user: Id, parsed: ParsedEmail, parse: UrlParser, now: Time)
    requires Truthy(parsed.jobTitle)
    requires FindLookup(db.statuses, DraftStatus).None?
    ensures var r := IngestFor(db, user, parsed, parse, now);
      && r.0 == Failed(DraftMissingError)
      && exists e :: e in r.1.companies && e.value == ValueKey(CompanyName(parsed)) && e.createdBy == user
  {
    var (rs, db1) := ResolveEntities(db, user, parsed);
    assert rs.company in IngestFor(db, user, parsed, parse, now).1.companies;
  }

  /**
   * The reported duplicate is one of the user's own jobs at the resolved
   * company, created within the last 30 days, and it is the first such
   * candidate `arePotentialDuplicates` accepts.
   */
  lemma DuplicateIsFirstRecentCandidate(db: Db, user: Id, rs: Resolved, parsed: ParsedEmail, parse: UrlParser, now: Time)
    requires IngestResolved(db, user, rs, parsed, parse, now).0.Duplicate?
    ensures var id := IngestResolved(db, user, rs, parsed, parse, now).0.existingJobId;
      var candidates := RecentCompanyJobs(db, user, rs.company.id, now);
      exists i: nat :: FirstDuplicateAt(db, candidates, NewJobKey(rs, parsed), parse, i)
        && candidates[i].id == id && candidates[i] in db.jobs && candidates[i].userId == user
        && candidates[i].companyId == rs.company.id && candidates[i].createdAt >= now - DuplicateWindowMs
  {
    var candidates := RecentCompanyJobs(db, user, rs.company.id, now);
    var found := FirstDuplicate(db, candidates, NewJobKey(rs, parsed), parse);
    var i: nat :| FirstDuplicateAt(db, candidates, NewJobKey(rs, parsed), parse, i) && found.value == candidates[i];
    assert candidates[i] in db.jobs;
  }

  /** A created job means no candidate in the window was a potential duplicate of it. */
  lemma IngestedHasNoCandidateDuplicate(db: Db, user: Id, rs: Resolved, parsed: ParsedEmail, parse: UrlParser, now: Time, c: Job)
    requires IngestResolved(db, user, rs, parsed, parse, now).0.Ingested?
    requires c in RecentCompanyJobs(db, user, rs.company.id, now)
    ensures !ArePotentialDuplicates(NewJobKey(rs, parsed), StoredJobKey(db, c), parse)
  {
    var candidates := RecentCompanyJobs(db, user, rs.company.id, now);
    var k :| 0 <= k < |candidates| && candidates[k] == c;
  }
}
