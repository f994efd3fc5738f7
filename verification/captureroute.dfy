/**
 * `src/app/api/jobs/capture/route.ts`: the HTTP face of the capture
 * actions. `POST` validates the body and maps the `captureJob` result to a
 * status; `GET` checks the `url` query parameter and maps the preview.
 *
 * zod's URL check and `new URL(url)` are both the abstract URL parser.
 */
module CaptureRoute {
  import opened Wrappers
  import opened Text
  import opened Json
  import opened Url
  import opened Scraper
  import opened Store
  import opened UserEnsure
  import opened CaptureActions

  /** The optional string fields of `scrapedData`. */
  const ScrapedFieldKeys: seq<string> := ["title", "company", "location", "description", "logoUrl", "salaryRange"]

  /** `scrapedData` as `CaptureJobSchema` reads it: `url` required, the other fields optional strings. */
  function ScrapedFromJson(j: Json): (r: Option<ScrapedJob>)
    ensures r.Some? <==>
      && j.JObj? && "url" in j.fields && j.fields["url"].JStr?
      && forall i :: 0 <= i < |ScrapedFieldKeys| ==> OptionalMember(j.fields, ScrapedFieldKeys[i], AnyString).Some?
    ensures r.Some? ==> r.value.url == j.fields["url"].s
    ensures r.Some? ==>
      && OptionalMember(j.fields, "title", AnyString) == Some(r.value.fields.title)
      && OptionalMember(j.fields, "company", AnyString) == Some(r.value.fields.company)
      && OptionalMember(j.fields, "location", AnyString) == Some(r.value.fields.location)
      && OptionalMember(j.fields, "description", AnyString) == Some(r.value.fields.description)
      && OptionalMember(j.fields, "logoUrl", AnyString) == Some(r.value.fields.logoUrl)
      && OptionalMember(j.fields, "salaryRange", AnyString) == Some(r.value.fields.salaryRange)
  {
    if !j.JObj? || "url" !in j.fields || !j.fields["url"].JStr? then None
    else
      var f := j.fields;
      var title := OptionalMember(f, "title", AnyString);
      var company := OptionalMember(f, "company", AnyString);
      var location := OptionalMember(f, "location", AnyString);
      var description := OptionalMember(f, "description", AnyString);
      var logoUrl := OptionalMember(f, "logoUrl", AnyString);
      var salaryRange := OptionalMember(f, "salaryRange", AnyString);
      assert ScrapedFieldKeys[0] == "title" && ScrapedFieldKeys[1] == "company" && ScrapedFieldKeys[2] == "location";
      assert ScrapedFieldKeys[3] == "description" && ScrapedFieldKeys[4] == "logoUrl" && ScrapedFieldKeys[5] == "salaryRange";
      if title.None? || company.None? || location.None? || description.None? || logoUrl.None? || salaryRange.None? then None
      else Some(ScrapedJob(f["url"].s, Fields(title.value, company.value, location.value, description.value, logoUrl.value, salaryRange.value)))
  }

  /** `CaptureJobSchema.safeParse(body)`: a URL the parser accepts, and optional well-formed `scrapedData`. */
  function ValidateCapture(body: Json, parse: UrlParser): (r: Option<CaptureInput>)
    ensures r.Some? <==>
      && body.JObj? && "url" in body.fields && body.fields["url"].JStr? && parse(body.fields["url"].s).Some?
      && ("scrapedData" in body.fields ==> ScrapedFromJson(body.fields["scrapedData"]).Some?)
    ensures r.Some? ==> r.value.url == body.fields["url"].s
    ensures r.Some? ==> (r.value.scrapedData.None? <==> "scrapedData" !in body.fields)
  {
    if !body.JObj? || "url" !in body.fields || !body.fields["url"].JStr? || parse(body.fields["url"].s).None? then None
    else if "scrapedData" !in body.fields then Some(CaptureInput(body.fields["url"].s, None))
    else match ScrapedFromJson(body.fields["scrapedData"])
      case None => None
      case Some(s) => Some(CaptureInput(body.fields["url"].s, Some(s)))
  }

  /** What `POST` answers. */
  datatype PostReply =
    | InvalidInput                          // the schema rejected the body
    | Captured(result: CaptureResult)       // `captureJob` ran
    | Crashed                               // `request.json()` threw
  {
    function Status(): (s: int)
      ensures s == 201 <==> this.Captured? && result.success
      ensures s == 409 <==> this.Captured? && !result.success && result.isDuplicate
      ensures s == 400 <==> this.InvalidInput?
      ensures s == 500 <==> this.Crashed? || (this.Captured? && !result.success && !result.isDuplicate)
    {
      match this
      case InvalidInput => 400
      case Captured(res) => if res.success then 201 else if res.isDuplicate then 409 else 500
      case Crashed => 500
    }
  }

  /**
   * `POST /api/jobs/capture`. `body` is what `request.json()` returns
   * (`None` where it throws); `fetched` is what `scrapeJobFromUrl` returns
   * for the URL, read only when no `scrapedData` is given.
   */
  function Post(db: Db, current: Option<CurrentUser>, body: Option<Json>, parse: UrlParser, fetched: ScrapedJob, now: Time): (r: (PostReply, Db))
    ensures body.None? ==> r == (Crashed, db)
    ensures body.Some? && ValidateCapture(body.value, parse).None? ==> r == (InvalidInput, db)
    ensures body.Some? && ValidateCapture(body.value, parse).Some? ==>
      var (res, db1) := CaptureJob(db, current, ValidateCapture(body.value, parse).value, fetched, now);
      r == (Captured(res), db1)
    ensures r.0.Status() != 201 ==> r.1.jobs == db.jobs
  {
    match body
    case None => (Crashed, db)
    case Some(b) =>
      match ValidateCapture(b, parse)
      case None => (InvalidInput, db)
      case Some(input) =>
        var (res, db1) := CaptureJob(db, current, input, fetched, now);
        (Captured(res), db1)
  }

  /** What `GET` answers. */
  datatype GetReply =
    | MissingUrl                    // "URL parameter is required"
    | InvalidUrl                    // "Invalid URL format"
    | PreviewFailed(error: string)  // the preview reported an error
    | Preview(data: ScrapedJob)
  {
    function Status(): (s: int)
      ensures s == 200 <==> this.Preview?
      ensures s == 400 <==> this.MissingUrl? || this.InvalidUrl?
      ensures s == 500 <==> this.PreviewFailed?
    {
      match this
      case MissingUrl => 400
      case InvalidUrl => 400
      case PreviewFailed(_) => 500
      case Preview(_) => 200
    }
  }

  /**
   * `GET /api/jobs/capture?url=...`. `url` is the query parameter (`None`
   * when absent); `fetched`, `rx` and `json` feed the preview's scrape.
   */
  function Get(signedIn: bool, url: Option<string>, parse: UrlParser, fetched: FetchOutcome, rx: HtmlPatterns, json: JsonParser): (r: GetReply)
    ensures r == MissingUrl <==> !Truthy(url)
    ensures r == InvalidUrl <==> Truthy(url) && parse(url.value).None?
    ensures r.PreviewFailed? <==> Truthy(url) && parse(url.value).Some? && !signedIn
    ensures r.Preview? ==> r.data.url == url.value
  {
    if !Truthy(url) then MissingUrl
    else if parse(url.value).None? then InvalidUrl
    else match PreviewCapturedJob(signedIn, url.value, fetched, rx, json)
      case Err(e) => PreviewFailed(e)
      case Ok(data) => Preview(data)
  }

  // ---------------------------------------------------------------------------
  // Properties
  // ---------------------------------------------------------------------------

  /** A request without a session is not a 401 here: `captureJob` reports it as a plain failure, so the route answers 500. */
  lemma UnauthenticatedPostIs500(db: Db, body: Json, parse: UrlParser, fetched: ScrapedJob, now: Time)
    requires ValidateCapture(body, parse).Some?
    ensures var r := Post(db, None, Some(body), parse, fetched, now);
      r.0.Status() == 500 && r.0.result.message == "Not authenticated" && r.1 == db
  {
  }

  /** A second capture of a URL the first one stored answers 409 and stores nothing. */
  lemma RepeatedPostIs409(db: Db, u: CurrentUser, body: Json, body2: Json, parse: UrlParser,
                          fetched: ScrapedJob, fetched2: ScrapedJob, now: Time, now2: Time)
    requires JobIdsSet(db.jobs)
    requires ValidateCapture(body, parse).Some? && ValidateCapture(body2, parse).Some?
    requires ValidateCapture(body, parse).value.url == ValidateCapture(body2, parse).value.url != ""
    requires Post(db, Some(u), Some(body), parse, fetched, now).0.Status() == 201
    ensures var db1 := Post(db, Some(u), Some(body), parse, fetched, now).1;
      var r := Post(db1, Some(u), Some(body2), parse, fetched2, now2);
      r.0.Status() == 409 && r.1.jobs == db1.jobs
  {
    var input := ValidateCapture(body, parse).value;
    var input2 := ValidateCapture(body2, parse).value;
    RecaptureIsDuplicate(db, u, input, fetched, input2, fetched2, now, now2);
  }

  /** A 201 adds exactly one job, for the signed-in user and the posted URL. */
  lemma CreatedPostAddsOneJob(db: Db, u: CurrentUser, body: Json, parse: UrlParser, fetched: ScrapedJob, now: Time)
    requires Post(db, Some(u), Some(body), parse, fetched, now).0.Status() == 201
    ensures var r := Post(db, Some(u), Some(body), parse, fetched, now);
      exists j :: r.1.jobs == db.jobs + [j] && j.jobUrl == Some(ValidateCapture(body, parse).value.url)
        && j.userId == EnsureUser(db, u).0.id
  {
    var input := ValidateCapture(body, parse).value;
    var (user, db1) := EnsureUser(db, u);
    var r := Post(db, Some(u), Some(body), parse, fetched, now);
    assert r.1 == CaptureFor(db1, user.id, input.url, ScrapedData(input, fetched).fields, now).1;
    var j := r.1.jobs[|db.jobs|];
    assert r.1.jobs == db.jobs + [j];
  }
}
