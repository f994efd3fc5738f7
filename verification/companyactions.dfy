/**
 * `src/actions/company.actions.ts`: adding, updating and deleting
 * companies. A company's key is `lowercase(trim(name))`, unique per user;
 * the optional text columns are trimmed with blanks dropped, the location
 * list is de-duplicated, and the logo is the favicon of the website.
 */
module CompanyActions {
  import opened Wrappers
  import opened Text
  import opened Seqs
  import opened Url
  import opened Store
  import opened UserEnsure

  // ---------------------------------------------------------------------------
  // getFaviconFromUrl
  // ---------------------------------------------------------------------------

  const FaviconPrefix := "https://www.google.com/s2/favicons?domain="
  const FaviconSuffix := "&sz=64"

  /** `/^https?:\/\//`. */
  predicate HasScheme(s: string) {
    StartsWith(s, "http://") || StartsWith(s, "https://")
  }

  /** The string `getFaviconFromUrl` hands to `new URL`. */
  function FaviconTarget(s: string): (r: string)
    ensures HasScheme(r)
  {
    if HasScheme(s) then s
    else
      var r := "https://" + s;
      assert r[..|"https://"|] == "https://";
      r
  }

  /**
   * `getFaviconFromUrl(siteUrl)`: the Google favicon service's URL for the
   * site's host name, or `""` for a missing or empty site and for one the
   * URL parser rejects.
   */
  function Favicon(siteUrl: Option<string>, parse: UrlParser): (r: string)
    ensures !Truthy(siteUrl) ==> r == ""
    ensures Truthy(siteUrl) && parse(FaviconTarget(siteUrl.value)).None? ==> r == ""
    ensures r != "" <==> Truthy(siteUrl) && parse(FaviconTarget(siteUrl.value)).Some?
    ensures r != "" ==> StartsWith(r, FaviconPrefix) && EndsWith(r, FaviconSuffix)
  {
    if !Truthy(siteUrl) then ""
    else match parse(FaviconTarget(siteUrl.value))
      case None => ""
      case Some(u) =>
        var r := FaviconPrefix + u.hostname + FaviconSuffix;
        assert r[..|FaviconPrefix|] == FaviconPrefix;
        assert r[|r| - |FaviconSuffix|..] == FaviconSuffix;
        r
  }

  /** The `domain` parameter read back out of a favicon URL. */
  function FaviconDomain(r: string): (d: Option<string>)
    ensures d.Some? ==> r == FaviconPrefix + d.value + FaviconSuffix
  {
    if |r| >= |FaviconPrefix| + |FaviconSuffix| && StartsWith(r, FaviconPrefix) && EndsWith(r, FaviconSuffix) then
      var d := r[|FaviconPrefix|..|r| - |FaviconSuffix|];
      assert r == r[..|FaviconPrefix|] + d + r[|r| - |FaviconSuffix|..];
      Some(d)
    else None
  }

  /** A favicon URL names exactly the host name the parser found. */
  lemma FaviconNamesHost(siteUrl: Option<string>, parse: UrlParser)
    requires Favicon(siteUrl, parse) != ""
    ensures FaviconDomain(Favicon(siteUrl, parse)) == Some(parse(FaviconTarget(siteUrl.value)).value.hostname)
  {
    var h := parse(FaviconTarget(siteUrl.value)).value.hostname;
    var r := Favicon(siteUrl, parse);
    assert r == FaviconPrefix + h + FaviconSuffix;
    assert r[|FaviconPrefix|..|r| - |FaviconSuffix|] == h;
  }

  /** A site written without a scheme gets the favicon of its `https://` form. */
  lemma FaviconDefaultsToHttps(site: string, parse: UrlParser)
    requires site != "" && !HasScheme(site)
    ensures Favicon(Some(site), parse) == Favicon(Some("https://" + site), parse)
  {
    var t := "https://" + site;
    assert t[..|"https://"|] == "https://";
    assert HasScheme(t);
  }

  // ---------------------------------------------------------------------------
  // The form and its normalisation
  // ---------------------------------------------------------------------------

  /** The fields of `AddCompanyFormSchema` (absent optional fields are `None`). */
  datatype CompanyForm = CompanyForm(
    id: Option<Id>,
    createdBy: Option<Id>,
    company: string,
    companyUrl: Option<string>,
    careerSite: Option<string>,
    locations: Option<seq<Id>>,
    archetype: Option<string>,
    ownership: Option<string>,
    industryRole: Option<string>,
    innovationLevel: Option<string>,
    cultureTag: Option<string>,
    country: Option<string>,
    summary: Option<string>,
    fitNotes: Option<string>,
    hasWorksCouncil: Option<bool>,
    hasCollectiveAgreement: Option<bool>)

  /** `s?.trim() || undefined`: the trimmed text, or nothing when it is missing or blank. */
  function OptionalText(s: Option<string>): (r: Option<string>)
    ensures r.None? <==> s.None? || Trim(s.value) == ""
    ensures r.Some? ==> r.value == Trim(s.value) && r.value != "" && IsTrimmed(r.value)
  {
    match s
    case None => None
    case Some(t) => if Trim(t) == "" then None else Some(Trim(t))
  }

  /** Normalising optional text twice changes nothing. */
  lemma OptionalTextIdempotent(s: Option<string>)
    ensures OptionalText(OptionalText(s)) == OptionalText(s)
  {
    if OptionalText(s).Some? {
      TrimFixesTrimmed(OptionalText(s).value);
    }
  }

  /**
   * `locations?.filter(Boolean).filter((v, i, a) => a.indexOf(v) === i) || []`:
   * the non-empty ids, first occurrences only, in order.
   */
  function LocationIds(locations: Option<seq<Id>>): (r: seq<Id>)
    ensures NoDuplicates(r)
    ensures forall i :: 0 <= i < |r| ==> r[i] != "" && locations.Some? && r[i] in locations.value
    ensures locations.Some? ==> forall i :: 0 <= i < |locations.value| && locations.value[i] != "" ==> locations.value[i] in r
  {
    match locations
    case None => []
    case Some(xs) =>
      var kept := Filter(xs, NonBlankId);
      DedupIdiomsAgree(kept);
      DedupByIndexOf(kept)
  }

  /** `filter(Boolean)` on ids: the empty id is the only falsy one. */
  predicate NonBlankId(s: Id) {
    s != ""
  }

  /** The first non-empty id always comes first. */
  lemma LocationIdsKeepFirst(xs: seq<Id>, k: nat)
    requires k < |xs| && xs[k] != ""
    requires forall j :: 0 <= j < k ==> xs[j] == ""
    ensures |LocationIds(Some(xs))| > 0 && LocationIds(Some(xs))[0] == xs[k]
  {
    FirstNonBlankKept(xs, k);
    DedupIdiomsAgree(Filter(xs, NonBlankId));
  }

  /** Filtering out the empty ids leaves the first non-empty one at the front. */
  lemma FirstNonBlankKept(xs: seq<Id>, k: nat)
    requires k < |xs| && xs[k] != ""
    requires forall j :: 0 <= j < k ==> xs[j] == ""
    ensures |Filter(xs, NonBlankId)| > 0 && Filter(xs, NonBlankId)[0] == xs[k]
  {
    assert forall j :: 0 <= j < |xs[..k]| ==> !NonBlankId(xs[..k][j]);
    FilterAppend(xs[..k], xs[k..], NonBlankId);
    assert xs == xs[..k] + xs[k..];
    assert xs[k..][0] == xs[k];
  }

  /** The columns a company row gets from the form; `website` doubles as the favicon's site. */
  function InfoOf(form: CompanyForm, parse: UrlParser): (r: CompanyInfo)
    ensures r.website == OptionalText(form.companyUrl)
    ensures r.logoUrl.Some? <==> Favicon(r.website, parse) != ""
    ensures r.logoUrl.Some? ==> r.logoUrl.value == Favicon(r.website, parse)
    ensures r.careerSite == OptionalText(form.careerSite) && r.fitNotes == OptionalText(form.fitNotes)
    ensures r.archetype == OptionalText(form.archetype) && r.ownership == OptionalText(form.ownership)
    ensures r.industryRole == OptionalText(form.industryRole) && r.innovationLevel == OptionalText(form.innovationLevel)
    ensures r.cultureTag == OptionalText(form.cultureTag) && r.country == OptionalText(form.country)
    ensures r.summary == OptionalText(form.summary)
    ensures r.hasWorksCouncil == (form.hasWorksCouncil == Some(true))
    ensures r.hasCollectiveAgreement == (form.hasCollectiveAgreement == Some(true))
    ensures r.locationIds == LocationIds(form.locations)
  {
    var website := OptionalText(form.companyUrl);
    var logo := Favicon(website, parse);
    CompanyInfo(
      if logo == "" then None else Some(logo),
      website,
      OptionalText(form.careerSite),
      OptionalText(form.archetype),
      OptionalText(form.ownership),
      OptionalText(form.industryRole),
      OptionalText(form.innovationLevel),
      OptionalText(form.cultureTag),
      OptionalText(form.country),
      OptionalText(form.summary),
      OptionalText(form.fitNotes),
      form.hasWorksCouncil.GetOr(false),
      form.hasCollectiveAgreement.GetOr(false),
      LocationIds(form.locations))
  }

  /** `form` with the stored columns `info` written back into its text fields and flags. */
  function EditForm(form: CompanyForm, info: CompanyInfo): (f: CompanyForm)
    ensures f.locations == form.locations && f.company == form.company
  {
    form.(companyUrl := info.website, careerSite := info.careerSite, archetype := info.archetype,
          ownership := info.ownership, industryRole := info.industryRole, innovationLevel := info.innovationLevel,
          cultureTag := info.cultureTag, country := info.country, summary := info.summary,
          fitNotes := info.fitNotes, hasWorksCouncil := Some(info.hasWorksCouncil),
          hasCollectiveAgreement := Some(info.hasCollectiveAgreement))
  }

  /**
   * Submitting the stored columns again stores the same columns: the
   * trimming and blank-dropping of `InfoOf` are idempotent, and the logo
   * follows the same website.
   */
  lemma InfoOfResubmitted(form: CompanyForm, parse: UrlParser)
    ensures InfoOf(EditForm(form, InfoOf(form, parse)), parse) == InfoOf(form, parse)
  {
    OptionalTextIdempotent(form.companyUrl);
    OptionalTextIdempotent(form.careerSite);
    OptionalTextIdempotent(form.archetype);
    OptionalTextIdempotent(form.ownership);
    OptionalTextIdempotent(form.industryRole);
    OptionalTextIdempotent(form.innovationLevel);
    OptionalTextIdempotent(form.cultureTag);
    OptionalTextIdempotent(form.country);
    OptionalTextIdempotent(form.summary);
    OptionalTextIdempotent(form.fitNotes);
  }

  const CompanyExistsError := "Company already exists!"
  const CompanyGuardError := "Id is not provided or no user privilages"

  // ---------------------------------------------------------------------------
  // addCompany
  // ---------------------------------------------------------------------------

  /** `addCompany(data)` once the user's row exists: a new row, unless the user already has the key. */
  function AddFor(db: Db, user: Id, form: CompanyForm, parse: UrlParser): (r: (Result<Entity>, Db))
    ensures FindByKey(db.companies, ValueKey(form.company), user).Some? <==> r.0.Err?
    ensures r.0.Err? ==> r == (Err(CompanyExistsError), db)
    ensures r.0.Ok? ==>
      && r.0.value.value == ValueKey(form.company) && r.0.value.labelText == form.company
      && r.0.value.createdBy == user
      && r.1 == db.(companies := db.companies + [r.0.value],
                    companyInfo := db.companyInfo[r.0.value.id := InfoOf(form, parse)],
                    nextId := db.nextId + 1)
  {
    var value := ValueKey(form.company);
    if FindByKey(db.companies, value, user).Some? then (Err(CompanyExistsError), db)
    else
      var e := Entity(FreshId(db), form.company, value, user);
      (Ok(e), db.(companies := db.companies + [e], companyInfo := db.companyInfo[e.id := InfoOf(form, parse)],
                  nextId := db.nextId + 1))
  }

  /** `addCompany(data)`. */
  function AddCompany(db: Db, current: Option<CurrentUser>, form: CompanyForm, parse: UrlParser): (r: (Result<Entity>, Db))
    ensures current.None? ==> r == (Err(NotAuthenticated), db)
    ensures current.Some? ==> r == AddFor(EnsureUser(db, current.value).1, EnsureUser(db, current.value).0.id, form, parse)
    ensures r.0.Ok? || r.0 == Err(NotAuthenticated) || r.0 == Err(CompanyExistsError)
  {
    match current
    case None => (Err(NotAuthenticated), db)
    case Some(u) =>
      var (user, db1) := EnsureUser(db, u);
      AddFor(db1, user.id, form, parse)
  }

  /** `addCompany` keeps at most one company per `(value, createdBy)`. */
  lemma AddCompanyKeepsKeysUnique(db: Db, current: Option<CurrentUser>, form: CompanyForm, parse: UrlParser)
    requires KeysUnique(db.companies)
    ensures KeysUnique(AddCompany(db, current, form, parse).1.companies)
  {
    var r := AddCompany(db, current, form, parse);
    if r.0.Ok? {
      AppendKeepsKeysUnique(db.companies, r.0.value);
    }
  }

  /** Adding the same name again, in any case and padding, is refused and writes nothing. */
  lemma AddCompanyTwiceRefused(db: Db, u: CurrentUser, form: CompanyForm, form2: CompanyForm, parse: UrlParser)
    requires ValueKey(form.company) == ValueKey(form2.company)
    requires AddCompany(db, Some(u), form, parse).0.Ok?
    ensures var db1 := AddCompany(db, Some(u), form, parse).1;
      AddCompany(db1, Some(u), form2, parse) == (Err(CompanyExistsError), db1)
  {
    EnsureUserIdempotent(db, u);
    var (user, dbu) := EnsureUser(db, u);
    var (r, db1) := AddFor(dbu, user.id, form, parse);
    assert EnsureUser(db1, u) == (user, db1.(users := dbu.users));
    assert db1.companies[|dbu.companies|] == r.value;
  }

  /** Another user's company with the same name does not stand in the way. */
  lemma AddCompanySameNameOtherUser(db: Db, u: CurrentUser, form: CompanyForm, parse: UrlParser)
    requires forall i :: 0 <= i < |db.companies| ==> db.companies[i].createdBy != EnsureUser(db, u).0.id
    ensures AddCompany(db, Some(u), form, parse).0.Ok?
  {
  }

  // ---------------------------------------------------------------------------
  // updateCompany
  // ---------------------------------------------------------------------------

  /** `!id || dbUser.id != createdBy`. */
  predicate UpdateRefused(form: CompanyForm, user: Id) {
    !Truthy(form.id) || form.createdBy != Some(user)
  }

  /** The stored columns after the update: undefined text keeps its value; booleans and locations are always written. */
  function UpdatedInfo(stored: CompanyInfo, given: CompanyInfo): (r: CompanyInfo)
    ensures r.hasWorksCouncil == given.hasWorksCouncil && r.hasCollectiveAgreement == given.hasCollectiveAgreement
    ensures r.locationIds == given.locationIds
    ensures Patched(stored.logoUrl, given.logoUrl, r.logoUrl) && Patched(stored.website, given.website, r.website)
    ensures Patched(stored.careerSite, given.careerSite, r.careerSite) && Patched(stored.archetype, given.archetype, r.archetype)
    ensures Patched(stored.ownership, given.ownership, r.ownership) && Patched(stored.industryRole, given.industryRole, r.industryRole)
    ensures Patched(stored.innovationLevel, given.innovationLevel, r.innovationLevel)
    ensures Patched(stored.cultureTag, given.cultureTag, r.cultureTag) && Patched(stored.country, given.country, r.country)
    ensures Patched(stored.summary, given.summary, r.summary) && Patched(stored.fitNotes, given.fitNotes, r.fitNotes)
  {
    CompanyInfo(
      given.logoUrl.Or(stored.logoUrl),
      given.website.Or(stored.website),
      given.careerSite.Or(stored.careerSite),
      given.archetype.Or(stored.archetype),
      given.ownership.Or(stored.ownership),
      given.industryRole.Or(stored.industryRole),
      given.innovationLevel.Or(stored.innovationLevel),
      given.cultureTag.Or(stored.cultureTag),
      given.country.Or(stored.country),
      given.summary.Or(stored.summary),
      given.fitNotes.Or(stored.fitNotes),
      given.hasWorksCouncil,
      given.hasCollectiveAgreement,
      given.locationIds)
  }

  /** Saving the same form twice stores what saving it once does. */
  lemma UpdatedInfoIdempotent(stored: CompanyInfo, given: CompanyInfo)
    ensures UpdatedInfo(UpdatedInfo(stored, given), given) == UpdatedInfo(stored, given)
  {
  }

  /** What a row without stored columns reads as. */
  const NoInfo := CompanyInfo(None, None, None, None, None, None, None, None, None, None, None, false, false, [])

  /** The columns stored for company `id`, or none. */
  function StoredInfo(db: Db, id: Id): (r: CompanyInfo)
    ensures id in db.companyInfo ==> r == db.companyInfo[id]
  {
    if id in db.companyInfo then db.companyInfo[id] else NoInfo
  }

  /**
   * `updateCompany(data)` once the user's row exists: after the guard and
   * the uniqueness check, the row with id `data.id` is renamed and its
   * columns are written. The row is found by id alone; the guard checks the
   * `createdBy` the form carries.
   */
  function UpdateFor(db: Db, user: Id, form: CompanyForm, parse: UrlParser): (r: (Result<Entity>, Db))
    ensures UpdateRefused(form, user) ==> r == (Err(CompanyGuardError), db)
    ensures r.0.Err? ==> r.1 == db
    ensures !UpdateRefused(form, user) ==>
      var found := FindByKey(db.companies, ValueKey(form.company), user);
      (r.0 == Err(CompanyExistsError) <==> found.Some? && found.value.id != form.id.value)
    ensures r.0.Ok? ==>
      && !UpdateRefused(form, user)
      && exists k :: 0 <= k < |db.companies| && db.companies[k].id == form.id.value
           && r.0.value == db.companies[k].(labelText := form.company, value := ValueKey(form.company))
           && r.1 == db.(companies := db.companies[k := r.0.value],
                         companyInfo := db.companyInfo[form.id.value := UpdatedInfo(StoredInfo(db, form.id.value), InfoOf(form, parse))])
  {
    if UpdateRefused(form, user) then (Err(CompanyGuardError), db)
    else
      var id := form.id.value;
      var value := ValueKey(form.company);
      var found := FindByKey(db.companies, value, user);
      if found.Some? && found.value.id != id then (Err(CompanyExistsError), db)
      else match FindIndex(db.companies, (e: Entity) => e.id == id)
        case None => (Err(RecordNotFound), db)
        case Some(k) =>
          var e := db.companies[k].(labelText := form.company, value := value);
          (Ok(e), db.(companies := db.companies[k := e], companyInfo := db.companyInfo[id := UpdatedInfo(StoredInfo(db, id), InfoOf(form, parse))]))
  }

  /** `updateCompany(data)`. */
  function UpdateCompany(db: Db, current: Option<CurrentUser>, form: CompanyForm, parse: UrlParser): (r: (Result<Entity>, Db))
    ensures current.None? ==> r == (Err(NotAuthenticated), db)
    ensures current.Some? ==> r == UpdateFor(EnsureUser(db, current.value).1, EnsureUser(db, current.value).0.id, form, parse)
  {
    match current
    case None => (Err(NotAuthenticated), db)
    case Some(u) =>
      var (user, db1) := EnsureUser(db, u);
      UpdateFor(db1, user.id, form, parse)
  }

  /** Company ids are distinct. */
  predicate IdsUnique(rows: seq<Entity>) {
    forall i, j :: 0 <= i < j < |rows| ==> rows[i].id != rows[j].id
  }

  /**
   * When the updated row is the user's own, the keys stay unique: the only
   * row that may already hold the new key is the row itself.
   */
  lemma UpdateCompanyKeepsKeysUnique(db: Db, u: CurrentUser, form: CompanyForm, parse: UrlParser, k: nat)
    requires KeysUnique(db.companies) && IdsUnique(db.companies)
    requires k < |db.companies| && Truthy(form.id) && db.companies[k].id == form.id.value
    requires db.companies[k].createdBy == EnsureUser(db, u).0.id
    ensures KeysUnique(UpdateCompany(db, Some(u), form, parse).1.companies)
  {
    var r := UpdateCompany(db, Some(u), form, parse);
    if r.0.Ok? {
      var rows := db.companies;
      var user := EnsureUser(db, u).0.id;
      var value := ValueKey(form.company);
      var k' :| 0 <= k' < |rows| && rows[k'].id == form.id.value
           && r.0.value == rows[k'].(labelText := form.company, value := value)
           && r.1.companies == rows[k' := r.0.value];
      assert k' == k by {
        if k' != k {
          assert false;
        }
      }
      var found := FindByKey(rows, value, user);
      assert !(found.Some? && found.value.id != form.id.value);
      OnlyOwnRowHoldsKey(rows, k, value, user, found);
      RewriteKeepsKeysUnique(rows, k, r.0.value);
    }
  }

  /**
   * When the first row holding a key is absent or has row `k`'s id, no row
   * other than `k` holds that key.
   */
  lemma OnlyOwnRowHoldsKey(rows: seq<Entity>, k: nat, value: string, user: Id, found: Option<Entity>)
    requires KeysUnique(rows) && IdsUnique(rows) && k < |rows|
    requires found.Some? ==> found.value in rows && found.value.value == value && found.value.createdBy == user
    requires found.None? ==> forall i :: 0 <= i < |rows| ==> !(rows[i].value == value && rows[i].createdBy == user)
    requires !(found.Some? && found.value.id != rows[k].id)
    ensures forall i :: 0 <= i < |rows| && i != k ==> !(rows[i].value == value && rows[i].createdBy == user)
  {
  }

  /** Renaming a company to a name with its own key is allowed. */
  lemma UpdateCompanyToOwnKey(db: Db, u: CurrentUser, form: CompanyForm, parse: UrlParser, k: nat)
    requires KeysUnique(db.companies)
    requires k < |db.companies| && Truthy(form.id) && db.companies[k].id == form.id.value
    requires forall j :: 0 <= j < k ==> db.companies[j].id != form.id.value
    requires form.createdBy == Some(EnsureUser(db, u).0.id) && db.companies[k].createdBy == EnsureUser(db, u).0.id
    requires ValueKey(form.company) == db.companies[k].value
    ensures UpdateCompany(db, Some(u), form, parse).0.Ok?
  {
    var user := EnsureUser(db, u).0.id;
    var found := FindByKey(db.companies, db.companies[k].value, user);
    var f :| 0 <= f < |db.companies| && db.companies[f] == found.value;
    assert f == k by {
      if f < k {
        assert false;
      } else if k < f {
        assert false;
      }
    }
    FindIndexAt(EnsureUser(db, u).1.companies, (e: Entity) => e.id == form.id.value, k);
  }

  /**
   * The guard reads `createdBy` from the form, so a form that names the
   * acting user reaches a company of another user.
   */
  lemma UpdateCompanyReachesOthersRow(db: Db, u: CurrentUser, form: CompanyForm, parse: UrlParser, k: nat)
    requires k < |db.companies| && Truthy(form.id) && db.companies[k].id == form.id.value
    requires forall j :: 0 <= j < k ==> db.companies[j].id != form.id.value
    requires form.createdBy == Some(EnsureUser(db, u).0.id) && db.companies[k].createdBy != EnsureUser(db, u).0.id
    requires FindByKey(db.companies, ValueKey(form.company), EnsureUser(db, u).0.id).None?
    ensures var r := UpdateCompany(db, Some(u), form, parse);
      r.0.Ok? && r.0.value.createdBy != EnsureUser(db, u).0.id && k < |r.1.companies| && r.1.companies[k] == r.0.value
  {
    FindIndexAt(EnsureUser(db, u).1.companies, (e: Entity) => e.id == form.id.value, k);
  }

  // ---------------------------------------------------------------------------
  // deleteCompanyById
  // ---------------------------------------------------------------------------

  /** The company a job points at. */
  function CompanyRef(j: Job): Option<Id> {
    Some(j.companyId)
  }

  /** `deleteCompanyById(companyId)`; the owner is the session's user id. */
  function DeleteCompany(db: Db, current: Option<CurrentUser>, id: Id): (r: (Result<()>, Db))
    ensures current.None? ==> r == (Err(NotAuthenticated), db)
    ensures current.Some? && RefCount(db.jobs, CompanyRef, id) > 0 ==>
      r.0 == Err(DeleteBlocked("Company", RefCount(db.jobs, CompanyRef, id)))
    ensures (current.Some? && RefCount(db.jobs, CompanyRef, id) == 0
             && exists e :: e in db.companies && e.id == id && e.createdBy == current.value.id) ==> r.0.Ok?
    ensures r.0.Err? ==> r.1 == db
    ensures r.0.Ok? ==>
      && current.Some?
      && (forall i :: 0 <= i < |db.jobs| ==> db.jobs[i].companyId != id)
      && (exists e :: e in db.companies && e.id == id && e.createdBy == current.value.id)
      && (forall e :: e in r.1.companies ==> e in db.companies && e.id != id)
      && (forall e :: e in db.companies && e.id != id ==> e in r.1.companies)
      && id !in r.1.companyInfo
      && r.1 == db.(companies := r.1.companies, companyInfo := db.companyInfo - {id})
  {
    match current
    case None => (Err(NotAuthenticated), db)
    case Some(u) =>
      match GuardedDelete(db.companies, db.jobs, id, u.id, CompanyRef, "Company")
      case Err(m) => (Err(m), db)
      case Ok(kept) =>
        var k :| 0 <= k < |db.companies| && db.companies[k].id == id && db.companies[k].createdBy == u.id;
        assert db.companies[k] in db.companies;
        assert RefCount(db.jobs, CompanyRef, id) == 0;
        (Ok(()), db.(companies := kept, companyInfo := db.companyInfo - {id}))
  }

  /** After a successful delete every job still names a company that exists, if every job did before. */
  lemma DeleteCompanyKeepsJobsResolved(db: Db, current: Option<CurrentUser>, id: Id)
    requires RefsResolve(db.companies, db.jobs, CompanyRef)
    requires DeleteCompany(db, current, id).0.Ok?
    ensures RefsResolve(DeleteCompany(db, current, id).1.companies, db.jobs, CompanyRef)
  {
    GuardedDeleteKeepsRefs(db.companies, db.jobs, id, current.value.id, CompanyRef, "Company");
  }
}
