/**
 * `browser-extension/content/content.js`: the job record the browser
 * extension reads off the page that is open.
 *
 * Unlike the server scraper, the structured-data pass stops at the first
 * `JobPosting` that yields a title, and `extractJobData` returns that
 * result as it is. Otherwise the fields are merged with `||`: structured
 * data, then the CSS selector cascades, then OpenGraph (location has no
 * OpenGraph source). The DOM enters as two lookup functions.
 */
module Extension {
  import opened Wrappers
  import opened Text
  import opened Seqs
  import opened Json

  /** The object `extractJobData` builds; every field may be `null`. */
  datatype PageData = PageData(
    title: Option<string>,
    company: Option<string>,
    location: Option<string>,
    description: Option<string>)

  const NoData := PageData(None, None, None, None)

  /** The parts of the open page the script reads. */
  datatype Page = Page(
    scripts: seq<string>,                 // textContent of each JSON-LD script element, in document order
    query: string -> Option<string>,      // textContent of `document.querySelector(selector)`, if any element matches
    meta: string -> Option<string>)       // the content attribute of `meta[property="<name>"]`, if there is one

  const TitleSelectors: seq<string> := [
    "h1.job-title", "h1.jobTitle", "h1[data-automation=\"job-title\"]", ".job-title h1",
    "[class*=\"job-title\"]", "[class*=\"JobTitle\"]", "h1"]

  const CompanySelectors: seq<string> := [
    "[data-automation=\"company-name\"]", ".company-name", ".companyName",
    "[class*=\"company-name\"]", "[class*=\"CompanyName\"]", "[class*=\"employer\"]"]

  const LocationSelectors: seq<string> := [
    "[data-automation=\"location\"]", ".location", "[class*=\"location\"]", "[class*=\"Location\"]"]

  const DescriptionSelectors: seq<string> := [
    "[data-automation=\"job-description\"]", ".job-description", "[class*=\"job-description\"]",
    "[class*=\"JobDescription\"]", "[id*=\"job-description\"]"]

  // ---------------------------------------------------------------------------
  // Structured data
  // ---------------------------------------------------------------------------

  /** The location of one posting: the truthy parts of locality, region and country, joined by ", ". */
  function AddressLocation(item: Json): (r: Option<string>)
    ensures r.Some? ==> Present(Path(Some(item), ["jobLocation", "address"]))
    ensures var address := Path(Some(item), ["jobLocation", "address"]);
      r.Some? <==> Present(address) && (Present(Get(address, "addressLocality")) || Present(Get(address, "addressRegion"))
                                         || Present(Get(address, "addressCountry")))
  {
    var address := Path(Some(item), ["jobLocation", "address"]);
    if Present(address) then
      var parts := [Get(address, "addressLocality"), Get(address, "addressRegion"), Get(address, "addressCountry")];
      assert (forall i :: 0 <= i < |parts| ==> !Present(parts[i]))
        <==> !Present(parts[0]) && !Present(parts[1]) && !Present(parts[2]);
      JoinParts(parts)
    else None
  }

  /** The body of the `JobPosting` branch: provided fields are written over the record, others kept. */
  function ApplyPosting(d: PageData, item: Json): (r: PageData)
    ensures TextValue(Get(Some(item), "title")).Some? ==> r.title == TextValue(Get(Some(item), "title"))
    ensures TextValue(Get(Some(item), "title")).None? ==> r.title == d.title
    ensures TextValue(Get(Some(item), "description")).Some? ==> r.description == TextValue(Get(Some(item), "description"))
    ensures TextValue(Get(Some(item), "description")).None? ==> r.description == d.description
    ensures TextValue(Path(Some(item), ["hiringOrganization", "name"])).Some?
      ==> r.company == TextValue(Path(Some(item), ["hiringOrganization", "name"]))
    ensures TextValue(Path(Some(item), ["hiringOrganization", "name"])).None? ==> r.company == d.company
    ensures AddressLocation(item).None? ==> r.location == d.location
    ensures AddressLocation(item).Some? ==> r.location == AddressLocation(item)
  {
    var title := TextValue(Get(Some(item), "title"));
    var description := TextValue(Get(Some(item), "description"));
    var company := TextValue(Path(Some(item), ["hiringOrganization", "name"]));
    var location := AddressLocation(item);
    PageData(
      if title.Some? then title else d.title,
      if company.Some? then company else d.company,
      if location.Some? then location else d.location,
      if description.Some? then description else d.description)
  }

  /** A full address is written as "locality, region, country". */
  lemma AddressLocationAllParts(item: Json, locality: string, region: string, country: string)
    requires Present(Path(Some(item), ["jobLocation", "address"]))
    requires locality != "" && region != "" && country != ""
    requires var address := Path(Some(item), ["jobLocation", "address"]);
      && Get(address, "addressLocality") == Some(JStr(locality))
      && Get(address, "addressRegion") == Some(JStr(region))
      && Get(address, "addressCountry") == Some(JStr(country))
    ensures AddressLocation(item) == Some(locality + ", " + region + ", " + country)
  {
    JoinThreeStrings(locality, region, country);
  }

  /**
   * A `JobPosting` whose title is truthy but not a string: the source
   * stores the value and returns; the model's fields hold strings only.
   */
  predicate HasNonTextTitle(item: Json) {
    IsJobPosting(item) && Present(Get(Some(item), "title")) && TextValue(Get(Some(item), "title")).None?
  }

  /** Where the scan of one script's items ended: `found` when it returned early with a title. */
  datatype Scan = Scan(data: PageData, found: bool)

  /**
   * The loop over one script's items. A `JobPosting` is applied; when the
   * record then has a title the whole extraction returns. A `null` item
   * throws, which ends this script.
   */
  function ScanItems(d: PageData, items: seq<Json>): (r: Scan)
    ensures r.found ==> Truthy(r.data.title) || exists i :: 0 <= i < |items| && HasNonTextTitle(items[i])
    decreases |items|
  {
    if |items| == 0 then Scan(d, false)
    else if items[0].JNull? then Scan(d, false)
    else if IsJobPosting(items[0]) then
      var d' := ApplyPosting(d, items[0]);
      if Present(Get(Some(items[0]), "title")) || Truthy(d'.title) then Scan(d', true)
      else
        var r := ScanItems(d', items[1..]);
        assert forall i :: 0 <= i < |items[1..]| ==> items[1..][i] == items[i + 1];
        r
    else
      var r := ScanItems(d, items[1..]);
      assert forall i :: 0 <= i < |items[1..]| ==> items[1..][i] == items[i + 1];
      r
  }

  /** The loop over the scripts: one that does not parse is skipped. */
  function ScanScripts(d: PageData, scripts: seq<string>, parse: JsonParser): (r: PageData)
    ensures (forall i :: 0 <= i < |scripts| ==> parse(scripts[i]).None?) ==> r == d
    decreases |scripts|
  {
    if |scripts| == 0 then d
    else match parse(scripts[0])
      case None =>
        assert forall i :: 0 <= i < |scripts[1..]| ==> scripts[1..][i] == scripts[i + 1];
        ScanScripts(d, scripts[1..], parse)
      case Some(j) =>
        var s := ScanItems(d, BlockItems(j));
        if s.found then s.data else ScanScripts(s.data, scripts[1..], parse)
  }

  /** `extractFromStructuredData()`. */
  function ExtractFromStructuredData(page: Page, parse: JsonParser): (r: PageData)
    ensures (forall i :: 0 <= i < |page.scripts| ==> parse(page.scripts[i]).None?) ==> r == NoData
  {
    ScanScripts(NoData, page.scripts, parse)
  }

  // ---------------------------------------------------------------------------
  // Selectors and OpenGraph
  // ---------------------------------------------------------------------------

  /** The selector matches an element whose trimmed text is not empty. */
  predicate HasText(query: string -> Option<string>, selector: string) {
    query(selector).Some? && Trim(query(selector).value) != ""
  }

  /** Selector `i` is the first whose element has non-empty trimmed text. */
  predicate FirstTextAt(selectors: seq<string>, query: string -> Option<string>, i: nat) {
    i < |selectors| && HasText(query, selectors[i]) && forall j :: 0 <= j < i ==> !HasText(query, selectors[j])
  }

  /**
   * `v` is what one selector cascade may yield: `null` exactly when no
   * selector has text, else the trimmed text of the first one that has.
   */
  ghost predicate PicksFirstText(selectors: seq<string>, query: string -> Option<string>, v: Option<string>) {
    && (v.None? <==> forall i :: 0 <= i < |selectors| ==> !HasText(query, selectors[i]))
    && (v.Some? ==> exists i: nat :: FirstTextAt(selectors, query, i) && v.value == Trim(query(selectors[i]).value))
  }

  /** One selector cascade: the trimmed text of the first selector that has some, else `null`. */
  function FirstText(selectors: seq<string>, query: string -> Option<string>): (r: Option<string>)
    ensures PicksFirstText(selectors, query, r)
    ensures r.Some? ==> Truthy(r) && IsTrimmed(r.value)
  {
    match FindIndex(selectors, (s: string) => HasText(query, s))
    case None => None
    case Some(i) =>
      assert FirstTextAt(selectors, query, i);
      Some(Trim(query(selectors[i]).value))
  }

  /** `extractFromSelectors()`. */
  function ExtractFromSelectors(page: Page): (r: PageData)
    ensures PicksFirstText(TitleSelectors, page.query, r.title)
    ensures PicksFirstText(CompanySelectors, page.query, r.company)
    ensures PicksFirstText(LocationSelectors, page.query, r.location)
    ensures PicksFirstText(DescriptionSelectors, page.query, r.description)
  {
    PageData(
      FirstText(TitleSelectors, page.query),
      FirstText(CompanySelectors, page.query),
      FirstText(LocationSelectors, page.query),
      FirstText(DescriptionSelectors, page.query))
  }

  /** `extractFromOpenGraph()`: three tags; there is no location. */
  function ExtractFromOpenGraph(page: Page): (r: PageData)
    ensures r.location.None?
  {
    PageData(page.meta("og:title"), page.meta("og:site_name"), None, page.meta("og:description"))
  }

  /** The `||` merge: structured, then selectors, then OpenGraph; location from the first two only. */
  function MergeSources(structured: PageData, selectors: PageData, og: PageData): (r: PageData)
    ensures Truthy(r.title) <==> Truthy(structured.title) || Truthy(selectors.title) || Truthy(og.title)
    ensures Truthy(r.company) <==> Truthy(structured.company) || Truthy(selectors.company) || Truthy(og.company)
    ensures Truthy(r.location) <==> Truthy(structured.location) || Truthy(selectors.location)
    ensures Truthy(r.description) <==> Truthy(structured.description) || Truthy(selectors.description) || Truthy(og.description)
    ensures Truthy(structured.title) ==> r.title == structured.title
    ensures !Truthy(structured.title) && Truthy(selectors.title) ==> r.title == selectors.title
    ensures !Truthy(structured.title) && !Truthy(selectors.title) ==> r.title == og.title
    ensures Truthy(structured.company) ==> r.company == structured.company
    ensures !Truthy(structured.company) && Truthy(selectors.company) ==> r.company == selectors.company
    ensures !Truthy(structured.company) && !Truthy(selectors.company) ==> r.company == og.company
    ensures Truthy(structured.location) ==> r.location == structured.location
    ensures !Truthy(structured.location) ==> r.location == selectors.location
    ensures Truthy(structured.description) ==> r.description == structured.description
    ensures !Truthy(structured.description) && Truthy(selectors.description) ==> r.description == selectors.description
    ensures !Truthy(structured.description) && !Truthy(selectors.description) ==> r.description == og.description
  {
    PageData(
      JsOr(JsOr(structured.title, selectors.title), og.title),
      JsOr(JsOr(structured.company, selectors.company), og.company),
      JsOr(structured.location, selectors.location),
      JsOr(JsOr(structured.description, selectors.description), og.description))
  }

  /** `extractJobData()`: the structured result alone when it has a title, else the merge. */
  function ExtractJobData(page: Page, parse: JsonParser): (r: PageData)
    ensures Truthy(ExtractFromStructuredData(page, parse).title) ==> r == ExtractFromStructuredData(page, parse)
    ensures !Truthy(ExtractFromStructuredData(page, parse).title) ==>
      r == MergeSources(ExtractFromStructuredData(page, parse), ExtractFromSelectors(page), ExtractFromOpenGraph(page))
  {
    var structured := ExtractFromStructuredData(page, parse);
    if Truthy(structured.title) then structured
    else MergeSources(structured, ExtractFromSelectors(page), ExtractFromOpenGraph(page))
  }

  // ---------------------------------------------------------------------------
  // Properties
  // ---------------------------------------------------------------------------

  /** The first `JobPosting` that names a title ends the scan; the items after it are never read. */
  lemma FirstTitledPostingStops(d: PageData, item: Json, rest: seq<Json>)
    requires IsJobPosting(item) && Present(Get(Some(item), "title"))
    ensures ScanItems(d, [item] + rest) == Scan(ApplyPosting(d, item), true)
  {
    assert ([item] + rest)[0] == item;
  }

  /** Once a script's scan has found a title, the scripts after it are never read. */
  lemma LaterScriptsIgnored(d: PageData, script: string, rest: seq<string>, parse: JsonParser)
    requires parse(script).Some? && ScanItems(d, BlockItems(parse(script).value)).found
    ensures ScanScripts(d, [script] + rest, parse) == ScanItems(d, BlockItems(parse(script).value)).data
  {
    assert ([script] + rest)[0] == script;
  }

  /** A script whose JSON does not parse is skipped and the loop goes on. */
  lemma MalformedScriptSkipped(d: PageData, script: string, rest: seq<string>, parse: JsonParser)
    requires parse(script).None?
    ensures ScanScripts(d, [script] + rest, parse) == ScanScripts(d, rest, parse)
  {
    assert ([script] + rest)[0] == script;
    assert ([script] + rest)[1..] == rest;
  }

  /**
   * A company set by an earlier, untitled posting survives into the early
   * return of a later, titled one that names no company.
   */
  lemma EarlierFieldsPersist(d: PageData, first: Json, second: Json, rest: seq<Json>)
    requires IsJobPosting(first) && TextValue(Get(Some(first), "title")).None? && !Truthy(d.title)
    requires IsJobPosting(second) && TextValue(Get(Some(second), "title")).Some?
    requires TextValue(Path(Some(second), ["hiringOrganization", "name"])).None?
    ensures ScanItems(d, [first, second] + rest).found
    ensures ScanItems(d, [first, second] + rest).data.company == ApplyPosting(d, first).company
  {
    var items := [first, second] + rest;
    assert items[0] == first;
    assert items[1..] == [second] + rest;
    FirstTitledPostingStops(ApplyPosting(d, first), second, rest);
  }

  /** Merging a record with itself in all three tiers gives it back. */
  lemma MergeSourcesSameRecord(d: PageData)
    ensures MergeSources(d, d, d) == d
  {
  }

  /** A page with only OpenGraph data gets OpenGraph's title, company and description, and no location. */
  lemma MergeSourcesOnlyOpenGraph(og: PageData)
    ensures MergeSources(NoData, NoData, og) == og.(location := None)
  {
  }

  /** A location is taken from structured data or the selectors, never from OpenGraph. */
  lemma LocationIgnoresOpenGraph(page: Page, meta2: string -> Option<string>, parse: JsonParser)
    ensures ExtractJobData(page, parse).location == ExtractJobData(page.(meta := meta2), parse).location
  {
    assert ExtractFromStructuredData(page, parse) == ExtractFromStructuredData(page.(meta := meta2), parse);
    assert ExtractFromSelectors(page) == ExtractFromSelectors(page.(meta := meta2));
  }

  /** With a structured title, the selectors and OpenGraph tags make no difference at all. */
  lemma StructuredTitleDecides(page: Page, query2: string -> Option<string>, meta2: string -> Option<string>, parse: JsonParser)
    requires Truthy(ExtractFromStructuredData(page, parse).title)
    ensures ExtractJobData(page, parse) == ExtractJobData(page.(query := query2, meta := meta2), parse)
  {
    assert ExtractFromStructuredData(page, parse) == ExtractFromStructuredData(page.(query := query2, meta := meta2), parse);
  }
}
