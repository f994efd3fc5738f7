/**
 * `src/lib/scraper.ts`: a job record from a fetched web page.
 *
 * Three extractors read the page: OpenGraph tags, the basic `<title>` and
 * meta description, and JSON-LD `JobPosting` items. `ParseJobFromHtml`
 * merges them field by field, structured data first, OpenGraph next,
 * basic metadata last. The regular expressions and `JSON.parse` are
 * parameters; the fetch is an outcome handed in.
 */
module Scraper {
  import opened Wrappers
  import opened Text
  import opened Regex
  import opened Json

  /** The optional fields of `ScrapedJobData` (a `Partial<ScrapedJobData>` without `url`). */
  datatype Fields = Fields(
    title: Option<string>,
    company: Option<string>,
    location: Option<string>,
    description: Option<string>,
    logoUrl: Option<string>,
    salaryRange: Option<string>)

  /** The empty partial record `{}`. */
  const NoFields := Fields(None, None, None, None, None, None)

  /** `ScrapedJobData`: the page's URL and whatever fields were found. */
  datatype ScrapedJob = ScrapedJob(url: string, fields: Fields)

  /** The regular expressions of the module. */
  datatype HtmlPatterns = HtmlPatterns(
    ogTitle: Capture,          // og:title content
    ogDescription: Capture,    // og:description content
    ogImage: Capture,          // og:image content
    ogSiteName: Capture,       // og:site_name content
    pageTitle: Capture,        // /<title>([^<]+)<\/title>/i
    metaDescription: Capture,  // meta name="description" content
    jsonLdBlocks: Scanner)     // every JSON-LD script element, its script tags removed

  // ---------------------------------------------------------------------------
  // The three extractors
  // ---------------------------------------------------------------------------

  /** `extractOpenGraphData(html)`: four tags, four fields, each set only when its tag matches. */
  function ExtractOpenGraphData(html: string, rx: HtmlPatterns): (r: Fields)
    ensures r.title == rx.ogTitle(html) && r.description == rx.ogDescription(html)
    ensures r.logoUrl == rx.ogImage(html) && r.company == rx.ogSiteName(html)
    ensures r.location.None? && r.salaryRange.None?
  {
    Fields(
      title := rx.ogTitle(html),
      company := rx.ogSiteName(html),
      location := None,
      description := rx.ogDescription(html),
      logoUrl := rx.ogImage(html),
      salaryRange := None)
  }

  /** `extractBasicMetadata(html)`: the trimmed page title and the meta description. */
  function ExtractBasicMetadata(html: string, rx: HtmlPatterns): (r: Fields)
    ensures r.title.Some? <==> rx.pageTitle(html).Some?
    ensures r.title.Some? ==> r.title.value == Trim(rx.pageTitle(html).value) && IsTrimmed(r.title.value)
    ensures r.description == rx.metaDescription(html)
    ensures r.company.None? && r.location.None? && r.logoUrl.None? && r.salaryRange.None?
  {
    var t := rx.pageTitle(html);
    Fields(
      title := if t.Some? then Some(Trim(t.value)) else None,
      company := None,
      location := None,
      description := rx.metaDescription(html),
      logoUrl := None,
      salaryRange := None)
  }

  /** `base` with `v` written over it when `v` is there (one property of an object spread). */
  function Over(base: Option<string>, v: Option<string>): (r: Option<string>)
    ensures v.Some? ==> r == v
    ensures v.None? ==> r == base
  {
    if v.Some? then v else base
  }

  /** The location of one `JobPosting`: locality and region, the truthy ones, joined by ", ". */
  function PostingLocation(item: Json): (r: Option<string>)
    ensures r.Some? <==>
      (Present(Path(Some(item), ["jobLocation", "address", "addressLocality"])) || Present(Path(Some(item), ["jobLocation", "address", "addressRegion"])))
  {
    var locality := Path(Some(item), ["jobLocation", "address", "addressLocality"]);
    var region := Path(Some(item), ["jobLocation", "address", "addressRegion"]);
    var r := JoinParts([locality, region]);
    assert r.None? <==> !Present([locality, region][0]) && !Present([locality, region][1]);
    r
  }

  /** `String(item.baseSalary.value)` when that value is truthy. */
  function PostingSalary(item: Json): (r: Option<string>)
    ensures r.Some? <==> Present(Path(Some(item), ["baseSalary", "value"]))
  {
    var v := Path(Some(item), ["baseSalary", "value"]);
    if Present(v) then Some(ToText(v.value)) else None
  }

  /**
   * The body of the `JobPosting` branch: every field the item provides is
   * written over the record, every other field is kept.
   */
  function ApplyPosting(d: Fields, item: Json): (r: Fields)
    ensures r.title == Over(d.title, TextValue(Get(Some(item), "title")))
    ensures r.description == Over(d.description, TextValue(Get(Some(item), "description")))
    ensures r.company == Over(d.company, TextValue(Path(Some(item), ["hiringOrganization", "name"])))
    ensures r.logoUrl == Over(d.logoUrl, TextValue(Path(Some(item), ["hiringOrganization", "logo"])))
    ensures r.location == Over(d.location, PostingLocation(item))
    ensures r.salaryRange == Over(d.salaryRange, PostingSalary(item))
  {
    Fields(
      title := Over(d.title, TextValue(Get(Some(item), "title"))),
      company := Over(d.company, TextValue(Path(Some(item), ["hiringOrganization", "name"]))),
      location := Over(d.location, PostingLocation(item)),
      description := Over(d.description, TextValue(Get(Some(item), "description"))),
      logoUrl := Over(d.logoUrl, TextValue(Path(Some(item), ["hiringOrganization", "logo"]))),
      salaryRange := Over(d.salaryRange, PostingSalary(item)))
  }

  /**
   * The loop over one block's items. Every `JobPosting` is applied in turn;
   * a `null` item makes `item['@type']` throw, which ends the block.
   */
  function ApplyItems(d: Fields, items: seq<Json>): (r: Fields)
    decreases |items|
  {
    if |items| == 0 then d
    else if items[0].JNull? then d
    else ApplyItems(if IsJobPosting(items[0]) then ApplyPosting(d, items[0]) else d, items[1..])
  }

  /** One block: parsed after trimming, skipped when it does not parse. */
  function ApplyBlock(d: Fields, block: string, parse: JsonParser): (r: Fields)
    ensures parse(Trim(block)).None? ==> r == d
  {
    match parse(Trim(block))
    case None => d
    case Some(j) => ApplyItems(d, BlockItems(j))
  }

  /** The loop over the JSON-LD blocks, in page order. */
  function ApplyBlocks(d: Fields, blocks: seq<string>, parse: JsonParser): (r: Fields)
    decreases |blocks|
  {
    if |blocks| == 0 then d else ApplyBlocks(ApplyBlock(d, blocks[0], parse), blocks[1..], parse)
  }

  /** `extractStructuredData(html)`. */
  function ExtractStructuredData(html: string, rx: HtmlPatterns, parse: JsonParser): (r: Fields)
    ensures (forall i :: 0 <= i < |rx.jsonLdBlocks(html)| ==> parse(Trim(rx.jsonLdBlocks(html)[i])).None?) ==> r == NoFields
  {
    var blocks := rx.jsonLdBlocks(html);
    assert (forall i :: 0 <= i < |blocks| ==> parse(Trim(blocks[i])).None?) ==> ApplyBlocks(NoFields, blocks, parse) == NoFields by {
      if forall i :: 0 <= i < |blocks| ==> parse(Trim(blocks[i])).None? {
        OnlyMalformedBlocks(NoFields, blocks, parse);
      }
    }
    ApplyBlocks(NoFields, blocks, parse)
  }

  // ---------------------------------------------------------------------------
  // Merge and fetch
  // ---------------------------------------------------------------------------

  /** `{...lower, ...higher}` on the optional fields. */
  function Merge(lower: Fields, higher: Fields): (r: Fields)
    ensures r.title == Over(lower.title, higher.title)
    ensures r.company == Over(lower.company, higher.company)
    ensures r.location == Over(lower.location, higher.location)
    ensures r.description == Over(lower.description, higher.description)
    ensures r.logoUrl == Over(lower.logoUrl, higher.logoUrl)
    ensures r.salaryRange == Over(lower.salaryRange, higher.salaryRange)
  {
    Fields(
      Over(lower.title, higher.title),
      Over(lower.company, higher.company),
      Over(lower.location, higher.location),
      Over(lower.description, higher.description),
      Over(lower.logoUrl, higher.logoUrl),
      Over(lower.salaryRange, higher.salaryRange))
  }

  /**
   * `parseJobFromHtml(html, url)`: `{url, ...basic, ...openGraph, ...structured}`.
   * Each field comes from the structured data if it set it, else from
   * OpenGraph, else from the basic metadata; the URL is the caller's.
   */
  function ParseJobFromHtml(html: string, url: string, rx: HtmlPatterns, parse: JsonParser): (r: ScrapedJob)
    ensures r.url == url
    ensures var s, o, b := ExtractStructuredData(html, rx, parse), ExtractOpenGraphData(html, rx), ExtractBasicMetadata(html, rx);
      && r.fields.title == (if s.title.Some? then s.title else if o.title.Some? then o.title else b.title)
      && r.fields.description == (if s.description.Some? then s.description else if o.description.Some? then o.description else b.description)
      && r.fields.company == (if s.company.Some? then s.company else o.company)
      && r.fields.logoUrl == (if s.logoUrl.Some? then s.logoUrl else o.logoUrl)
      && r.fields.location == s.location && r.fields.salaryRange == s.salaryRange
  {
    var structured := ExtractStructuredData(html, rx, parse);
    var openGraph := ExtractOpenGraphData(html, rx);
    var basic := ExtractBasicMetadata(html, rx);
    ScrapedJob(url, Merge(Merge(basic, openGraph), structured))
  }

  /** What `fetch(url)` and `response.text()` came back with. */
  datatype FetchOutcome =
    | NetworkFailure                        // fetch or reading the body threw
    | Response(ok: bool, body: string)      // `response.ok` and `await response.text()`

  /** `scrapeJobFromUrl(url)`: never fails; anything but an OK response gives the bare URL. */
  function ScrapeJobFromUrl(url: string, fetched: FetchOutcome, rx: HtmlPatterns, parse: JsonParser): (r: ScrapedJob)
    ensures r.url == url
    ensures !(fetched.Response? && fetched.ok) ==> r.fields == NoFields
    ensures fetched.Response? && fetched.ok ==> r == ParseJobFromHtml(fetched.body, url, rx, parse)
  {
    if fetched.Response? && fetched.ok then ParseJobFromHtml(fetched.body, url, rx, parse)
    else ScrapedJob(url, NoFields)
  }

  // ---------------------------------------------------------------------------
  // Properties
  // ---------------------------------------------------------------------------

  /** `{...a, ...b, ...c}` does not depend on how the spreads are grouped. */
  lemma MergeAssociative(a: Fields, b: Fields, c: Fields)
    ensures Merge(Merge(a, b), c) == Merge(a, Merge(b, c))
  {
  }

  /** Spreading the empty record changes nothing, on either side. */
  lemma MergeNoFields(a: Fields)
    ensures Merge(a, NoFields) == a && Merge(NoFields, a) == a
  {
  }

  /** Spreading a record over itself gives it back. */
  lemma MergeIdempotent(a: Fields)
    ensures Merge(a, a) == a
  {
  }

  /**
   * Without a structured title, an OpenGraph title beats the page's
   * `<title>`, whatever that is.
   */
  lemma OpenGraphTitleBeatsPageTitle(html: string, url: string, rx: HtmlPatterns, parse: JsonParser)
    requires ExtractStructuredData(html, rx, parse).title.None?
    requires rx.ogTitle(html).Some?
    ensures ParseJobFromHtml(html, url, rx, parse).fields.title == rx.ogTitle(html)
  {
  }

  /** Location and salary never come from OpenGraph or the basic metadata. */
  lemma LocationOnlyFromStructuredData(html: string, url: string, rx: HtmlPatterns, parse: JsonParser)
    requires ExtractStructuredData(html, rx, parse).location.None?
    ensures ParseJobFromHtml(html, url, rx, parse).fields.location.None?
  {
  }

  /** Items without a `null` among them are applied one after another: no early stop. */
  lemma {:induction false} ApplyItemsAppend(d: Fields, xs: seq<Json>, ys: seq<Json>)
    requires forall i :: 0 <= i < |xs| ==> !xs[i].JNull?
    ensures ApplyItems(d, xs + ys) == ApplyItems(ApplyItems(d, xs), ys)
    decreases |xs|
  {
    if |xs| == 0 {
      assert xs + ys == ys;
    } else {
      assert (xs + ys)[0] == xs[0];
      assert (xs + ys)[1..] == xs[1..] + ys;
      ApplyItemsAppend(if IsJobPosting(xs[0]) then ApplyPosting(d, xs[0]) else d, xs[1..], ys);
    }
  }

  /** A `null` item ends its block: nothing after it is read. */
  lemma {:induction false} NullItemEndsBlock(d: Fields, xs: seq<Json>, ys: seq<Json>)
    requires forall i :: 0 <= i < |xs| ==> !xs[i].JNull?
    ensures ApplyItems(d, xs + [JNull] + ys) == ApplyItems(d, xs)
  {
    ApplyItemsAppend(d, xs, [JNull] + ys);
    assert xs + [JNull] + ys == xs + ([JNull] + ys);
  }

  /**
   * The last `JobPosting` that names a title decides the title: later items
   * overwrite earlier ones, there is no stop at the first posting.
   */
  lemma LastTitleWins(d: Fields, xs: seq<Json>, item: Json, t: string)
    requires forall i :: 0 <= i < |xs| ==> !xs[i].JNull?
    requires IsJobPosting(item) && Get(Some(item), "title") == Some(JStr(t)) && t != ""
    ensures ApplyItems(d, xs + [item]).title == Some(t)
  {
    ApplyItemsAppend(d, xs, [item]);
    var e := ApplyItems(d, xs);
    assert ApplyItems(e, [item]) == ApplyItems(ApplyPosting(e, item), []);
  }

  /** A block that does not parse is skipped and the blocks after it are still read. */
  lemma MalformedBlockSkipped(d: Fields, block: string, rest: seq<string>, parse: JsonParser)
    requires parse(Trim(block)).None?
    ensures ApplyBlocks(d, [block] + rest, parse) == ApplyBlocks(d, rest, parse)
  {
    assert ([block] + rest)[1..] == rest;
  }

  /** A page whose JSON-LD blocks all fail to parse has no structured data: `{}`. */
  lemma {:induction false} OnlyMalformedBlocks(d: Fields, blocks: seq<string>, parse: JsonParser)
    requires forall i :: 0 <= i < |blocks| ==> parse(Trim(blocks[i])).None?
    ensures ApplyBlocks(d, blocks, parse) == d
    decreases |blocks|
  {
    if |blocks| > 0 {
      OnlyMalformedBlocks(d, blocks[1..], parse);
    }
  }

  /** A top-level array is read exactly as its items would be read one block each. */
  lemma {:induction false} ArrayBlockIsItemList(d: Fields, block: string, items: seq<Json>, parse: JsonParser)
    requires parse(Trim(block)) == Some(JArr(items))
    ensures ApplyBlock(d, block, parse) == ApplyItems(d, items)
  {
  }

  /** A posting with a locality and a region gives "locality, region": "San Francisco, CA". */
  lemma PostingLocationBoth(item: Json, locality: string, region: string)
    requires Path(Some(item), ["jobLocation", "address", "addressLocality"]) == Some(JStr(locality))
    requires Path(Some(item), ["jobLocation", "address", "addressRegion"]) == Some(JStr(region))
    requires locality != "" && region != ""
    ensures PostingLocation(item) == Some(locality + ", " + region)
  {
    JoinTwoStrings(locality, region);
  }

  /** A posting with only a locality gives the locality alone, without a separator. */
  lemma PostingLocationLocalityOnly(item: Json, locality: string)
    requires Path(Some(item), ["jobLocation", "address", "addressLocality"]) == Some(JStr(locality))
    requires !Present(Path(Some(item), ["jobLocation", "address", "addressRegion"]))
    requires locality != ""
    ensures PostingLocation(item) == Some(locality)
  {
    var region := Path(Some(item), ["jobLocation", "address", "addressRegion"]);
    JoinOneString(locality, [region]);
  }

  /** With nothing structured and no OpenGraph tags, a page's title is its trimmed `<title>`. */
  lemma TitleFallsBackToPageTitle(html: string, url: string, rx: HtmlPatterns, parse: JsonParser)
    requires ExtractStructuredData(html, rx, parse).title.None?
    requires rx.ogTitle(html).None?
    requires rx.pageTitle(html).Some?
    ensures ParseJobFromHtml(html, url, rx, parse).fields.title == Some(Trim(rx.pageTitle(html).value))
  {
  }
}
