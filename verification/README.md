# JobSync capture and de-duplication core, in Dafny

JobSync is a job-application tracker. This project models the part of it that
turns outside material into job records and keeps those records free of
duplicates:

- **Duplicate detection** (`Dedup`): URL normal forms, Levenshtein distance,
  title similarity, and the rule that decides whether two jobs may be the same.
- **Extractors**: job fields read from alert e-mails (`EmailParser`), from a
  fetched HTML page (`Scraper`), and from the browser extension's page scan
  (`Extension`).
- **Capture flows**: the capture action (`CaptureActions`), the capture HTTP
  route (`CaptureRoute`) and the e-mail ingest route (`EmailIngest`). Each
  resolves or creates the company, title, location and source rows, scans
  recent jobs for a duplicate, and either reports it or creates the job.
- **Record actions**: the server actions for jobs (`JobActions`), companies
  (`CompanyActions`), locations (`LocationActions`) and job titles
  (`JobTitleActions`). They cover uniqueness keys, ownership guards and
  delete guards. The user row created on first use is in `UserEnsure`.
- **Client helpers**: the JSON import resolvers (`ImportJob`), the
  translation lookup with `{name}` interpolation (`I18n`), and the map's
  tile enumeration (`TileLayer`).

The record store is an immutable value (`Store.Db`) that every action takes
and returns. Each row carries its owner (`createdBy` or `userId`), and rows
are found by their normalised `value` key and owner. New ids come from a
counter in the store. The session user, the clock (`now`), the URL parser,
`JSON.parse`, the regular expressions, `fetch`, the geocoder, DOM queries,
`Date.parse` and zod's e-mail check are all parameters: abstract functions
or values that the model reads but does not define. `Text` models the
JavaScript string built-ins the code relies on (`trim`, ASCII `toLowerCase`,
`split`, `join`, first-occurrence `replace`). `Seqs` models the array
built-ins (`find`, `findIndex`, `filter`, `slice`, first-occurrence
de-duplication). `Json` models a parsed JSON value with JavaScript
truthiness.

Where the repository's description and its code disagree, the model follows
the code:

- The capture route requires `url` in the request body. It answers 409, not
  200, for a duplicate. A request without a session gets 500, because the
  capture action reports "Not authenticated" as a plain failure
  (`CaptureRoute.UnauthenticatedPostIs500`).
- The job source the capture action creates has the value
  "browser-extension". The capture route's test file
  `__tests__/job-capture-api.spec.ts` posts a different body and expects
  200, 400 and "extension"; it is not used as a reference.
- The candidate queries (`take: 50` with no `orderBy`) return jobs in store
  order. The model does not treat them as "the 50 most recent".
- The server HTML extractor does not stop at the first JobPosting item: a
  later item overwrites the earlier one's fields (`Scraper.LastTitleWins`).
  The browser extension does stop, at the first posting with a title
  (`Extension.FirstTitledPostingStops`).

`updateCompany` and `updateJob` compare the session user with a user id
that the form itself carries. `updateJobLocation` skips the comparison when
the form gives no `createdBy`. All three then update the row by its id
alone. `CompanyActions.UpdateCompanyReachesOthersRow` and
`LocationActions.UpdateWithoutCreatedByReachesAnyRow` prove what this allows
for companies and locations. The job case is listed under Findings.

## Model

| member | source | states |
|---|---|---|
| Store.ValueKey | src/actions/jobtitle.actions.ts:95 | a key is trimmed and lower case |
| Store.ValueKeyEitherOrder | src/app/api/jobs/email-ingest/route.ts:64 | trimming then lower-casing gives the same key as lower-casing then trimming |
| Store.ValueKeyIdempotent | src/actions/jobtitle.actions.ts:95 | a key is its own key |
| Store.ValueKeyIgnoresCase | src/actions/jobtitle.actions.ts:95 | labels differing only in case share a key |
| Store.FindByKey | src/app/api/jobs/email-ingest/route.ts:65-72 | a lookup on `value_createdBy` finds a row with that value and owner exactly when one exists |
| Store.EnsureKeyed | src/app/api/jobs/email-ingest/route.ts:65-82 | the existing row with the key is returned and nothing is written; otherwise one new row is appended |
| Store.EnsureKeyedTwice | src/app/api/jobs/email-ingest/route.ts:65-82 | a second find-or-create with the same key returns the first row and adds nothing |
| Store.EnsureKeyedKeepsKeysUnique | src/app/api/jobs/email-ingest/route.ts:65-82 | find-or-create keeps `(value, createdBy)` unique |
| Store.AppendKeepsKeysUnique | src/actions/jobtitle.actions.ts:97-101 | appending a row whose key is free keeps keys unique |
| Store.RecentCompanyJobs | src/app/api/jobs/email-ingest/route.ts:157-169 | at most 50 jobs, each the user's own, at the company and created within the last 30 days |
| Store.RecentCompanyJobsComplete | src/app/api/jobs/email-ingest/route.ts:157-169 | when fewer than 50 are returned, every qualifying job is among them |
| Store.CountJobs | src/actions/jobtitle.actions.ts:120-124 | a count is zero exactly when no job qualifies |
| Store.DeleteOwned | src/actions/jobtitle.actions.ts:132-137 | delete by id and owner fails when no such row exists; otherwise exactly that row goes |
| Store.DeleteBlocked | src/actions/jobtitle.actions.ts:127-129 | the refusal message names the entity and the job count |
| Store.RefCount | src/actions/jobtitle.actions.ts:120-124 | zero exactly when no job points at the row |
| Store.GuardedDelete | src/actions/jobtitle.actions.ts:120-137 | refused while any job of any user points at the row; otherwise the owned row is deleted or "not found" is reported |
| Store.GuardedDeleteKeepsRefs | src/actions/jobtitle.actions.ts:120-137 | a guarded delete never leaves a job pointing at a row that is gone |
| UserEnsure.EmailOfPlaceholderDistinct | src/utils/user.ensure.ts:8 | two sessions without an e-mail get the same placeholder address exactly when their ids are equal |
| UserEnsure.EnsureUser | src/utils/user.ensure.ts:11-24 | found by id, else by e-mail, else created; only the user table changes |
| UserEnsure.EnsureUserExists | src/utils/user.ensure.ts:5-7 | no session user fails with "Not authenticated" |
| UserEnsure.EnsureUserIdempotent | src/utils/user.ensure.ts:11-24 | a second call returns the same row and writes nothing |
| UserEnsure.CreatedUserFoundById | src/utils/user.ensure.ts:11-24 | a user created here is found by id later, whatever name and e-mail the session then carries |
| JobTitleActions.Relabel | src/actions/jobtitle.actions.ts:99 | only the label of one row changes |
| JobTitleActions.UpsertTitle | src/actions/jobtitle.actions.ts:97-101 | an existing key is relabelled in place; a new key appends one row; no other row is lost |
| JobTitleActions.CreateJobTitle | src/actions/jobtitle.actions.ts:84-108 | no session fails with "Not authenticated"; otherwise the upserted row; no other table changes |
| JobTitleActions.DeleteJobTitle | src/actions/jobtitle.actions.ts:110-143 | refused while jobs use the title, and a refusal writes nothing; it succeeds exactly when a user is signed in, no job uses the title and the user owns a title with that id, and then removes that title and every other title stays |
| JobTitleActions.RelabelKeepsKeysUnique | src/actions/jobtitle.actions.ts:99 | relabelling keeps keys unique |
| JobTitleActions.CreateJobTitleKeepsKeysUnique | src/actions/jobtitle.actions.ts:95-101 | creating a title never makes a second row with the same key |
| JobTitleActions.CreateJobTitleTwice | src/actions/jobtitle.actions.ts:95-101 | two creates with the same key add at most one row; the second returns the first's row relabelled |
| JobTitleActions.DeleteJobTitleKeepsJobsResolved | src/actions/jobtitle.actions.ts:120-137 | after a delete every job still names an existing title |
| Dedup.StripTrackingParams | src/utils/deduplication.utils.ts:20-21 | the seven tracking keys are deleted wherever they occur; every other pair survives in order |
| Dedup.StripTrailingSlashes | src/utils/deduplication.utils.ts:27 | the result is the input without its whole trailing run of '/' and never ends in '/' |
| Dedup.NormalizeUrl | src/utils/deduplication.utils.ts:13-40 | a missing or empty URL normalises to ""; every normal form is lower case |
| Dedup.NormalizeUrlUnparsable | src/utils/deduplication.utils.ts:36-39 | text the URL parser rejects falls back to lower-cased, trimmed text |
| Dedup.NormalizeIgnoresTrailingSlash | src/utils/deduplication.utils.ts:24-27 | adding a trailing '/' to the path does not change the normal form |
| Dedup.NormalizeIgnoresWww | src/utils/deduplication.utils.ts:24 | a leading "www." on the host does not change the normal form |
| Dedup.NormalizeIgnoresTracking | src/utils/deduplication.utils.ts:20-33 | appending a tracking parameter to the query does not change the normal form |
| Dedup.NormalizeOnlyTracking | src/utils/deduplication.utils.ts:29-33 | a query made only of tracking parameters leaves no "?" behind |
| Dedup.DistanceEdge | src/utils/deduplication.utils.ts:52-57 | row 0 and column 0 of the table hold the distance to the empty prefix |
| Dedup.DistanceCell | src/utils/deduplication.utils.ts:60-68 | every inner cell is the least of deletion, insertion and substitution |
| Dedup.CellStep | src/utils/deduplication.utils.ts:60-68 | an inner cell is the least of its three neighbours plus the edit costs |
| Dedup.CellOfPrefixes | src/utils/deduplication.utils.ts:46-72 | a cell reads only the prefixes it covers |
| Dedup.CellIsPrefixDistance | src/utils/deduplication.utils.ts:46-72 | each cell of the table is the edit distance of the prefixes it covers |
| Dedup.LevenshteinDistance | src/utils/deduplication.utils.ts:46-72 | the table-filling loop returns the edit distance of the two strings |
| Dedup.DistanceSelfAndEmpty | src/utils/deduplication.utils.ts:46-72 | distance 0 to itself; distance to the empty string is the length |
| Dedup.DistanceSymmetric | src/utils/deduplication.utils.ts:46-72 | the distance does not depend on argument order |
| Dedup.DistanceBounds | src/utils/deduplication.utils.ts:46-72 | the distance lies between the length difference and the longer length |
| Dedup.DistanceZeroIffEqual | src/utils/deduplication.utils.ts:46-72 | distance 0 exactly for equal strings |
| Dedup.Similarity | src/utils/deduplication.utils.ts:78-88 | the ratio lies in [0, 1] |
| Dedup.SimilaritySymmetric | src/utils/deduplication.utils.ts:78-88 | the ratio does not depend on argument order |
| Dedup.SimilarityOneIffEqual | src/utils/deduplication.utils.ts:78-88 | the ratio is 1 exactly for equal strings, two empty strings included |
| Dedup.StripParenSuffix | src/utils/deduplication.utils.ts:105 | removing a trailing parenthetical only shortens the title to a prefix |
| Dedup.NormalizeJobTitle | src/utils/deduplication.utils.ts:96-108 | a missing title gives ""; every result is lower case, trimmed, collapsed and free of a trailing parenthetical |
| Dedup.StripParenShape | src/utils/deduplication.utils.ts:105-107 | stripping the parenthetical of collapsed lower-case text yields a normal title |
| Dedup.NormalizeJobTitleIdempotent | src/utils/deduplication.utils.ts:96-108 | normalising a normal title changes nothing |
| Dedup.NormalizeJobTitleIgnoresCase | src/utils/deduplication.utils.ts:99 | titles differing only in letter case have the same normal form |
| Dedup.TitlesSimilarBlankAndEqual | src/utils/deduplication.utils.ts:121-127 | blank titles never match; equal non-blank normal forms always match |
| Dedup.TitlesSimilarIffRatio | src/utils/deduplication.utils.ts:124-131 | non-blank titles match exactly when their similarity reaches the threshold |
| Dedup.TitlesSimilarSymmetric | src/utils/deduplication.utils.ts:116-132 | title similarity does not depend on argument order |
| Dedup.TitlesSimilarMonotone | src/utils/deduplication.utils.ts:131 | lowering the threshold never loses a match |
| Dedup.UrlsSimilarEquivalence | src/utils/deduplication.utils.ts:139-149 | URL similarity is symmetric, transitive, and reflexive exactly on URLs with a non-empty normal form |
| Dedup.ArePotentialDuplicates | src/utils/deduplication.utils.ts:170 | jobs of different companies are never duplicates |
| Dedup.PotentialDuplicatesSymmetric | src/utils/deduplication.utils.ts:157-183 | being a potential duplicate does not depend on argument order |
| Dedup.PotentialDuplicatesWithinCompany | src/utils/deduplication.utils.ts:172-182 | within a company, matching URLs decide, else titles decide; a job with neither URL nor title never matches |
| EmailParser.ExtractUrls | src/utils/email-parser.utils.ts:19-30 | href targets first, then bare URLs; every URL found is listed once, nothing else is listed, and the first is the first href (else the first bare URL) |
| EmailParser.CleanCapture | src/utils/email-parser.utils.ts:47 | a cleaned capture is trimmed and has single spaces only |
| EmailParser.FirstCapture | src/utils/email-parser.utils.ts:43-51 | the first pattern with a non-empty capture wins; nothing is found exactly when no pattern has one |
| EmailParser.GroupOrWhole | src/utils/email-parser.utils.ts:95 | the trimmed group when it is non-empty, else the trimmed whole match |
| EmailParser.FirstMatch | src/utils/email-parser.utils.ts:92-99 | the first pattern that matches at all wins, even with an empty capture |
| EmailParser.DomainLabel | src/utils/email-parser.utils.ts:73 | a label found is the text between some '@' and the next '.'; none is found exactly when no position starts a match |
| EmailParser.LabelHere | src/utils/email-parser.utils.ts:73 | a label found at a position is the text between the '@' there and the next '.'; no '@' there, no label |
| EmailParser.MatchFrom | src/utils/email-parser.utils.ts:73 | the search returns the leftmost position at or after its start where a match begins, and nothing exactly when there is none |
| EmailParser.DomainLabelAt | src/utils/email-parser.utils.ts:73 | an '@' followed by a dot-free name and a '.' gives that name |
| EmailParser.DomainLabelOfAddress | src/utils/email-parser.utils.ts:73-77 | for `local@name.rest` with no '@' in `local` the label is `name` |
| EmailParser.CapitalizeKeepsLetters | src/utils/email-parser.utils.ts:76 | capitalising only changes letter case, and capitalising again changes nothing |
| EmailParser.ExtractCompany | src/utils/email-parser.utils.ts:58-81 | a pattern hit wins; else the capitalised sender domain label; nothing exactly when neither exists |
| EmailParser.TagMatchLength | src/utils/email-parser.utils.ts:143-147 | a tag match starts with '<' and ends with the first following '>' |
| EmailParser.ReplaceAllPlain | src/utils/email-parser.utils.ts:143-147 | text without '<' passes every tag pass unchanged |
| EmailParser.RemoveTagsLeavesNoTag | src/utils/email-parser.utils.ts:147 | after the last pass no '<' is followed by a '>' |
| EmailParser.StripTags | src/utils/email-parser.utils.ts:142-147 | the five passes leave nothing tag-shaped |
| EmailParser.StripTagsPlain | src/utils/email-parser.utils.ts:142-147 | plain text is left alone |
| EmailParser.StripTagsLineBreak | src/utils/email-parser.utils.ts:143 | a `<br>` in plain text becomes one line break |
| EmailParser.StripTagsParagraphEnd | src/utils/email-parser.utils.ts:144 | a `</p>` in plain text becomes one line break |
| EmailParser.CleanLine | src/utils/email-parser.utils.ts:152 | a cleaned line holds no line break |
| EmailParser.CleanLineShape | src/utils/email-parser.utils.ts:152 | a cleaned line is trimmed, single-spaced and its own clean-up |
| EmailParser.CleanLines | src/utils/email-parser.utils.ts:151-153 | the kept lines are non-empty and free of line breaks |
| EmailParser.CleanLinesIdempotent | src/utils/email-parser.utils.ts:151-153 | cleaning cleaned lines changes nothing |
| EmailParser.NormalizeLinesLines | src/utils/email-parser.utils.ts:150-154 | splitting the result on "\n" gives back exactly the non-empty cleaned lines |
| EmailParser.NormalizeLinesIdempotent | src/utils/email-parser.utils.ts:150-154 | normalising lines twice is normalising them once |
| EmailParser.Description | src/utils/email-parser.utils.ts:162 | a prefix of the body of at most the maximum length, the whole body when it fits |
| EmailParser.DescriptionIgnoresSubject | src/utils/email-parser.utils.ts:162 | the description depends on the body alone |
| EmailParser.TitleFallsBackToSubject | src/utils/email-parser.utils.ts:158 | with no title pattern hit the subject is the title |
| EmailParser.EmptyEmailHasNoTitle | src/utils/email-parser.utils.ts:158-159 | an empty mail with no subject or sender yields no title and no company |
| EmailParser.ParseJobFromEmail | src/utils/email-parser.utils.ts:129-165 | the URL is the first one found and the description is cut from the body alone; title, company, location and salary are read from the subject and body with tags stripped, the title falling back to the subject; partners DescriptionIgnoresSubject, TitleFallsBackToSubject and EmptyEmailHasNoTitle prove that the subject never reaches the description, that it is the title when none is found, and that an empty mail has no title |
| EmailParser.ParseJobEmailAuto | src/utils/email-parser.utils.ts:215-231 | a mail mentioning linkedin.com goes to the LinkedIn parser, else one mentioning indeed.com to the Indeed parser, else to the generic parser; partner ProviderMailIgnoresSubject proves that for provider mail the subject makes no difference |
| EmailParser.ParseLinkedInJobAlert | src/utils/email-parser.utils.ts:170-188 | the URL is an extracted one that mentions linkedin.com, absent exactly when none does; no description or salary |
| EmailParser.ParseIndeedJobAlert | src/utils/email-parser.utils.ts:193-210 | the URL is an extracted one that mentions indeed.com, absent exactly when none does; the company is single-spaced |
| EmailParser.ProviderMailIgnoresSubject | src/utils/email-parser.utils.ts:221-227 | for a LinkedIn or Indeed mail the subject changes nothing |
| Scraper.ExtractOpenGraphData | src/lib/scraper.ts:18-46 | title, description, image and site name come from their `og:` tags, and there is never a location or salary; partners OpenGraphTitleBeatsPageTitle and LocationOnlyFromStructuredData prove that this title beats the page title and that no location comes from here |
| Scraper.ExtractStructuredData | src/lib/scraper.ts:72-111 | when no JSON-LD block parses the result is empty; partners OnlyMalformedBlocks, MalformedBlockSkipped and LastTitleWins prove that bad blocks are skipped without stopping the loop and that the last titled posting sets the title |
| Scraper.Merge | src/lib/scraper.ts:123-128 | each field is the higher record's when it has one, else the lower's; partners MergeAssociative, MergeIdempotent and MergeNoFields prove that the spread is associative, idempotent and has the empty record as identity on both sides |
| Scraper.OpenGraphTitleBeatsPageTitle | src/lib/scraper.ts:18-46 | without a structured title the OpenGraph title is used, whatever the page title is |
| Scraper.ExtractBasicMetadata | src/lib/scraper.ts:51-67 | the page title trimmed and the meta description, nothing else |
| Scraper.PostingLocation | src/lib/scraper.ts:93-97 | a location exists exactly when the locality or the region is truthy |
| Scraper.PostingSalary | src/lib/scraper.ts:98-100 | a salary exists exactly when `baseSalary.value` is truthy |
| Scraper.ApplyPosting | src/lib/scraper.ts:88-100 | every field the posting provides overwrites the record; the rest is kept |
| Scraper.ApplyBlock | src/lib/scraper.ts:80-106 | a block that does not parse leaves the record unchanged |
| Scraper.MergeIdempotent | src/lib/scraper.ts:123-128 | spreading a record over itself gives it back |
| Scraper.LocationOnlyFromStructuredData | src/lib/scraper.ts:116-129 | with no structured location the page has no location: OpenGraph and the basic metadata never supply one |
| Scraper.ParseJobFromHtml | src/lib/scraper.ts:116-129 | the URL is the caller's; each field from structured data, else OpenGraph, else basic metadata |
| Scraper.ScrapeJobFromUrl | src/lib/scraper.ts:134-159 | never fails; a failed or non-OK fetch gives the bare URL, an OK one the parsed page |
| Scraper.MergeAssociative | src/lib/scraper.ts:123-128 | grouping of the spreads does not matter |
| Scraper.MergeNoFields | src/lib/scraper.ts:123-128 | spreading an empty record changes nothing |
| Scraper.ApplyItemsAppend | src/lib/scraper.ts:87-102 | items without null are applied one after another, no early stop |
| Scraper.NullItemEndsBlock | src/lib/scraper.ts:88-105 | a null item throws on `item['@type']` and ends its block |
| Scraper.LastTitleWins | src/lib/scraper.ts:87-89 | the last posting with a title decides the title |
| Scraper.MalformedBlockSkipped | src/lib/scraper.ts:103-106 | a block that does not parse is skipped and later blocks are still read |
| Scraper.OnlyMalformedBlocks | src/lib/scraper.ts:72-111 | if no block parses, there is no structured data |
| Scraper.ArrayBlockIsItemList | src/lib/scraper.ts:85 | a top-level array is read item by item |
| Scraper.PostingLocationBoth | src/lib/scraper.ts:94-96 | locality and region join as "locality, region" |
| Scraper.PostingLocationLocalityOnly | src/lib/scraper.ts:94-96 | a locality alone gives the locality, with no separator |
| Scraper.TitleFallsBackToPageTitle | src/lib/scraper.ts:116-129 | with no structured or OpenGraph title the trimmed page title is used |
| Extension.AddressLocation | browser-extension/content/content.js:61-71 | a location exists exactly when the address is present and one of locality, region or country is truthy |
| Extension.AddressLocationAllParts | browser-extension/content/content.js:62-70 | a full address is written "locality, region, country" |
| Extension.ApplyPosting | browser-extension/content/content.js:55-71 | title, description, company and location are overwritten when the posting provides them and kept otherwise |
| Extension.ScanItems | browser-extension/content/content.js:54-77 | a scan that stops early has a title, or met a posting whose title is truthy but not text |
| Extension.ScanScripts | browser-extension/content/content.js:49-81 | when no script parses, nothing is extracted |
| Extension.FirstText | browser-extension/content/content.js:139-145 | the trimmed non-empty text of the first selector that has some; none exactly when no selector does; the result is never blank and is already trimmed |
| Extension.ExtractFromOpenGraph | browser-extension/content/content.js:92-115 | OpenGraph never supplies a location |
| Extension.MergeSources | browser-extension/content/content.js:27-32 | each field is the structured value when truthy, else the selectors' value when truthy, else the OpenGraph value; the location is the structured one when truthy, else the selectors' |
| Extension.MergeSourcesSameRecord | browser-extension/content/content.js:27-32 | a record merged with itself in all three tiers comes back unchanged |
| Extension.MergeSourcesOnlyOpenGraph | browser-extension/content/content.js:27-32 | a page with only OpenGraph data gets its title, company and description, and no location |
| Extension.ExtractFromStructuredData | browser-extension/content/content.js:38-87 | when no script parses, nothing is extracted; partners LaterScriptsIgnored and MalformedScriptSkipped prove that a titled script ends the loop and that a malformed one is skipped |
| Extension.ExtractFromSelectors | browser-extension/content/content.js:120-199 | each of title, company, location and description is the trimmed text of the first selector in its list whose element has non-empty text, and null exactly when none has |
| Extension.ExtractJobData | browser-extension/content/content.js:6-33 | a structured result with a title is returned alone; otherwise structured data, selectors and OpenGraph are merged; partners StructuredTitleDecides and LocationIgnoresOpenGraph prove that a structured title makes the other sources irrelevant and that OpenGraph never sets the location |
| Extension.FirstTitledPostingStops | browser-extension/content/content.js:73-75 | the first posting that sets a title ends the scan |
| Extension.LaterScriptsIgnored | browser-extension/content/content.js:49-81 | once a script yields a title, later scripts are never read |
| Extension.MalformedScriptSkipped | browser-extension/content/content.js:78-80 | a script that does not parse is skipped |
| Extension.EarlierFieldsPersist | browser-extension/content/content.js:54-76 | a company set by an earlier untitled posting survives the early return |
| Extension.LocationIgnoresOpenGraph | browser-extension/content/content.js:30 | OpenGraph tags never affect the location |
| Extension.StructuredTitleDecides | browser-extension/content/content.js:16-18 | with a structured title, selectors and OpenGraph make no difference |
| CaptureActions.NormalizeText | src/actions/capture.actions.ts:24-27 | a missing or empty text normalises to "" |
| CaptureActions.NormalizeTextShape | src/actions/capture.actions.ts:26 | every normal form is lower case, trimmed and single-spaced |
| CaptureActions.NormalizeTextIdempotent | src/actions/capture.actions.ts:24-27 | a normal form is its own normal form |
| CaptureActions.NormalizeTextIgnoresCase | src/actions/capture.actions.ts:26 | texts differing only in case normalise alike |
| CaptureActions.NormalizeTextMatchesJobTitle | src/actions/capture.actions.ts:24-27 | this normal form and the duplicate engine's title normal form agree on titles without a trailing parenthetical |
| CaptureActions.LabelById | src/actions/capture.actions.ts:64-65 | a label is found exactly when a row with that id exists |
| CaptureActions.UrlMatch | src/actions/capture.actions.ts:41-47 | the first job of the user with exactly that URL; none exactly when there is no such job |
| CaptureActions.LabelMatch | src/actions/capture.actions.ts:60-77 | the first job of the user whose normalised company and title labels both match |
| CaptureActions.FindDuplicateJob | src/actions/capture.actions.ts:32-85 | an exact URL hit wins; else a label hit when the page named both company and title; else nothing |
| CaptureActions.UrlOnlyWithoutBothNames | src/actions/capture.actions.ts:55 | without both a company and a title only an exact URL counts |
| CaptureActions.NameKey | src/actions/capture.actions.ts:91 | the key holds no white space and is no longer than the name |
| CaptureActions.NameKeyKeepsLeadingSpace | src/actions/capture.actions.ts:91 | the name is not trimmed: leading white space becomes a leading '-' |
| CaptureActions.FindOrCreateNamed | src/actions/capture.actions.ts:90-116 | the user's row with the same label or key is reused; otherwise exactly one row is appended |
| CaptureActions.FindOrCreateNamedTwice | src/actions/capture.actions.ts:90-116 | a second lookup of the same name returns the first's row and creates nothing |
| CaptureActions.SaveCapturedJob | src/actions/capture.actions.ts:227-270 | one job appended with the defaults: type FT, draft status, not applied, due in seven days, fallback names and description, browser-extension source |
| CaptureActions.CaptureFor | src/actions/capture.actions.ts:198-276 | a duplicate or a missing draft status writes nothing; success exactly when neither happens |
| CaptureActions.CaptureJob | src/actions/capture.actions.ts:183-281 | no session fails with "Not authenticated" and writes nothing; a failure never adds a job |
| CaptureActions.ProvidedScrapedDataUsed | src/actions/capture.actions.ts:196 | with data handed in, what the page would say makes no difference |
| CaptureActions.RecaptureIsDuplicate | src/actions/capture.actions.ts:40-52 | capturing the same URL again after a success is reported as a duplicate |
| CaptureActions.PreviewCapturedJob | src/actions/capture.actions.ts:286-301 | no session gives "Not authenticated"; otherwise the scraped record for the URL |
| Store.EnsureLookup | src/actions/capture.actions.ts:228-239 | a shared source row is found by value or created once |
| EmailIngest.ValidateRequest | src/app/api/jobs/email-ingest/route.ts:10-14 | accepted exactly when the body is a non-empty string and the optional subject and sender have the right types, the sender being an e-mail address |
| EmailIngest.EnsureCompany | src/app/api/jobs/email-ingest/route.ts:64-82 | the user's company row with the name's key, found or created; no existing company is lost |
| EmailIngest.EnsureTitle | src/app/api/jobs/email-ingest/route.ts:85-103 | the user's title row with the title's key, found or created |
| EmailIngest.EnsureLocation | src/app/api/jobs/email-ingest/route.ts:106-128 | a location row only when a location was parsed; otherwise nothing is written |
| EmailIngest.EnsureEmailSource | src/app/api/jobs/email-ingest/route.ts:131-142 | the shared "email" source, found or created |
| EmailIngest.ResolveEntities | src/app/api/jobs/email-ingest/route.ts:61-142 | company, title, optional location and source rows with the right keys and owner; jobs, users and statuses untouched |
| EmailIngest.FirstDuplicate | src/app/api/jobs/email-ingest/route.ts:172-203 | the first candidate that is a potential duplicate; none exactly when no candidate is |
| EmailIngest.NewJob | src/app/api/jobs/email-ingest/route.ts:206-219 | the created job carries the resolved ids, type FT, the draft status, not applied, and the parsed URL, description and salary or their defaults |
| EmailIngest.IngestResolved | src/app/api/jobs/email-ingest/route.ts:145-247 | a missing draft status fails; a duplicate or a failure adds no job; a created job is appended |
| EmailIngest.IngestFor | src/app/api/jobs/email-ingest/route.ts:49-58 | no title gives 400 and writes nothing; only a created job changes the job table |
| EmailIngest.IngestEmail | src/app/api/jobs/email-ingest/route.ts:23-269 | no session gives 401; an unreadable body 500; an invalid body 400; only a 201 adds a job |
| EmailIngest.DraftMissingKeepsEntityWrites | src/app/api/jobs/email-ingest/route.ts:63-154 | a missing draft status fails after the company row is written, and that write stays |
| EmailIngest.DuplicateIsFirstRecentCandidate | src/app/api/jobs/email-ingest/route.ts:157-203 | the reported duplicate is the user's own recent job at the company and the first candidate that matches |
| EmailIngest.IngestedHasNoCandidateDuplicate | src/app/api/jobs/email-ingest/route.ts:172-206 | a created job had no potential duplicate among the candidates |
| CaptureRoute.ScrapedFromJson | src/app/api/jobs/capture/route.ts:7-15 | accepted exactly when `url` is a string and every optional field is absent or a string; the fields are carried over |
| CaptureRoute.ValidateCapture | src/app/api/jobs/capture/route.ts:5-16 | accepted exactly when the URL parses and any `scrapedData` is well formed |
| CaptureRoute.Post | src/app/api/jobs/capture/route.ts:22-61 | an unreadable body is a 500 and an invalid one a 400, neither writing; otherwise the capture's result; only a 201 adds a job |
| CaptureRoute.Get | src/app/api/jobs/capture/route.ts:67-108 | no URL or an unparsable one is a 400; no session a 500; otherwise the preview of that URL |
| CaptureRoute.UnauthenticatedPostIs500 | src/app/api/jobs/capture/route.ts:44-47 | a request without a session is answered 500, not 401 |
| CaptureRoute.RepeatedPostIs409 | src/app/api/jobs/capture/route.ts:44-47 | posting a URL again after a 201 answers 409 and stores nothing |
| CaptureRoute.CreatedPostAddsOneJob | src/app/api/jobs/capture/route.ts:50 | a 201 adds exactly one job, for the user and the posted URL |
| LocationActions.Part | src/actions/jobLocation.actions.ts:137-138 | a missing argument gives ""; a part is trimmed and lower case |
| LocationActions.KeyOf | src/actions/jobLocation.actions.ts:139-142 | the key holds no white space |
| LocationActions.PlaceOf | src/actions/jobLocation.actions.ts:164-167 | zip code and country stored trimmed and lower case, blank ones as null; the geocoded coordinates kept |
| LocationActions.CreateJobLocation | src/actions/jobLocation.actions.ts:122-176 | no session fails with "Not authenticated"; a failure writes no location; jobs, companies and titles are untouched |
| LocationActions.CreateFor | src/actions/jobLocation.actions.ts:133-171 | a blank label is refused; an existing key is returned as it is; otherwise a row is created only when geocoding gave both coordinates |
| LocationActions.CreateWithPlace | src/actions/jobLocation.actions.ts:144-170 | fails exactly when the key is new and a coordinate is missing, writing nothing; otherwise the find-or-append |
| LocationActions.FindOrAppend | src/actions/jobLocation.actions.ts:144-170 | the user's row with the key unchanged, else one new row with the key appended and its place stored |
| LocationActions.FindOrAppendFinds | src/actions/jobLocation.actions.ts:144-170 | afterwards a lookup of the key finds the row returned |
| LocationActions.FindOrAppendStoresPlace | src/actions/jobLocation.actions.ts:160-169 | a new row has its zip code, country and coordinates stored under its id |
| LocationActions.CreateWithPlaceTwice | src/actions/jobLocation.actions.ts:144-170 | a second create with the same key returns the first's row and writes nothing |
| LocationActions.UpdateRow | src/actions/jobLocation.actions.ts:211-221 | an unknown id fails and writes nothing; otherwise one row with that id is rewritten, keeping its owner |
| LocationActions.UpdateRowAt | src/actions/jobLocation.actions.ts:211-221 | the row rewritten is the first with the id |
| LocationActions.UpdateJobLocation | src/actions/jobLocation.actions.ts:178-227 | no session or a failed guard writes nothing; an update rewrites the row found by id |
| LocationActions.DeleteJobLocation | src/actions/jobLocation.actions.ts:87-120 | refused while jobs use the location, and a refusal writes nothing; it succeeds exactly when a user is signed in, no job uses the location and the user owns a location with that id, and then removes that location and every other location stays |
| LocationActions.LocationKeyOfNonBlankLabel | src/actions/jobLocation.actions.ts:139-145 | for a non-blank label the key is the label's key, then "-" and the zip code or else the country, spaces as "-" |
| LocationActions.LocationKeyIgnoresCaseAndPadding | src/actions/jobLocation.actions.ts:133-142 | labels differing in case or padding share a key |
| LocationActions.ZipOverridesCountry | src/actions/jobLocation.actions.ts:139 | with a zip code the country plays no part in the key |
| LocationActions.CreateJobLocationTwice | src/actions/jobLocation.actions.ts:144-149 | a second create with the same key returns the first's row and writes nothing |
| LocationActions.CreateKeepsKeysUnique | src/actions/jobLocation.actions.ts:144-170 | creating never gives the user a second location with the same key |
| LocationActions.UpdateWithoutCreatedByReachesAnyRow | src/actions/jobLocation.actions.ts:190-221 | without a `createdBy` argument another user's location is rewritten |
| LocationActions.DeleteJobLocationKeepsJobsResolved | src/actions/jobLocation.actions.ts:97-114 | after a delete every job still names an existing location |
| JobActions.LabelOf | src/actions/job.actions.ts:466 | the row found carries the requested id; none is found exactly when no row has it |
| JobActions.Duplicates | src/actions/job.actions.ts:455-480 | never more summaries than candidates |
| JobActions.DuplicatesAreMatches | src/actions/job.actions.ts:457-480 | a summary is listed exactly when its candidate is a potential duplicate of the new job |
| JobActions.DuplicatesSnoc | src/actions/job.actions.ts:471-479 | one more candidate adds its summary at the end exactly when it matches |
| JobActions.CollectDuplicates | src/actions/job.actions.ts:455-480 | the loop collects the same summaries, in candidate order |
| JobActions.FindDuplicateJobs | src/actions/job.actions.ts:425-487 | no session fails and writes no job; otherwise at most 50 summaries, the duplicates among the user's recent jobs at the company |
| JobActions.FindDuplicateJobsFromRecent | src/actions/job.actions.ts:440-447 | every summary is of one of the user's jobs at the given company created within the last 30 days |
| JobActions.DuplicatesLength | src/actions/job.actions.ts:455-480 | never more summaries than candidates |
| JobActions.DuplicatesShareCompany | src/actions/job.actions.ts:440-447 | a job at another company is never reported as a duplicate |
| JobActions.CreateLocation | src/actions/job.actions.ts:180-239 | a blank label fails; an existing location with the same key is returned unchanged; otherwise one new location with that key is appended for the user |
| JobActions.CreateLocationFor | src/actions/job.actions.ts:193-232 | a blank label fails and writes nothing; an existing key is returned unchanged; otherwise one row with the key is appended and its place stored |
| JobActions.CreateLocationAgreesWithCreateFor | src/actions/job.actions.ts:193-232 | when the geocoder gives both coordinates, the result equals the location action's create step |
| JobActions.CreateLocationAgreesWithCreateJobLocation | src/actions/job.actions.ts:193-232 | when the geocoder answers, the result is the same as the location action's |
| JobActions.CreateLocationWithoutCoordinates | src/actions/job.actions.ts:205-229 | without coordinates a location is still created, with null coordinates, where the location action fails |
| JobActions.WithStatus | src/actions/job.actions.ts:361-379 | "applied" sets applied and the application date; "interview" sets applied and keeps the date; any other status only changes the status; no other field changes |
| JobActions.UpdateJobStatus | src/actions/job.actions.ts:350-393 | only a job with that id owned by the user is changed; without one nothing is written |
| JobActions.InterviewKeepsApplicationDate | src/actions/job.actions.ts:363-373 | moving from "applied" to "interview" keeps the application date |
| JobActions.ApplyForm | src/actions/job.actions.ts:323-340 | title, company, status, description, type and applied come from the form; each optional column is written when the form gives it and kept when the form leaves it undefined; id, owner and creation time stay |
| JobActions.ApplyFormIdempotent | src/actions/job.actions.ts:323-340 | saving the same form twice stores what saving it once does |
| JobActions.UntickAppliedKeepsDate | src/actions/job.actions.ts:335-339 | un-ticking "applied" with no date given keeps the stored application date |
| JobActions.UpdateJob | src/actions/job.actions.ts:292-348 | a missing id or a form whose userId is not the session user fails; on success the job with that id, whoever owns it, is patched with the form |
| JobActions.UpdateJobOverwritesOthersJob | src/actions/job.actions.ts:303-326 | a form naming the acting user and another user's job id overwrites that job |
| JobActions.UpdateOwnedJob | src/actions/job.actions.ts:303-305 | on success the job patched has the form's id and belongs to the session user |
| JobActions.UpdateOwnedJobKeepsOthersJobs | src/actions/job.actions.ts:303-305 | another user's job is never changed |
| CompanyActions.FaviconTarget | src/actions/company.actions.ts:13-15 | the text handed to the URL parser always starts with a scheme |
| CompanyActions.Favicon | src/actions/company.actions.ts:10-20 | "" for a missing or empty site and for one the parser rejects; otherwise the favicon service's address |
| CompanyActions.FaviconDomain | src/actions/company.actions.ts:16 | a favicon address is the service prefix, the domain and the size suffix |
| CompanyActions.FaviconNamesHost | src/actions/company.actions.ts:13-16 | the favicon address names exactly the host the parser found |
| CompanyActions.FaviconDefaultsToHttps | src/actions/company.actions.ts:13-15 | a site without a scheme gets the favicon of its https form |
| CompanyActions.OptionalText | src/actions/company.actions.ts:171-179 | missing or blank text is dropped; kept text is trimmed and non-empty |
| CompanyActions.OptionalTextIdempotent | src/actions/company.actions.ts:171-179 | normalising optional text twice changes nothing |
| CompanyActions.LocationIds | src/actions/company.actions.ts:184-186 | no duplicates, no empty id, nothing that was not given, and every non-empty id given is kept |
| CompanyActions.LocationIdsKeepFirst | src/actions/company.actions.ts:184-186 | the first non-empty id comes first |
| CompanyActions.InfoOf | src/actions/company.actions.ts:166-186 | the website is the trimmed URL or none, the logo is its favicon when there is one, blank texts become none, the two flags default to false and the location ids are the non-blank ones without repeats; partner InfoOfResubmitted proves that submitting the stored columns back stores the same columns |
| CompanyActions.InfoOfResubmitted | src/actions/company.actions.ts:166-186 | submitting the stored columns back through the form stores the same columns again |
| CompanyActions.AddFor | src/actions/company.actions.ts:150-205 | refused exactly when the user already has a company with the same key, and then nothing is written; otherwise one row with that key is appended |
| CompanyActions.AddCompany | src/actions/company.actions.ts:122-210 | no session fails; the only failures are "Not authenticated" and "Company already exists!" |
| CompanyActions.AddCompanyKeepsKeysUnique | src/actions/company.actions.ts:153-164 | at most one company per key and owner is kept |
| CompanyActions.AddCompanyTwiceRefused | src/actions/company.actions.ts:150-164 | the same name again, in any case or padding, is refused and writes nothing |
| CompanyActions.AddCompanySameNameOtherUser | src/actions/company.actions.ts:153-160 | another user's company of the same name does not block the add |
| CompanyActions.UpdatedInfo | src/actions/company.actions.ts:262-299 | each text column is written when the form gives it and kept when undefined; flags and locations are always written |
| CompanyActions.UpdatedInfoIdempotent | src/actions/company.actions.ts:262-299 | saving the same form twice stores what saving it once does |
| CompanyActions.UpdateFor | src/actions/company.actions.ts:242-301 | the guard refuses a missing id or a form not naming the user; "Company already exists!" exactly when another row of the user has the key; a failure writes nothing |
| CompanyActions.UpdateCompany | src/actions/company.actions.ts:212-308 | no session fails; otherwise the update as the user's row sees it |
| CompanyActions.UpdateCompanyKeepsKeysUnique | src/actions/company.actions.ts:249-260 | updating one of the user's own rows keeps keys unique |
| CompanyActions.UpdateCompanyToOwnKey | src/actions/company.actions.ts:258 | renaming a company to a name with its own key is allowed |
| CompanyActions.UpdateCompanyReachesOthersRow | src/actions/company.actions.ts:242-285 | a form naming the acting user in createdBy renames another user's company |
| CompanyActions.DeleteCompany | src/actions/company.actions.ts:343-376 | a company with jobs is not deleted and the message gives their number; it succeeds exactly when a user is signed in, no job uses the company and the user owns a company with that id, and then removes that company while every other company stays |
| CompanyActions.DeleteCompanyKeepsJobsResolved | src/actions/company.actions.ts:353-370 | after a delete every job still names an existing company |
| TileLayer.Pow2 | src/components/map/TileLayer.tsx:24 | the number of tiles per axis is at least one |
| TileLayer.TileIndex | src/components/map/TileLayer.tsx:19-22 | the tile index is the floor of the coordinate over the tile size |
| TileLayer.JsRem | src/components/map/TileLayer.tsx:32 | JavaScript's remainder lies strictly between -n and n, takes the sign of the dividend, and differs from the dividend by a multiple of n |
| TileLayer.WrapX | src/components/map/TileLayer.tsx:32 | the wrapped column lies in [0, 2^zoom) |
| TileLayer.WrapXIsModulo | src/components/map/TileLayer.tsx:32 | the wrapped column is the mathematical remainder, so it differs from the column by a multiple of 2^zoom |
| TileLayer.Subdomain | src/components/map/TileLayer.tsx:16-33 | no subdomains gives ""; otherwise one of the given subdomains |
| TileLayer.ColumnTilesMembers | src/components/map/TileLayer.tsx:28-30 | a column holds exactly the drawn rows of its range |
| TileLayer.GridTilesMembers | src/components/map/TileLayer.tsx:27-30 | the grid holds exactly the drawn tiles of its column and row ranges |
| TileLayer.ColumnTilesCount | src/components/map/TileLayer.tsx:28-30 | a column has one tile per drawn row |
| TileLayer.GridTilesCount | src/components/map/TileLayer.tsx:27-30 | the grid has one tile per column and drawn row |
| TileLayer.TilesMembers | src/components/map/TileLayer.tsx:18-48 | a tile is listed exactly when it lies in the viewport's tile ranges on a row in [0, 2^zoom) |
| TileLayer.MakeTile | src/components/map/TileLayer.tsx:31-45 | the tile keeps its column and row and is placed at its offset from the viewport corner; partners FirstTileCoversCorner and TilesMembers prove that the first tile covers the corner and that exactly the viewport's tiles are made |
| TileLayer.FirstTileCoversCorner | src/components/map/TileLayer.tsx:19-44 | the first tile starts at or before the viewport's corner, less than one tile before it |
| TileLayer.FillThreeSlots | src/components/map/TileLayer.tsx:34-38 | a template with one {z}, {x} and {y} in order gets the three values in those places |
| Text.ReplaceFirstSplices | src/components/map/TileLayer.tsx:34-38 | a string `replace` with a string pattern cuts out the leftmost occurrence and puts the replacement in its place |
| TileLayer.DefaultTemplateUrl | src/components/map/TileLayer.tsx:15-38 | with the default template the URL is the OpenStreetMap path zoom/column/row |
| TileLayer.DefaultTileUrl | src/components/map/TileLayer.tsx:15-38 | a default tile's URL names its zoom, wrapped column and row |
| TileLayer.EnumerateColumn | src/components/map/TileLayer.tsx:28-46 | the inner loop pushes exactly the column's drawn tiles, in row order |
| TileLayer.EnumerateTiles | src/components/map/TileLayer.tsx:27-48 | the nested loops produce exactly the tiles of the viewport |
| ImportJob.SelectDefaultStatus | src/components/myjobs/ImportJobJSON.tsx:37-38 | nothing exactly when there are no statuses; the first draft status when there is one; otherwise the first status |
| ImportJob.ResolveId | src/components/myjobs/ImportJobJSON.tsx:105-123 | succeeds exactly when some item has the id or, ignoring case, the label or value; the id returned is a matching item's; otherwise the error names the field and the input |
| ImportJob.ResolveLabel | src/components/myjobs/ImportJobJSON.tsx:110-115 | an item's label resolves to its id when no earlier item matches it |
| ImportJob.ResolveOwnId | src/components/myjobs/ImportJobJSON.tsx:110-112 | an item's id resolves to itself when no earlier item matches it |
| ImportJob.ResolveIdIgnoresCase | src/components/myjobs/ImportJobJSON.tsx:113-114 | two spellings differing only in case resolve alike, unless one is literally an id |
| ImportJob.FullTimeLabel | src/components/myjobs/ImportJobJSON.tsx:137 | the label stored under "FT" |
| ImportJob.ResolveJobType | src/components/myjobs/ImportJobJSON.tsx:125-139 | succeeds exactly when some non-empty key or some label equals the input ignoring case; a key match wins over a label match; otherwise the error message |
| ImportJob.EmptyTypeSkipsKeys | src/components/myjobs/ImportJobJSON.tsx:126-129 | an empty type never resolves through a key, since an empty key found by the search is falsy; only a label equal to "" resolves it |
| ImportJob.ResolveKeyAnyCase | src/components/myjobs/ImportJobJSON.tsx:126-129 | a non-empty key in any case resolves to itself, even when a label spells it too |
| ImportJob.ResolveLabelToKey | src/components/myjobs/ImportJobJSON.tsx:131-134 | a label resolves to its key when no key spells it and no earlier label does |
| ImportJob.ResolveSalaryRange | src/components/myjobs/ImportJobJSON.tsx:141-155 | succeeds exactly when some range has the id or, ignoring case, the value; otherwise the error message |
| ImportJob.ResolveRangeValue | src/components/myjobs/ImportJobJSON.tsx:142-146 | a range's value resolves to its id when no earlier range matches it |
| ImportJob.RangeMessageListsValues | src/components/myjobs/ImportJobJSON.tsx:147-152 | the error message names every range's value |
| ImportJob.JoinContainsPart | src/components/myjobs/ImportJobJSON.tsx:149-151 | each part of the joined list occurs in the joined text |
| ImportJob.Clip | src/components/myjobs/ImportJobJSON.tsx:85-89 | a time value is valid exactly when it lies within the date range, and then it is unchanged |
| ImportJob.ParsedTime | src/components/myjobs/ImportJobJSON.tsx:85-89 | a parsed date's time value lies within the date range |
| ImportJob.DateOf | src/components/myjobs/ImportJobJSON.tsx:85-89 | a valid date's time value lies within the date range |
| ImportJob.NormalizeDates | src/components/myjobs/ImportJobJSON.tsx:84-103 | a falsy due date becomes now; a null or missing application date becomes undefined; an invalid due date is reported first, then an invalid application date |
| ImportJob.NormalizeTimeValues | src/components/myjobs/ImportJobJSON.tsx:84-103 | dates given as non-zero valid time values come back unchanged |
| ImportJob.NormalizeDatesIdempotent | src/components/myjobs/ImportJobJSON.tsx:84-103 | normalising the result again changes nothing unless the due date is the epoch |
| ImportJob.EpochDueDateBecomesNow | src/components/myjobs/ImportJobJSON.tsx:85 | the epoch as a due date is falsy and becomes now |
| I18n.WordPrefix | src/lib/i18n.tsx:436 | the longest run of word characters at the start of the text |
| I18n.TokenAt | src/lib/i18n.tsx:436 | a token is "{", at least one word character and "}" |
| I18n.InterpolateWithoutTokens | src/lib/i18n.tsx:435-438 | a template without tokens comes back unchanged, whatever the values |
| I18n.Interpolate | src/lib/i18n.tsx:435-438 | with no values every token stays verbatim, so the template comes back unchanged |
| I18n.InterpolateLeadingToken | src/lib/i18n.tsx:436-437 | a token with a value becomes the value's text and the scan goes on after it, so substituted text is not scanned again |
| I18n.WordPrefixOfWord | src/lib/i18n.tsx:436 | a word followed by a non-word character is exactly the word run |
| I18n.Translate | src/lib/i18n.tsx:457-461 | fails exactly when the language is not loaded; without values it gives the language's text for the key, else the fallback, else the key; partners KnownKeyIgnoresFallback, MissingKeyShowsKey and TranslateEmptyValues prove that a known key ignores the fallback, that a missing key with no fallback shows the key, and that empty values change nothing |
| I18n.KnownKeyIgnoresFallback | src/lib/i18n.tsx:457-461 | a key the language has ignores the fallback, with or without values |
| I18n.TranslateEmptyValues | src/lib/i18n.tsx:460 | an empty values object gives the same text as none |
| I18n.MissingKeyShowsKey | src/lib/i18n.tsx:459 | a missing key with no fallback is shown as the key |
| I18n.InitialLanguageTranslates | src/lib/i18n.tsx:441-461 | with English loaded and any stored language loaded too, the starting language always translates |
| I18n.UnknownStoredLanguageFails | src/lib/i18n.tsx:443-459 | a stored language the tables lack makes every translation fail |
| I18n.DefaultDateLocaleIsEnglish | src/lib/i18n.tsx:441-467 | with no stored language dates are formatted the US-English way |

## Left out

- Network and host I/O: `fetch`, the geocoder, `localStorage`, `request.json()`, DOM queries and the clock. Their results are parameters of the operations that read them.
- Library internals: the regular expression engine, the WHATWG URL parser, `JSON.parse`, `Date.parse` and zod's e-mail check. Each is an abstract function. Where a pattern's effect matters to a property (tag stripping, the `{name}` token, the title's parenthetical suffix, a trailing-slash run), it is written out on strings.
- The record store's own behaviour: SQL semantics, unique-constraint enforcement and Prisma's error messages. Only the checks the code makes itself are modelled; a missing row is a plain "Record not found" failure.
- `handleError`, logging and `revalidatePath`: every error the model returns carries the thrown message, not the wrapped response.
- Concurrency: each find-or-create is a check followed by an insert, and the model runs them one at a time.
- Relations read through Prisma's `include` (`job.JobTitle`, `job.Company`): a job whose title or company row is missing reads as having no label, where the source would throw.
- New row ids: a counter in the store stands for the database's generated ids.
- Unicode case: `toLowerCase` and `toUpperCase` (and so `EmailParser.Capitalize`) change ASCII letters only. White space (`Text.IsSpace`) is JavaScript's full `\s` set.
- String lengths: JavaScript counts UTF-16 code units, the model counts Unicode scalar values. For text outside the Basic Multilingual Plane this changes the values of `Dedup.Distance` and `Dedup.Similarity`, and where `EmailParser.Description`'s `substring(0, max)` cuts.
- Dedup.SerializeQuery: the pairs are joined as they are; `URLSearchParams.toString()` percent-encodes them (a space becomes `+`). Normal forms of queries with such characters differ from the source's.
- CaptureActions.SaveCapturedJob: the due date is `now` plus seven times 24 hours. The source's `setDate(getDate() + 7)` works in local time, so across a daylight-saving change it is one hour earlier or later.
- Scraper.ApplyPosting: a truthy JSON-LD value that is not a string (an `ImageObject` logo, a numeric title) is not stored. The source assigns the value itself; the model's fields hold strings only, so the field keeps its earlier value.
- Extension.ApplyPosting: like `Scraper.ApplyPosting`, a truthy value that is not a string is not stored.
- Extension.ScanItems: a posting whose title is truthy but not a string ends the scan, as in the source, but the record it returns does not hold that title.
- JobActions.ApplyForm: a form field is `None` where the form leaves it `undefined`, which the database update leaves unchanged. An explicit `null` from the form, which would clear the column, is not modelled.
- Floating point: `Dedup.Similarity` is an exact rational, not a double; rounding could only matter for strings longer than about 10^15 characters.
- Numbers in JSON and the viewport are integers: `Json.JNum` holds an `int`, and the tile layer assumes integer coordinates and a positive tile size.
- The `JOB_TYPES` and `SALARY_RANGES` tables and the translation tables are parameters, since their entries are data.
- `in` on inherited properties and `$` patterns in replacement strings: neither can occur with the inputs the code builds.
- `buildTemplate` in the JSON import, the React state of `LanguageProvider` and its `localStorage` write, and the rest of the import dialog's UI.
- The listing and detail actions (`getJobsList`, `getJobDetails`, `getStatusList`, `getJobSourceList`, `getCompanyList`, `getAllCompanies`, `getCompanyById`, `getJobTitleList`, `getAllJobTitles`, `getJobLocationsList`, `getAllJobLocations`): plain queries with pagination and no decisions to model.
- `addJob` and `deleteJobById`: plain writes, with ownership given by the query's `where`.
- Dedup.NormalizeUrl: idempotence is not stated. The normal form has no scheme, so normalising it again goes to the abstract parser, and the result depends on what that parser does with scheme-less text. `Dedup.NormalizeUrlUnparsable` states the case where the parser rejects it.
- TileLayer.Subdomain: states that the subdomain is one of the given ones, not which one; the index rule `|wrappedX + y| mod length` is only in the body.
- JobActions.Duplicates: its own contract only bounds the length; `JobActions.DuplicatesAreMatches` states which summaries are listed.

## Findings

| source | as written | input that shows it | evidently intended | confidence | as-written member | corrected member |
|---|---|---|---|---|---|---|
| src/actions/job.actions.ts:303-326 | the guard compares the session user with the form's `userId`, and the update then finds the job by `id` alone | a form whose `userId` is the session user and whose `id` is another user's job: the guard passes and that job is overwritten | only the session user's own job can be updated, as the guard's message ("no user privilages") and `updateJobStatus`'s `where: { id, userId }` suggest | medium; not executed | JobActions.UpdateJobOverwritesOthersJob | JobActions.UpdateOwnedJobKeepsOthersJobs |
