/**
 * `src/utils/email-parser.utils.ts`: pulling a job out of an e-mail.
 *
 * The field patterns and the two URL scanners are regular expressions; they
 * enter as parameters (`EmailPatterns`). What the module does with their
 * results is concrete: the first-hit cascades, the URL de-duplication, the
 * tag-to-newline passes, the line clean-up, the description cut and the
 * provider dispatch.
 */
module EmailParser {
  import opened Wrappers
  import opened Text
  import opened Seqs
  import opened Regex

  /** `MAX_EMAIL_DESCRIPTION_LENGTH`. */
  const MaxDescriptionLength: nat := 1000

  /** The regular expressions of the module, in source order within each cascade. */
  datatype EmailPatterns = EmailPatterns(
    hrefTargets: Scanner,        // group 1 of every /href=["']([^"']+)["']/g match
    bareUrls: Scanner,           // every /https?:\/\/[^\s<>"{}|\\^`\[\]]+/g match
    title: seq<Capture>,         // the three job-title patterns
    company: seq<Capture>,       // the two company patterns
    location: seq<Matcher>,      // the two location patterns
    salary: seq<Matcher>,        // the three salary patterns
    linkedInTitle: Capture,
    linkedInCompany: Capture,
    linkedInLocation: Capture,
    indeedTitle: Capture,
    indeedCompany: Capture)      // the multi-line "<Name> is hiring" pattern

  /** `ParsedJobFromEmail`; every field optional. */
  datatype ParsedEmail = ParsedEmail(
    jobTitle: Option<string>,
    company: Option<string>,
    location: Option<string>,
    jobUrl: Option<string>,
    description: Option<string>,
    salaryRange: Option<string>)

  // ---------------------------------------------------------------------------
  // extractUrls
  // ---------------------------------------------------------------------------

  /** `extractUrls(text)`: href targets, then bare URLs, each once, in first-occurrence order. */
  function ExtractUrls(text: string, rx: EmailPatterns): (r: seq<string>)
    ensures forall i :: 0 <= i < |r| ==> r[i] in rx.hrefTargets(text) || r[i] in rx.bareUrls(text)
    ensures forall i :: 0 <= i < |rx.hrefTargets(text)| ==> rx.hrefTargets(text)[i] in r
    ensures forall i :: 0 <= i < |rx.bareUrls(text)| ==> rx.bareUrls(text)[i] in r
    ensures NoDuplicates(r)
    ensures |rx.hrefTargets(text)| > 0 ==> |r| > 0 && r[0] == rx.hrefTargets(text)[0]
    ensures |rx.hrefTargets(text)| == 0 && |rx.bareUrls(text)| > 0 ==> |r| > 0 && r[0] == rx.bareUrls(text)[0]
    ensures |r| == 0 <==> |rx.hrefTargets(text)| == 0 && |rx.bareUrls(text)| == 0
  {
    var h, b := rx.hrefTargets(text), rx.bareUrls(text);
    var all := h + b;
    assert forall i :: 0 <= i < |h| ==> h[i] == all[i];
    assert forall i :: 0 <= i < |b| ==> b[i] == all[|h| + i];
    DedupBySet(all)
  }

  // ---------------------------------------------------------------------------
  // The field cascades
  // ---------------------------------------------------------------------------

  /** `match[1].trim().replace(/\s+/g, ' ')`. */
  function CleanCapture(g: string): (r: string)
    ensures IsTrimmed(r) && Collapsed(r)
  {
    CollapsePreservesTrimmed(Trim(g));
    CollapseSpacesCollapsed(Trim(g));
    CollapseSpaces(Trim(g))
  }

  /** Pattern `i` is the first whose capture is a non-empty string. */
  predicate FirstCaptureAt(patterns: seq<Capture>, text: string, i: nat) {
    i < |patterns| && Truthy(patterns[i](text)) && forall j :: 0 <= j < i ==> !Truthy(patterns[j](text))
  }

  /**
   * The loops of `extractJobTitle` and `extractCompany`: the first pattern
   * whose capture is a non-empty string wins, cleaned.
   */
  function FirstCapture(patterns: seq<Capture>, text: string): (r: Option<string>)
    ensures r.None? <==> forall i :: 0 <= i < |patterns| ==> !Truthy(patterns[i](text))
    ensures r.Some? ==>
      exists i: nat :: FirstCaptureAt(patterns, text, i) && r.value == CleanCapture(patterns[i](text).value)
  {
    match FindIndex(patterns, (c: Capture) => Truthy(c(text)))
    case None => None
    case Some(i) =>
      assert FirstCaptureAt(patterns, text, i);
      Some(CleanCapture(patterns[i](text).value))
  }

  /** Pattern `i` is the first that matches at all. */
  predicate FirstMatchAt(patterns: seq<Matcher>, text: string, i: nat) {
    i < |patterns| && patterns[i](text).Some? && forall j :: 0 <= j < i ==> patterns[j](text).None?
  }

  /** `match[1]?.trim() || match[0].trim()`. */
  function GroupOrWhole(m: RegexMatch): (r: string)
    ensures IsTrimmed(r)
    ensures m.group.Some? && Trim(m.group.value) != "" ==> r == Trim(m.group.value)
    ensures !(m.group.Some? && Trim(m.group.value) != "") ==> r == Trim(m.whole)
  {
    if m.group.Some? && Trim(m.group.value) != "" then Trim(m.group.value) else Trim(m.whole)
  }

  /**
   * The loops of `extractLocation` and `extractSalaryRange`: the first pattern
   * that matches at all wins, even when what it yields is empty.
   */
  function FirstMatch(patterns: seq<Matcher>, text: string): (r: Option<string>)
    ensures r.None? <==> forall i :: 0 <= i < |patterns| ==> patterns[i](text).None?
    ensures r.Some? ==>
      exists i: nat :: FirstMatchAt(patterns, text, i) && r.value == GroupOrWhole(patterns[i](text).value)
  {
    match FindIndex(patterns, (m: Matcher) => m(text).Some?)
    case None => None
    case Some(i) =>
      assert FirstMatchAt(patterns, text, i);
      Some(GroupOrWhole(patterns[i](text).value))
  }

  /** `name` is the group of a `/@([^.]+)\./` match whose '@' sits at position `k`. */
  predicate LabelAt(address: string, k: nat, name: string) {
    && k + |name| + 1 < |address|
    && address[k] == '@' && |name| > 0 && '.' !in name
    && address[k + 1..k + 1 + |name|] == name && address[k + 1 + |name|] == '.'
  }

  /** The group of a match whose '@' sits at position `i`, if a match starts there. */
  function LabelHere(address: string, i: nat): (r: Option<string>)
    requires i < |address|
    ensures r.Some? ==> LabelAt(address, i, r.value)
    ensures address[i] != '@' ==> r.None?
  {
    if address[i] == '@' && i + 1 < |address| && address[i + 1] != '.' && '.' in address[i + 1..] then
      var rest := address[i + 1..];
      var k := CharIndex(rest, '.');
      assert address[i + 1..i + 1 + k] == rest[..k];
      assert address[i + 1 + k] == rest[k];
      Some(rest[..k])
    else None
  }

  /**
   * The regular expression search from position `i` on: only an '@' can
   * start a match, so the search jumps to the next '@'. The result is the
   * position of the first '@' that starts a match.
   */
  function MatchFrom(address: string, i: nat): (r: Option<nat>)
    requires i <= |address|
    ensures r.Some? ==> i <= r.value < |address| && LabelHere(address, r.value).Some?
    ensures r.Some? ==> forall j :: i <= j < r.value ==> LabelHere(address, j).None?
    ensures r.None? ==> forall j :: i <= j < |address| ==> LabelHere(address, j).None?
    decreases |address| - i
  {
    if '@' !in address[i..] then
      assert forall j :: i <= j < |address| ==> address[j] == address[i..][j - i];
      None
    else
      var k := i + CharIndex(address[i..], '@');
      assert forall j :: i <= j < k ==> address[j] == address[i..][..k - i][j - i];
      if LabelHere(address, k).Some? then Some(k) else MatchFrom(address, k + 1)
  }

  /** Group 1 of `fromAddress.match(/@([^.]+)\./)`. */
  function DomainLabel(address: string): (r: Option<string>)
    ensures r.Some? ==> exists k :: LabelAt(address, k, r.value)
    ensures r.None? <==> forall k :: 0 <= k < |address| ==> LabelHere(address, k).None?
  {
    match MatchFrom(address, 0)
    case None => None
    case Some(k) => LabelHere(address, k)
  }

  /** `s.charAt(0).toUpperCase() + s.slice(1)`. */
  function Capitalize(s: string): (r: string)
    ensures |r| == |s|
    ensures |s| > 0 ==> r[0] == UpperChar(s[0]) && r[1..] == s[1..]
  {
    if |s| == 0 then "" else [UpperChar(s[0])] + s[1..]
  }

  /**
   * Capitalising changes the case of the first letter only: the result
   * equals the input ignoring case, and capitalising again changes nothing.
   */
  lemma CapitalizeKeepsLetters(s: string)
    ensures EqualsIgnoreCase(Capitalize(s), s)
    ensures Capitalize(Capitalize(s)) == Capitalize(s)
  {
    var r := Capitalize(s);
    if |s| > 0 {
      assert LowerChar(UpperChar(s[0])) == LowerChar(s[0]);
      assert forall i :: 1 <= i < |s| ==> r[i] == s[i];
      assert ToLower(r) == ToLower(s);
      assert UpperChar(UpperChar(s[0])) == UpperChar(s[0]);
      assert Capitalize(r) == [UpperChar(r[0])] + r[1..];
    }
  }

  /** `extractJobTitle(text)`. */
  function ExtractJobTitle(text: string, rx: EmailPatterns): Option<string> {
    FirstCapture(rx.title, text)
  }

  /** `extractCompany(text, fromAddress)`: a pattern hit, else the capitalised sender domain label. */
  function ExtractCompany(text: string, fromAddress: Option<string>, rx: EmailPatterns): (r: Option<string>)
    ensures FirstCapture(rx.company, text).Some? ==> r == FirstCapture(rx.company, text)
    ensures FirstCapture(rx.company, text).None? && Truthy(fromAddress) && DomainLabel(fromAddress.value).Some?
      ==> r == Some(Capitalize(DomainLabel(fromAddress.value).value))
    ensures r.None? <==>
      (FirstCapture(rx.company, text).None? && (!Truthy(fromAddress) || DomainLabel(fromAddress.value).None?))
  {
    match FirstCapture(rx.company, text)
    case Some(c) => Some(c)
    case None =>
      if Truthy(fromAddress) then
        match DomainLabel(fromAddress.value)
        case Some(name) => Some(Capitalize(name))
        case None => None
      else None
  }

  /**
   * For an address `local@name.rest` whose local part has no '@', the label is
   * `name`: "jobs@techcorp.com" gives "techcorp", capitalised "Techcorp".
   */
  lemma DomainLabelOfAddress(local: string, name: string, rest: string)
    requires '@' !in local && name != "" && '.' !in name
    ensures DomainLabel(local + "@" + name + "." + rest) == Some(name)
  {
    var a := local + "@" + name + "." + rest;
    AddressShape(local, name, rest);
    assert a[0..] == a && a[..|local|] == local;
    CharIndexUnique(a, '@', |local|);
    DomainLabelAt(a, |local|, name);
    assert MatchFrom(a, 0) == Some(|local|);
  }

  /** Where the pieces of `local@name.rest` sit. */
  lemma AddressShape(local: string, name: string, rest: string)
    requires '@' !in local
    ensures var a := local + "@" + name + "." + rest;
      && |local| < |a| && a[|local|] == '@'
      && (forall k :: 0 <= k < |local| ==> a[k] != '@')
      && |name| < |a[|local| + 1..]| && a[|local| + 1..][..|name|] == name && a[|local| + 1..][|name|] == '.'
  {
    var a := local + "@" + name + "." + rest;
    assert forall k :: 0 <= k < |local| ==> a[k] == local[k];
    var tail := a[|local| + 1..];
    assert tail == name + "." + rest;
    assert tail[..|name|] == name;
  }

  /** An '@' followed by a dot-free `name` and a '.' gives `name`. */
  lemma DomainLabelAt(a: string, i: nat, name: string)
    requires i < |a| && a[i] == '@' && name != "" && '.' !in name
    requires |name| < |a[i + 1..]| && a[i + 1..][..|name|] == name && a[i + 1..][|name|] == '.'
    ensures LabelHere(a, i) == Some(name)
  {
    var tail := a[i + 1..];
    assert tail[0] == name[0];
    CharIndexUnique(tail, '.', |name|);
  }

  /** `extractLocation(text)`. */
  function ExtractLocation(text: string, rx: EmailPatterns): Option<string> {
    FirstMatch(rx.location, text)
  }

  /** `extractSalaryRange(text)`. */
  function ExtractSalaryRange(text: string, rx: EmailPatterns): Option<string> {
    FirstMatch(rx.salary, text)
  }

  // ---------------------------------------------------------------------------
  // Tag stripping
  // ---------------------------------------------------------------------------

  /** The five patterns `parseJobFromEmail` replaces, in the order it applies them. */
  datatype TagPattern =
    | LineBreakTag   // /<br\s*\/?>/gi
    | ParagraphEnd   // /<\/p>/gi
    | DivEnd         // /<\/div>/gi
    | HeadingEnd     // /<\/h\d>/gi
    | AnyTag         // /<[^>]*>/g

  /** The length of the white-space run `\s*` at the start of `s`. */
  function LeadingSpaces(s: string): (k: nat)
    ensures k <= |s|
    ensures forall i :: 0 <= i < k ==> IsSpace(s[i])
    ensures k == |s| || !IsSpace(s[k])
  {
    if |s| > 0 && IsSpace(s[0]) then 1 + LeadingSpaces(s[1..]) else 0
  }

  /** The length of the pattern's match starting at the first character of `s`; 0 when there is none. */
  function TagMatchLength(p: TagPattern, s: string): (n: nat)
    ensures n == 0 || (2 <= n <= |s| && s[0] == '<' && s[n - 1] == '>')
    ensures p == AnyTag && n > 0 ==> '>' !in s[..n - 1]
    ensures p == AnyTag && |s| > 0 && s[0] == '<' && '>' in s ==> n > 0
  {
    match p
    case LineBreakTag =>
      if |s| >= 3 && s[0] == '<' && LowerChar(s[1]) == 'b' && LowerChar(s[2]) == 'r' then
        var k := 3 + LeadingSpaces(s[3..]);
        var k' := if k < |s| && s[k] == '/' then k + 1 else k;
        if k' < |s| && s[k'] == '>' then k' + 1 else 0
      else 0
    case ParagraphEnd => if |s| >= 4 && ToLower(s[..4]) == "</p>" then 4 else 0
    case DivEnd => if |s| >= 6 && ToLower(s[..6]) == "</div>" then 6 else 0
    case HeadingEnd =>
      if |s| >= 5 && ToLower(s[..3]) == "</h" && '0' <= s[3] <= '9' && s[4] == '>' then 5 else 0
    case AnyTag => if |s| > 0 && s[0] == '<' && '>' in s then CharIndex(s, '>') + 1 else 0
  }

  /** `s.replace(re, rep)` for a global pattern: scan left to right, replace each match, resume after it. */
  function ReplaceAll(p: TagPattern, s: string, rep: string): (r: string)
    decreases |s|
  {
    if |s| == 0 then ""
    else
      var n := TagMatchLength(p, s);
      if n > 0 then rep + ReplaceAll(p, s[n..], rep) else [s[0]] + ReplaceAll(p, s[1..], rep)
  }

  /** Text without '<' passes through a replacement unchanged. */
  lemma {:induction false} ReplaceAllPlain(p: TagPattern, s: string, rep: string)
    requires '<' !in s
    ensures ReplaceAll(p, s, rep) == s
    decreases |s|
  {
    if |s| > 0 {
      ReplaceAllPlain(p, s[1..], rep);
    }
  }

  /** A prefix without '<' is copied and the scan continues after it. */
  lemma {:induction false} ReplaceAllPlainPrefix(p: TagPattern, x: string, y: string, rep: string)
    requires '<' !in x
    ensures ReplaceAll(p, x + y, rep) == x + ReplaceAll(p, y, rep)
    decreases |x|
  {
    if |x| > 0 {
      var s := x + y;
      assert s[0] == x[0] && s[1..] == x[1..] + y;
      assert TagMatchLength(p, s) == 0;
      assert ReplaceAll(p, s, rep) == [x[0]] + ReplaceAll(p, s[1..], rep);
      ReplaceAllPlainPrefix(p, x[1..], y, rep);
      var t := ReplaceAll(p, y, rep);
      assert [x[0]] + (x[1..] + t) == x + t;
    } else {
      assert x + y == y;
    }
  }

  /** A replacement introduces no character that neither the input nor the replacement holds. */
  lemma {:induction false} ReplaceAllChars(p: TagPattern, s: string, rep: string, c: char)
    requires c !in s && c !in rep
    ensures c !in ReplaceAll(p, s, rep)
    decreases |s|
  {
    if |s| > 0 {
      var n := TagMatchLength(p, s);
      if n > 0 {
        ReplaceAllChars(p, s[n..], rep, c);
      } else {
        ReplaceAllChars(p, s[1..], rep, c);
      }
    }
  }

  /** No '<' is followed, anywhere later, by a '>': nothing tag-shaped is left. */
  predicate NoTag(s: string) {
    forall i, j :: 0 <= i < j < |s| && s[i] == '<' ==> s[j] != '>'
  }

  /** The last pass removes every complete tag. */
  lemma {:induction false} RemoveTagsLeavesNoTag(s: string)
    ensures NoTag(ReplaceAll(AnyTag, s, ""))
    decreases |s|
  {
    if |s| > 0 {
      var n := TagMatchLength(AnyTag, s);
      if n > 0 {
        RemoveTagsLeavesNoTag(s[n..]);
        assert ReplaceAll(AnyTag, s, "") == ReplaceAll(AnyTag, s[n..], "");
      } else {
        RemoveTagsLeavesNoTag(s[1..]);
        var rest := ReplaceAll(AnyTag, s[1..], "");
        if s[0] == '<' {
          assert '>' !in s[1..];
          ReplaceAllChars(AnyTag, s[1..], "", '>');
        }
        assert ReplaceAll(AnyTag, s, "") == [s[0]] + rest;
      }
    }
  }

  /** The five passes of `parseJobFromEmail`: line-ending tags become "\n", every other tag goes. */
  function StripTags(s: string): (r: string)
    ensures NoTag(r)
  {
    var t := ReplaceAll(HeadingEnd, ReplaceAll(DivEnd, ReplaceAll(ParagraphEnd, ReplaceAll(LineBreakTag, s, "\n"), "\n"), "\n"), "\n");
    RemoveTagsLeavesNoTag(t);
    ReplaceAll(AnyTag, t, "")
  }

  /** Plain text (no '<') is left alone by the tag passes. */
  lemma StripTagsPlain(s: string)
    requires '<' !in s
    ensures StripTags(s) == s
  {
    ReplaceAllPlain(LineBreakTag, s, "\n");
    ReplaceAllPlain(ParagraphEnd, s, "\n");
    ReplaceAllPlain(DivEnd, s, "\n");
    ReplaceAllPlain(HeadingEnd, s, "\n");
    ReplaceAllPlain(AnyTag, s, "");
  }

  /** When the first pass leaves no '<', the later passes change nothing. */
  lemma StripTagsAfterLineBreaks(s: string)
    requires '<' !in ReplaceAll(LineBreakTag, s, "\n")
    ensures StripTags(s) == ReplaceAll(LineBreakTag, s, "\n")
  {
    var u := ReplaceAll(LineBreakTag, s, "\n");
    ReplaceAllPlain(ParagraphEnd, u, "\n");
    ReplaceAllPlain(DivEnd, u, "\n");
    ReplaceAllPlain(HeadingEnd, u, "\n");
    ReplaceAllPlain(AnyTag, u, "");
  }

  /** When the second pass leaves no '<', the later passes change nothing. */
  lemma StripTagsAfterParagraphEnds(s: string)
    requires '<' !in ReplaceAll(ParagraphEnd, ReplaceAll(LineBreakTag, s, "\n"), "\n")
    ensures StripTags(s) == ReplaceAll(ParagraphEnd, ReplaceAll(LineBreakTag, s, "\n"), "\n")
  {
    var u := ReplaceAll(ParagraphEnd, ReplaceAll(LineBreakTag, s, "\n"), "\n");
    ReplaceAllPlain(DivEnd, u, "\n");
    ReplaceAllPlain(HeadingEnd, u, "\n");
    ReplaceAllPlain(AnyTag, u, "");
  }

  /** A `<br>` at the head of plain text becomes "\n". */
  lemma LineBreakHead(y: string)
    requires '<' !in y
    ensures ReplaceAll(LineBreakTag, "<br>" + y, "\n") == "\n" + y
  {
    var t := "<br>" + y;
    assert TagMatchLength(LineBreakTag, t) == 4 by {
      assert t[..3] == "<br" && t[3] == '>';
      assert LeadingSpaces(t[3..]) == 0;
    }
    assert t[4..] == y;
    ReplaceAllPlain(LineBreakTag, y, "\n");
  }

  /** The first pass turns one `<br>` in plain text into "\n". */
  lemma LineBreakPass(x: string, y: string)
    requires '<' !in x && '<' !in y
    ensures ReplaceAll(LineBreakTag, x + "<br>" + y, "\n") == x + "\n" + y
  {
    ReplaceAllPlainPrefix(LineBreakTag, x, "<br>" + y, "\n");
    LineBreakHead(y);
    ConcatAssoc(x, "<br>", y);
    ConcatAssoc(x, "\n", y);
  }

  /** In plain text, one `<br>` becomes a line break. */
  lemma StripTagsLineBreak(x: string, y: string)
    requires '<' !in x && '<' !in y
    ensures StripTags(x + "<br>" + y) == x + "\n" + y
  {
    LineBreakPass(x, y);
    StripTagsAfterLineBreaks(x + "<br>" + y);
  }

  /** A `</p>` at the head of plain text survives the first pass. */
  lemma ParagraphEndSurvivesLineBreaks(y: string)
    requires '<' !in y
    ensures ReplaceAll(LineBreakTag, "</p>" + y, "\n") == "</p>" + y
  {
    var t := "</p>" + y;
    assert t[1] == '/';
    assert TagMatchLength(LineBreakTag, t) == 0;
    assert t[1..] == "/p>" + y;
    ReplaceAllPlain(LineBreakTag, t[1..], "\n");
    assert [t[0]] + t[1..] == t;
  }

  /** A `</p>` at the head of plain text becomes "\n" in the second pass. */
  lemma ParagraphEndHead(y: string)
    requires '<' !in y
    ensures ReplaceAll(ParagraphEnd, "</p>" + y, "\n") == "\n" + y
  {
    var t := "</p>" + y;
    assert TagMatchLength(ParagraphEnd, t) == 4 by {
      assert t[..4] == "</p>";
      assert ToLower("</p>") == "</p>" by {
        ToLowerFixesLower("</p>");
      }
    }
    assert t[4..] == y;
    ReplaceAllPlain(ParagraphEnd, y, "\n");
  }

  /** The first pass leaves a `</p>` in plain text alone. */
  lemma ParagraphEndFirstPass(x: string, y: string)
    requires '<' !in x && '<' !in y
    ensures ReplaceAll(LineBreakTag, x + "</p>" + y, "\n") == x + "</p>" + y
  {
    ParagraphEndSurvivesLineBreaks(y);
    ReplaceAllPlainPrefix(LineBreakTag, x, "</p>" + y, "\n");
    ConcatAssoc(x, "</p>", y);
  }

  /** The second pass turns one `</p>` in plain text into "\n". */
  lemma ParagraphEndSecondPass(x: string, y: string)
    requires '<' !in x && '<' !in y
    ensures ReplaceAll(ParagraphEnd, x + "</p>" + y, "\n") == x + "\n" + y
  {
    ParagraphEndHead(y);
    ReplaceAllPlainPrefix(ParagraphEnd, x, "</p>" + y, "\n");
    ConcatAssoc(x, "</p>", y);
    ConcatAssoc(x, "\n", y);
  }

  /** In plain text, one `</p>` becomes a line break. */
  lemma StripTagsParagraphEnd(x: string, y: string)
    requires '<' !in x && '<' !in y
    ensures StripTags(x + "</p>" + y) == x + "\n" + y
  {
    ParagraphEndFirstPass(x, y);
    ParagraphEndSecondPass(x, y);
    StripTagsAfterParagraphEnds(x + "</p>" + y);
  }

  // ---------------------------------------------------------------------------
  // Line clean-up
  // ---------------------------------------------------------------------------

  /** `line.replace(/\s+/g, ' ').trim()`. */
  function CleanLine(line: string): (r: string)
    ensures '\n' !in r
  {
    CleanLineShape(line);
    Trim(CollapseSpaces(line))
  }

  /** A cleaned line is trimmed, holds no white space but single ' ' characters, and is its own clean-up. */
  lemma CleanLineShape(line: string)
    ensures var r := Trim(CollapseSpaces(line));
      IsTrimmed(r) && Collapsed(r) && '\n' !in r && Trim(CollapseSpaces(r)) == r
  {
    var r := Trim(CollapseSpaces(line));
    CollapseSpacesCollapsed(line);
    TrimPreservesCollapsed(CollapseSpaces(line));
    CollapsedHasNoNewline(r);
    CollapseFixesCollapsed(r);
    TrimFixesTrimmed(r);
  }

  lemma CleanLineIdempotent(line: string)
    ensures CleanLine(CleanLine(line)) == CleanLine(line)
  {
    CleanLineShape(line);
  }

  /** `.map(CleanLine).filter(line => line.length > 0)`. */
  function CleanLines(lines: seq<string>): (r: seq<string>)
    ensures forall i :: 0 <= i < |r| ==> r[i] != "" && '\n' !in r[i]
  {
    if |lines| == 0 then []
    else
      var c := CleanLine(lines[0]);
      (if c == "" then [] else [c]) + CleanLines(lines[1..])
  }

  /** Cleaning the cleaned lines again changes nothing. */
  lemma {:induction false} CleanLinesIdempotent(lines: seq<string>)
    ensures CleanLines(CleanLines(lines)) == CleanLines(lines)
  {
    if |lines| > 0 {
      var c := CleanLine(lines[0]);
      var rest := CleanLines(lines[1..]);
      var r := CleanLines(lines);
      assert r == (if c == "" then [] else [c]) + rest;
      CleanLinesIdempotent(lines[1..]);
      if c != "" {
        CleanLineIdempotent(lines[0]);
        assert r[0] == c && r[1..] == rest;
        assert CleanLines(r) == (if CleanLine(r[0]) == "" then [] else [CleanLine(r[0])]) + CleanLines(r[1..]);
      } else {
        assert r == rest;
      }
    }
  }

  /** The line clean-up of `parseJobFromEmail`: split on "\n", clean each line, drop empty ones, re-join. */
  function NormalizeLines(text: string): string {
    Join(CleanLines(Split(text, '\n')), "\n")
  }

  /** The lines of the result are exactly the non-empty cleaned lines of the input. */
  lemma NormalizeLinesLines(text: string)
    requires NormalizeLines(text) != ""
    ensures Split(NormalizeLines(text), '\n') == CleanLines(Split(text, '\n'))
  {
    var ls := CleanLines(Split(text, '\n'));
    SplitJoin(ls, '\n');
  }

  /** Cleaning lines twice is cleaning them once. */
  lemma NormalizeLinesIdempotent(text: string)
    ensures NormalizeLines(NormalizeLines(text)) == NormalizeLines(text)
  {
    var ls := CleanLines(Split(text, '\n'));
    if |ls| == 0 {
      assert NormalizeLines(text) == "";
      assert Split("", '\n') == [""];
    } else {
      SplitJoin(ls, '\n');
      CleanLinesIdempotent(Split(text, '\n'));
    }
  }

  // ---------------------------------------------------------------------------
  // The parsers
  // ---------------------------------------------------------------------------

  /** `emailSubject ? subject + "\n\n" + body : body`. */
  function FullText(body: string, subject: Option<string>): string {
    if Truthy(subject) then subject.value + "\n\n" + body else body
  }

  /** `emailBody.substring(0, MAX_EMAIL_DESCRIPTION_LENGTH)`. */
  function Description(body: string): (r: string)
    ensures |r| <= MaxDescriptionLength && |r| <= |body| && r == body[..|r|]
    ensures |body| <= MaxDescriptionLength ==> r == body
  {
    if |body| <= MaxDescriptionLength then body else body[..MaxDescriptionLength]
  }

  /** `parseJobFromEmail(emailBody, emailSubject, fromAddress)`. */
  function ParseJobFromEmail(body: string, subject: Option<string>, fromAddress: Option<string>, rx: EmailPatterns): (r: ParsedEmail)
    ensures var urls := ExtractUrls(FullText(body, subject), rx);
      r.jobUrl == (if |urls| > 0 then Some(urls[0]) else None)
    ensures r.description == Some(Description(body))
    ensures var plain := NormalizeLines(StripTags(FullText(body, subject)));
      && r.jobTitle == JsOr(ExtractJobTitle(plain, rx), subject)
      && r.company == ExtractCompany(plain, fromAddress, rx)
      && r.location == ExtractLocation(plain, rx)
      && r.salaryRange == ExtractSalaryRange(plain, rx)
  {
    var full := FullText(body, subject);
    var urls := ExtractUrls(full, rx);
    var plain := NormalizeLines(StripTags(full));
    ParsedEmail(
      JsOr(ExtractJobTitle(plain, rx), subject),
      ExtractCompany(plain, fromAddress, rx),
      ExtractLocation(plain, rx),
      if |urls| > 0 then Some(urls[0]) else None,
      Some(Description(body)),
      ExtractSalaryRange(plain, rx))
  }

  /** The description depends on the body alone: not on the subject, the sender or the stripped text. */
  lemma DescriptionIgnoresSubject(body: string, s1: Option<string>, s2: Option<string>, f1: Option<string>, f2: Option<string>, rx: EmailPatterns)
    ensures ParseJobFromEmail(body, s1, f1, rx).description == ParseJobFromEmail(body, s2, f2, rx).description
    ensures |ParseJobFromEmail(body, s1, f1, rx).description.value| <= MaxDescriptionLength
  {
  }

  /** Without a title pattern hit, the subject (present, empty or absent) is the title. */
  lemma TitleFallsBackToSubject(body: string, subject: Option<string>, fromAddress: Option<string>, rx: EmailPatterns)
    requires forall i :: 0 <= i < |rx.title| ==> !Truthy(rx.title[i](NormalizeLines(StripTags(FullText(body, subject)))))
    ensures ParseJobFromEmail(body, subject, fromAddress, rx).jobTitle == subject
  {
  }

  /** An empty e-mail without subject or sender yields neither title nor company. */
  lemma EmptyEmailHasNoTitle(rx: EmailPatterns)
    requires forall i :: 0 <= i < |rx.title| ==> !Truthy(rx.title[i](""))
    requires forall i :: 0 <= i < |rx.company| ==> !Truthy(rx.company[i](""))
    ensures ParseJobFromEmail("", None, None, rx).jobTitle.None?
    ensures ParseJobFromEmail("", None, None, rx).company.None?
  {
    assert StripTags("") == "";
    assert Split("", '\n') == [""];
    assert NormalizeLines("") == "";
  }

  /** `parseLinkedInJobAlert(emailBody)`. */
  function ParseLinkedInJobAlert(body: string, rx: EmailPatterns): (r: ParsedEmail)
    ensures r.jobUrl.Some? ==> r.jobUrl.value in ExtractUrls(body, rx) && Contains(r.jobUrl.value, "linkedin.com")
    ensures r.jobUrl.None? <==> forall i :: 0 <= i < |ExtractUrls(body, rx)| ==> !Contains(ExtractUrls(body, rx)[i], "linkedin.com")
    ensures r.description.None? && r.salaryRange.None?
  {
    var trimmed := (o: Option<string>) => if o.Some? then Some(Trim(o.value)) else None;
    ParsedEmail(
      trimmed(rx.linkedInTitle(body)),
      trimmed(rx.linkedInCompany(body)),
      trimmed(rx.linkedInLocation(body)),
      Find(ExtractUrls(body, rx), (u: string) => Contains(u, "linkedin.com")),
      None,
      None)
  }

  /** `parseIndeedJobAlert(emailBody)`. */
  function ParseIndeedJobAlert(body: string, rx: EmailPatterns): (r: ParsedEmail)
    ensures r.jobUrl.Some? ==> r.jobUrl.value in ExtractUrls(body, rx) && Contains(r.jobUrl.value, "indeed.com")
    ensures r.jobUrl.None? <==> forall i :: 0 <= i < |ExtractUrls(body, rx)| ==> !Contains(ExtractUrls(body, rx)[i], "indeed.com")
    ensures r.company.Some? ==> Collapsed(r.company.value)
    ensures r.location.None? && r.description.None? && r.salaryRange.None?
  {
    ParsedEmail(
      if rx.indeedTitle(body).Some? then Some(Trim(rx.indeedTitle(body).value)) else None,
      if rx.indeedCompany(body).Some? then Some(CleanCapture(rx.indeedCompany(body).value)) else None,
      None,
      Find(ExtractUrls(body, rx), (u: string) => Contains(u, "indeed.com")),
      None,
      None)
  }

  /** `fromAddress?.includes(marker) || emailBody.includes(marker)`. */
  predicate Mentions(body: string, fromAddress: Option<string>, marker: string) {
    (fromAddress.Some? && Contains(fromAddress.value, marker)) || Contains(body, marker)
  }

  /** `parseJobEmailAuto`: LinkedIn first, then Indeed, else the generic parser. */
  function ParseJobEmailAuto(body: string, subject: Option<string>, fromAddress: Option<string>, rx: EmailPatterns): (r: ParsedEmail)
    ensures Mentions(body, fromAddress, "linkedin.com") ==> r == ParseLinkedInJobAlert(body, rx)
    ensures !Mentions(body, fromAddress, "linkedin.com") && Mentions(body, fromAddress, "indeed.com")
      ==> r == ParseIndeedJobAlert(body, rx)
    ensures !Mentions(body, fromAddress, "linkedin.com") && !Mentions(body, fromAddress, "indeed.com")
      ==> r == ParseJobFromEmail(body, subject, fromAddress, rx)
  {
    if Mentions(body, fromAddress, "linkedin.com") then ParseLinkedInJobAlert(body, rx)
    else if Mentions(body, fromAddress, "indeed.com") then ParseIndeedJobAlert(body, rx)
    else ParseJobFromEmail(body, subject, fromAddress, rx)
  }

  /** The provider parsers never look at the subject: for a LinkedIn or Indeed mail it changes nothing. */
  lemma ProviderMailIgnoresSubject(body: string, s1: Option<string>, s2: Option<string>, fromAddress: Option<string>, rx: EmailPatterns)
    requires Mentions(body, fromAddress, "linkedin.com") || Mentions(body, fromAddress, "indeed.com")
    ensures ParseJobEmailAuto(body, s1, fromAddress, rx) == ParseJobEmailAuto(body, s2, fromAddress, rx)
    ensures ParseJobEmailAuto(body, s1, fromAddress, rx).description.None?
  {
  }
}
