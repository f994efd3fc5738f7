/**
 * The duplicate-detection engine of `src/utils/deduplication.utils.ts`:
 * URL and job-title canonicalisation, Levenshtein edit distance, the
 * similarity ratio and the three match predicates.
 *
 * The WHATWG `URL` parser is a parameter: it either rejects its input or
 * yields the host name, the path and the query pairs in order.
 */
module Dedup {
  import opened Wrappers
  import opened Text
  import opened Seqs
  import opened Url

  /** The query parameters `normalizeUrl` deletes. */
  const TrackingParams: seq<string> :=
    ["utm_source", "utm_medium", "utm_campaign", "utm_content", "utm_term", "ref", "source"]

  /** The default `threshold` of `areJobTitlesSimilar`. */
  const DefaultTitleThreshold: real := 0.85

  // ---------------------------------------------------------------------------
  // normalizeUrl
  // ---------------------------------------------------------------------------

  /** `searchParams.delete(k)` for every tracking key `k`: all pairs with such a key go, the rest stay in order. */
  function StripTrackingParams(q: seq<(string, string)>): (r: seq<(string, string)>)
    ensures |r| <= |q|
    ensures forall i :: 0 <= i < |r| ==> r[i] in q && r[i].0 !in TrackingParams
    ensures forall i :: 0 <= i < |q| && q[i].0 !in TrackingParams ==> q[i] in r
  {
    Filter(q, (kv: (string, string)) => kv.0 !in TrackingParams)
  }

  /** `searchParams.toString()`: `k=v` pairs joined by `&` (keys and values as the parser yields them). */
  function SerializeQuery(q: seq<(string, string)>): string {
    Join(seq(|q|, i requires 0 <= i < |q| => q[i].0 + "=" + q[i].1), "&")
  }

  /** `hostname.replace(/^www\./, '')`. */
  function StripWww(host: string): string {
    if StartsWith(host, "www.") then host[4..] else host
  }

  /** `replace(/\/+$/, '')`: every trailing '/' removed. */
  function StripTrailingSlashes(s: string): (r: string)
    ensures |r| <= |s| && r == s[..|r|]
    ensures forall i :: |r| <= i < |s| ==> s[i] == '/'
    ensures |r| == 0 || r[|r| - 1] != '/'
  {
    if |s| > 0 && s[|s| - 1] == '/' then StripTrailingSlashes(s[..|s| - 1]) else s
  }

  /** The normal form of a URL the parser accepted. */
  function NormalizeParsed(p: ParsedUrl): (r: string)
    ensures IsLower(r)
  {
    var base := StripTrailingSlashes(StripWww(p.hostname) + p.pathname);
    var query := SerializeQuery(StripTrackingParams(p.search));
    ToLower(if query != "" then base + "?" + query else base)
  }

  /** `normalizeUrl(url)`. */
  function NormalizeUrl(url: Option<string>, parse: UrlParser): (r: string)
    ensures !Truthy(url) ==> r == ""
    ensures IsLower(r)
  {
    if !Truthy(url) then ""
    else match parse(url.value)
      case Some(p) => NormalizeParsed(p)
      case None =>
        ToLowerIsLower(url.value);
        TrimPreservesLower(ToLower(url.value));
        Trim(ToLower(url.value))
  }

  /** Input the parser rejects falls back to lower-casing and trimming, so "not a url" stays as it is. */
  lemma NormalizeUrlUnparsable(u: string, parse: UrlParser)
    requires u != "" && parse(u).None?
    ensures NormalizeUrl(Some(u), parse) == Trim(ToLower(u))
    ensures IsLower(u) && IsTrimmed(u) ==> NormalizeUrl(Some(u), parse) == u
  {
  }

  /** Trailing slashes on the path do not change the normal form. */
  lemma {:induction false} NormalizeIgnoresTrailingSlash(host: string, path: string, q: seq<(string, string)>)
    ensures NormalizeParsed(ParsedUrl(host, path + "/", q)) == NormalizeParsed(ParsedUrl(host, path, q))
  {
    var s := StripWww(host) + path;
    assert StripWww(host) + (path + "/") == s + "/";
    assert (s + "/")[..|s + "/"| - 1] == s;
  }

  /** A leading "www." label on the host does not change the normal form. */
  lemma NormalizeIgnoresWww(host: string, path: string, q: seq<(string, string)>)
    requires !StartsWith(host, "www.")
    ensures NormalizeParsed(ParsedUrl("www." + host, path, q)) == NormalizeParsed(ParsedUrl(host, path, q))
  {
    assert ("www." + host)[4..] == host;
  }

  lemma {:induction false} StripTrackingAppend(q: seq<(string, string)>, k: string, v: string)
    requires k in TrackingParams
    ensures StripTrackingParams(q + [(k, v)]) == StripTrackingParams(q)
    decreases |q|
  {
    if |q| == 0 {
      assert q + [(k, v)] == [(k, v)];
    } else {
      assert (q + [(k, v)])[1..] == q[1..] + [(k, v)];
      StripTrackingAppend(q[1..], k, v);
    }
  }

  /** A tracking parameter appended to the query does not change the normal form. */
  lemma NormalizeIgnoresTracking(host: string, path: string, q: seq<(string, string)>, k: string, v: string)
    requires k in TrackingParams
    ensures NormalizeParsed(ParsedUrl(host, path, q + [(k, v)])) == NormalizeParsed(ParsedUrl(host, path, q))
  {
    StripTrackingAppend(q, k, v);
  }

  /** A query made only of tracking parameters leaves no "?" behind. */
  lemma NormalizeOnlyTracking(host: string, path: string, q: seq<(string, string)>)
    requires forall i :: 0 <= i < |q| ==> q[i].0 in TrackingParams
    ensures NormalizeParsed(ParsedUrl(host, path, q)) == NormalizeParsed(ParsedUrl(host, path, []))
  {
    assert StripTrackingParams(q) == [];
  }

  // ---------------------------------------------------------------------------
  // levenshteinDistance
  // ---------------------------------------------------------------------------

  function Min3(x: nat, y: nat, z: nat): (m: nat)
    ensures m <= x && m <= y && m <= z
    ensures m == x || m == y || m == z
  {
    if x <= y && x <= z then x else if y <= z then y else z
  }

  lemma Min3Swap(x: nat, y: nat, z: nat)
    ensures Min3(x, y, z) == Min3(y, x, z)
  {
  }

  /** An inner cell of the table in terms of its three neighbours. */
  lemma CellStep(a: string, b: string, i: nat, j: nat)
    requires 0 < i <= |a| && 0 < j <= |b|
    ensures Cell(a, b, i, j) == Min3(Cell(a, b, i - 1, j) + 1, Cell(a, b, i, j - 1) + 1,
                                     Cell(a, b, i - 1, j - 1) + (if a[i - 1] == b[j - 1] then 0 else 1))
  {
  }

  /**
   * Cell `matrix[i][j]` of the source's table: row 0 and column 0 hold the
   * distances to the empty prefix, every other cell is the least of a
   * deletion, an insertion and a (possibly free) substitution.
   */
  function Cell(a: string, b: string, i: nat, j: nat): nat
    requires i <= |a| && j <= |b|
    decreases i + j
  {
    if i == 0 then j
    else if j == 0 then i
    else Min3(Cell(a, b, i - 1, j) + 1,
              Cell(a, b, i, j - 1) + 1,
              Cell(a, b, i - 1, j - 1) + (if a[i - 1] == b[j - 1] then 0 else 1))
  }

  /** The edit distance: the table's last cell. */
  function Distance(a: string, b: string): nat {
    Cell(a, b, |a|, |b|)
  }

  /** A cell reads only the first `i` characters of `a` and the first `j` of `b`. */
  lemma {:induction false} CellOfPrefixes(a: string, b: string, a2: string, b2: string, i: nat, j: nat)
    requires i <= |a| && i <= |a2| && j <= |b| && j <= |b2|
    requires a[..i] == a2[..i] && b[..j] == b2[..j]
    ensures Cell(a, b, i, j) == Cell(a2, b2, i, j)
    decreases i + j
  {
    if i > 0 && j > 0 {
      assert a[i - 1] == a[..i][i - 1] && a2[i - 1] == a2[..i][i - 1];
      assert b[j - 1] == b[..j][j - 1] && b2[j - 1] == b2[..j][j - 1];
      assert a[..i - 1] == a[..i][..i - 1] && a2[..i - 1] == a2[..i][..i - 1];
      assert b[..j - 1] == b[..j][..j - 1] && b2[..j - 1] == b2[..j][..j - 1];
      CellOfPrefixes(a, b, a2, b2, i - 1, j);
      CellOfPrefixes(a, b, a2, b2, i, j - 1);
      CellOfPrefixes(a, b, a2, b2, i - 1, j - 1);
    }
  }

  /** Cell `(i, j)` of the table is the distance between the prefixes it covers. */
  lemma CellIsPrefixDistance(a: string, b: string, i: nat, j: nat)
    requires i <= |a| && j <= |b|
    ensures Distance(a[..i], b[..j]) == Cell(a, b, i, j)
  {
    assert a[..i][..i] == a[..i] && b[..j][..j] == b[..j];
    CellOfPrefixes(a[..i], b[..j], a, b, i, j);
  }

  /** Row 0 and column 0 of the table: distances to an empty prefix. */
  lemma DistanceEdge(a: string, b: string, i: nat, j: nat)
    requires i <= |a| && j <= |b| && (i == 0 || j == 0)
    ensures Distance(a[..i], b[..j]) == i + j
  {
    CellIsPrefixDistance(a, b, i, j);
  }

  /** An inner cell of the table in terms of its three neighbours. */
  lemma DistanceCell(a: string, b: string, i: nat, j: nat)
    requires 0 < i <= |a| && 0 < j <= |b|
    ensures Distance(a[..i], b[..j]) ==
      Min3(Distance(a[..i - 1], b[..j]) + 1,
           Distance(a[..i], b[..j - 1]) + 1,
           Distance(a[..i - 1], b[..j - 1]) + (if a[i - 1] == b[j - 1] then 0 else 1))
  {
    CellIsPrefixDistance(a, b, i, j);
    CellIsPrefixDistance(a, b, i - 1, j);
    CellIsPrefixDistance(a, b, i, j - 1);
    CellIsPrefixDistance(a, b, i - 1, j - 1);
  }

  /** `levenshteinDistance(a, b)`, filling the table row by row. */
  method LevenshteinDistance(a: string, b: string) returns (d: nat)
    ensures d == Distance(a, b)
  {
    var prev: seq<nat> := seq(|b| + 1, j requires 0 <= j <= |b| => j);
    forall j | 0 <= j <= |b|
      ensures prev[j] == Distance(a[..0], b[..j])
    {
      DistanceEdge(a, b, 0, j);
    }
    var i := 1;
    while i <= |a|
      invariant 1 <= i <= |a| + 1
      invariant |prev| == |b| + 1
      invariant forall j :: 0 <= j <= |b| ==> prev[j] == Distance(a[..i - 1], b[..j])
    {
      var cur: seq<nat> := [i];
      DistanceEdge(a, b, i, 0);
      var j := 1;
      while j <= |b|
        invariant 1 <= j <= |b| + 1
        invariant |cur| == j
        invariant forall k :: 0 <= k < j ==> cur[k] == Distance(a[..i], b[..k])
      {
        var cost := if a[i - 1] == b[j - 1] then 0 else 1;
        DistanceCell(a, b, i, j);
        cur := cur + [Min3(prev[j] + 1, cur[j - 1] + 1, prev[j - 1] + cost)];
        j := j + 1;
      }
      prev := cur;
      i := i + 1;
    }
    assert a[..|a|] == a && b[..|b|] == b;
    d := prev[|b|];
  }

  /** The cells on the diagonal of a string against itself are 0. */
  lemma {:induction false} CellSelf(a: string, i: nat)
    requires i <= |a|
    ensures Cell(a, a, i, i) == 0
  {
    if i > 0 {
      CellSelf(a, i - 1);
    }
  }

  /** A string is at distance 0 from itself; the empty string is |s| edits from s, either way round. */
  lemma DistanceSelfAndEmpty(a: string)
    ensures Distance(a, a) == 0
    ensures Distance(a, "") == |a| && Distance("", a) == |a|
  {
    CellSelf(a, |a|);
  }

  lemma {:induction false} CellSymmetric(a: string, b: string, i: nat, j: nat)
    requires i <= |a| && j <= |b|
    ensures Cell(a, b, i, j) == Cell(b, a, j, i)
    decreases i + j
  {
    if i > 0 && j > 0 {
      CellSymmetric(a, b, i - 1, j);
      CellSymmetric(a, b, i, j - 1);
      CellSymmetric(a, b, i - 1, j - 1);
      CellSymmetricStep(a, b, i, j);
    }
  }

  lemma CellSymmetricStep(a: string, b: string, i: nat, j: nat)
    requires 0 < i <= |a| && 0 < j <= |b|
    requires Cell(a, b, i - 1, j) == Cell(b, a, j, i - 1)
    requires Cell(a, b, i, j - 1) == Cell(b, a, j - 1, i)
    requires Cell(a, b, i - 1, j - 1) == Cell(b, a, j - 1, i - 1)
    ensures Cell(a, b, i, j) == Cell(b, a, j, i)
  {
    CellStep(a, b, i, j);
    CellStep(b, a, j, i);
    var c := if a[i - 1] == b[j - 1] then 0 else 1;
    Min3Swap(Cell(a, b, i - 1, j) + 1, Cell(a, b, i, j - 1) + 1, Cell(a, b, i - 1, j - 1) + c);
  }

  lemma DistanceSymmetric(a: string, b: string)
    ensures Distance(a, b) == Distance(b, a)
  {
    CellSymmetric(a, b, |a|, |b|);
  }

  /** No cell exceeds the longer of its two prefixes: follow the diagonal, then the edge. */
  lemma {:induction false} CellUpper(a: string, b: string, i: nat, j: nat)
    requires i <= |a| && j <= |b|
    ensures Cell(a, b, i, j) <= i || Cell(a, b, i, j) <= j
    decreases i + j
  {
    if i > 0 && j > 0 {
      CellUpper(a, b, i - 1, j - 1);
      CellStep(a, b, i, j);
    }
  }

  /** No cell is below the difference of its two prefix lengths. */
  lemma {:induction false} CellLower(a: string, b: string, i: nat, j: nat)
    requires i <= |a| && j <= |b|
    ensures i - j <= Cell(a, b, i, j) && j - i <= Cell(a, b, i, j)
    decreases i + j
  {
    if i > 0 && j > 0 {
      CellLower(a, b, i - 1, j);
      CellLower(a, b, i, j - 1);
      CellLower(a, b, i - 1, j - 1);
      CellStep(a, b, i, j);
    }
  }

  /** The distance lies between the length difference and the longer length. */
  lemma DistanceBounds(a: string, b: string)
    ensures Distance(a, b) <= if |a| >= |b| then |a| else |b|
    ensures Distance(a, b) >= if |a| >= |b| then |a| - |b| else |b| - |a|
  {
    CellUpper(a, b, |a|, |b|);
    CellLower(a, b, |a|, |b|);
  }

  lemma {:induction false} CellZeroIffEqual(a: string, b: string, i: nat, j: nat)
    requires i <= |a| && j <= |b|
    ensures Cell(a, b, i, j) == 0 <==> a[..i] == b[..j]
    decreases i + j
  {
    if i > 0 && j > 0 {
      CellZeroIffEqual(a, b, i - 1, j - 1);
      CellStep(a, b, i, j);
      PrefixesEqualStep(a, b, i, j);
    } else if i > 0 {
      assert |a[..i]| != |b[..j]|;
    } else if j > 0 {
      assert |a[..i]| != |b[..j]|;
    }
  }

  /** Two non-empty prefixes are equal exactly when their last characters and the rest are. */
  lemma PrefixesEqualStep(a: string, b: string, i: nat, j: nat)
    requires 0 < i <= |a| && 0 < j <= |b|
    ensures a[..i] == b[..j] <==> a[..i - 1] == b[..j - 1] && a[i - 1] == b[j - 1]
  {
    assert a[..i] == a[..i - 1] + [a[i - 1]];
    assert b[..j] == b[..j - 1] + [b[j - 1]];
    if a[..i] == b[..j] {
      assert a[..i - 1] == a[..i][..i - 1] && b[..j - 1] == b[..j][..j - 1];
      assert a[i - 1] == a[..i][i - 1] && b[j - 1] == b[..j][j - 1];
    }
  }

  /** Distance 0 means the strings are equal. */
  lemma DistanceZeroIffEqual(a: string, b: string)
    ensures Distance(a, b) == 0 <==> a == b
  {
    CellZeroIffEqual(a, b, |a|, |b|);
    assert a[..|a|] == a && b[..|b|] == b;
  }

  // ---------------------------------------------------------------------------
  // calculateSimilarity
  // ---------------------------------------------------------------------------

  lemma RatioInUnit(x: real, y: real)
    requires 0.0 <= x <= y && y > 0.0
    ensures 0.0 <= x / y <= 1.0
    ensures x / y == 1.0 <==> x == y
  {
    assert (x / y) * y == x;
  }

  /** `calculateSimilarity(s1, s2)` as an exact rational: (L - d) / L for the longer length L. */
  function Similarity(s1: string, s2: string): (r: real)
    ensures 0.0 <= r <= 1.0
  {
    var longer := if |s1| > |s2| then s1 else s2;
    var shorter := if |s1| > |s2| then s2 else s1;
    if |longer| == 0 then 1.0
    else
      DistanceBounds(longer, shorter);
      RatioInUnit((|longer| - Distance(longer, shorter)) as real, |longer| as real);
      (|longer| - Distance(longer, shorter)) as real / |longer| as real
  }

  lemma SimilaritySymmetric(s1: string, s2: string)
    ensures Similarity(s1, s2) == Similarity(s2, s1)
  {
    DistanceSymmetric(s1, s2);
  }

  /** Similarity 1 exactly for equal strings (two empty strings included). */
  lemma SimilarityOneIffEqual(s1: string, s2: string)
    ensures Similarity(s1, s2) == 1.0 <==> s1 == s2
  {
    var longer := if |s1| > |s2| then s1 else s2;
    var shorter := if |s1| > |s2| then s2 else s1;
    DistanceZeroIffEqual(longer, shorter);
    DistanceBounds(longer, shorter);
    if |longer| > 0 {
      RatioInUnit((|longer| - Distance(longer, shorter)) as real, |longer| as real);
    }
  }

  // ---------------------------------------------------------------------------
  // normalizeJobTitle
  // ---------------------------------------------------------------------------

  /**
   * `replace(/\s+\(.*?\)$/, '')` on whitespace-collapsed text, where `\s+`
   * can only match a single ' ' and `.` matches every remaining character:
   * when the text ends in ')', everything from the leftmost " (" on goes.
   */
  function StripParenSuffix(s: string): (r: string)
    ensures |r| <= |s| && r == s[..|r|]
  {
    if |s| > 0 && s[|s| - 1] == ')' then
      match IndexOf(s, " (")
      case Some(i) => s[..i]
      case None => s
    else s
  }

  /** No trailing parenthetical is left that `StripParenSuffix` would remove. */
  predicate NoParenSuffix(s: string) {
    !(|s| > 0 && s[|s| - 1] == ')' && Contains(s, " ("))
  }

  /** The shape of every normalised title. */
  predicate NormalTitle(s: string) {
    IsLower(s) && IsTrimmed(s) && Collapsed(s) && NoParenSuffix(s)
  }

  /** `normalizeJobTitle(title)`. */
  function NormalizeJobTitle(title: Option<string>): (r: string)
    ensures !Truthy(title) ==> r == ""
    ensures NormalTitle(r)
  {
    if !Truthy(title) then ""
    else
      var n := CollapseSpaces(Trim(ToLower(title.value)));
      NormalizeTitleShape(title.value);
      Trim(StripParenSuffix(n))
  }

  /** Cutting a trimmed, collapsed string at a space leaves it trimmed and collapsed. */
  lemma CutAtSpace(s: string, i: nat)
    requires IsTrimmed(s) && Collapsed(s) && i < |s| && s[i] == ' '
    ensures i > 0 && IsTrimmed(s[..i]) && Collapsed(s[..i])
  {
    CollapsedInfix(s, 0, i);
  }

  /** An occurrence inside a prefix is an occurrence in the whole string. */
  lemma PrefixIndexOf(s: string, i: nat, p: string)
    requires i <= |s|
    ensures IndexOf(s[..i], p).Some? ==>
      IndexOf(s[..i], p).value + |p| <= i && StartsWith(s[IndexOf(s[..i], p).value..], p)
  {
    var r := IndexOf(s[..i], p);
    if r.Some? {
      SliceOfPrefix(s, i, r.value, p);
    }
  }

  /** A slice of a prefix is the same slice of the whole string. */
  lemma SliceOfPrefix(s: string, i: nat, j: nat, p: string)
    requires i <= |s| && j + |p| <= i && s[..i][j..j + |p|] == p
    ensures StartsWith(s[j..], p)
  {
    assert s[j..][..|p|] == s[..i][j..j + |p|];
  }

  /** A leftmost occurrence bounds every occurrence inside the prefix before it. */
  lemma NoEarlierOccurrence(s: string, i: nat, p: string)
    requires i <= |s| && |p| > 0
    requires forall j :: 0 <= j < i ==> !StartsWith(s[j..], p)
    ensures !Contains(s[..i], p)
  {
    PrefixIndexOf(s, i, p);
  }

  /** Stripping the parenthetical of a lower-case, trimmed, collapsed string gives a normal title. */
  lemma StripParenShape(n: string)
    requires IsLower(n) && IsTrimmed(n) && Collapsed(n)
    ensures NormalTitle(StripParenSuffix(n))
  {
    var r := StripParenSuffix(n);
    if |n| > 0 && n[|n| - 1] == ')' {
      match IndexOf(n, " (")
      case None =>
        assert r == n;
      case Some(i) =>
        assert n[i..i + 2] == " (";
        assert n[i] == ' ';
        CutAtSpace(n, i);
        IndexOfLeftmost(n, " (");
        NoEarlierOccurrence(n, i, " (");
        assert r == n[..i];
        assert IsLower(r) by {
          forall m | 0 <= m < |r| ensures LowerChar(r[m]) == r[m] {
            assert r[m] == n[m];
          }
        }
    } else {
      assert r == n;
    }
  }

  lemma NormalizeTitleShape(t: string)
    ensures var n := CollapseSpaces(Trim(ToLower(t)));
      NormalTitle(Trim(StripParenSuffix(n))) && Trim(StripParenSuffix(n)) == StripParenSuffix(n)
  {
    var l := ToLower(t);
    ToLowerIsLower(t);
    var m := Trim(l);
    TrimPreservesLower(l);
    var n := CollapseSpaces(m);
    CollapsePreservesLower(m);
    CollapsePreservesTrimmed(m);
    CollapseSpacesCollapsed(m);
    StripParenShape(n);
    TrimFixesTrimmed(StripParenSuffix(n));
  }

  /** A normalised title is its own normal form. */
  lemma NormalizeJobTitleIdempotent(title: Option<string>)
    ensures NormalizeJobTitle(Some(NormalizeJobTitle(title))) == NormalizeJobTitle(title)
  {
    var r := NormalizeJobTitle(title);
    if r != "" {
      ToLowerFixesLower(r);
      TrimFixesTrimmed(r);
      CollapseFixesCollapsed(r);
      TrimFixesTrimmed(StripParenSuffix(r));
    }
  }

  /** Titles that differ only in letter case have the same normal form. */
  lemma NormalizeJobTitleIgnoresCase(t: string)
    ensures NormalizeJobTitle(Some(ToLower(t))) == NormalizeJobTitle(Some(t))
  {
    ToLowerIsLower(t);
    ToLowerFixesLower(ToLower(t));
  }

  // ---------------------------------------------------------------------------
  // The match predicates
  // ---------------------------------------------------------------------------

  /** `areJobTitlesSimilar(t1, t2, threshold)`. */
  predicate AreJobTitlesSimilar(t1: Option<string>, t2: Option<string>, threshold: real) {
    var n1 := NormalizeJobTitle(t1);
    var n2 := NormalizeJobTitle(t2);
    if n1 == "" || n2 == "" then false
    else if n1 == n2 then true
    else Similarity(n1, n2) >= threshold
  }

  /** Blank titles never match; equal normal forms always do, whatever the threshold. */
  lemma TitlesSimilarBlankAndEqual(t1: Option<string>, t2: Option<string>, threshold: real)
    ensures NormalizeJobTitle(t1) == "" || NormalizeJobTitle(t2) == "" ==> !AreJobTitlesSimilar(t1, t2, threshold)
    ensures NormalizeJobTitle(t1) != "" && NormalizeJobTitle(t1) == NormalizeJobTitle(t2)
      ==> AreJobTitlesSimilar(t1, t2, threshold)
  {
  }

  /** Non-blank titles match exactly when their normal forms are at least `threshold` similar. */
  lemma TitlesSimilarIffRatio(t1: Option<string>, t2: Option<string>, threshold: real)
    requires threshold <= 1.0
    requires NormalizeJobTitle(t1) != "" && NormalizeJobTitle(t2) != ""
    ensures AreJobTitlesSimilar(t1, t2, threshold)
      <==> Similarity(NormalizeJobTitle(t1), NormalizeJobTitle(t2)) >= threshold
  {
    var n1 := NormalizeJobTitle(t1);
    var n2 := NormalizeJobTitle(t2);
    SimilarityOneIffEqual(n1, n2);
  }

  lemma TitlesSimilarSymmetric(t1: Option<string>, t2: Option<string>, threshold: real)
    ensures AreJobTitlesSimilar(t1, t2, threshold) == AreJobTitlesSimilar(t2, t1, threshold)
  {
    var n1 := NormalizeJobTitle(t1);
    var n2 := NormalizeJobTitle(t2);
    SimilaritySymmetric(n1, n2);
    assert AreJobTitlesSimilar(t1, t2, threshold) == (n1 != "" && n2 != "" && (n1 == n2 || Similarity(n1, n2) >= threshold));
  }

  /** Lowering the threshold never loses a match. */
  lemma TitlesSimilarMonotone(t1: Option<string>, t2: Option<string>, lo: real, hi: real)
    requires lo <= hi && AreJobTitlesSimilar(t1, t2, hi)
    ensures AreJobTitlesSimilar(t1, t2, lo)
  {
  }

  /** `areUrlsSimilar(u1, u2)`: never fuzzy. */
  predicate AreUrlsSimilar(u1: Option<string>, u2: Option<string>, parse: UrlParser) {
    var n1 := NormalizeUrl(u1, parse);
    var n2 := NormalizeUrl(u2, parse);
    if n1 == "" || n2 == "" then false else n1 == n2
  }

  /** URL similarity is symmetric and transitive: an equivalence on URLs with a non-empty normal form. */
  lemma UrlsSimilarEquivalence(u1: Option<string>, u2: Option<string>, u3: Option<string>, parse: UrlParser)
    ensures AreUrlsSimilar(u1, u2, parse) == AreUrlsSimilar(u2, u1, parse)
    ensures AreUrlsSimilar(u1, u2, parse) && AreUrlsSimilar(u2, u3, parse) ==> AreUrlsSimilar(u1, u3, parse)
    ensures AreUrlsSimilar(u1, u1, parse) <==> NormalizeUrl(u1, parse) != ""
  {
  }

  /** The fields `arePotentialDuplicates` compares. */
  datatype JobKey = JobKey(companyId: Option<string>, jobTitleValue: Option<string>, jobUrl: Option<string>)

  /** `arePotentialDuplicates(job1, job2)` with the default title threshold. */
  predicate ArePotentialDuplicates(j1: JobKey, j2: JobKey, parse: UrlParser)
    ensures ArePotentialDuplicates(j1, j2, parse) ==> j1.companyId == j2.companyId
  {
    if j1.companyId != j2.companyId then false
    else if Truthy(j1.jobUrl) && Truthy(j2.jobUrl) && AreUrlsSimilar(j1.jobUrl, j2.jobUrl, parse) then true
    else AreJobTitlesSimilar(j1.jobTitleValue, j2.jobTitleValue, DefaultTitleThreshold)
  }

  /** Being a potential duplicate does not depend on which job is asked about first. */
  lemma PotentialDuplicatesSymmetric(j1: JobKey, j2: JobKey, parse: UrlParser)
    ensures ArePotentialDuplicates(j1, j2, parse) == ArePotentialDuplicates(j2, j1, parse)
  {
    TitlesSimilarSymmetric(j1.jobTitleValue, j2.jobTitleValue, DefaultTitleThreshold);
  }

  /** Within one company: matching URLs decide; otherwise titles decide; blank titles without URLs never match. */
  lemma PotentialDuplicatesWithinCompany(j1: JobKey, j2: JobKey, parse: UrlParser)
    requires j1.companyId == j2.companyId
    ensures Truthy(j1.jobUrl) && Truthy(j2.jobUrl) && AreUrlsSimilar(j1.jobUrl, j2.jobUrl, parse)
      ==> ArePotentialDuplicates(j1, j2, parse)
    ensures !ArePotentialDuplicates(j1, j2, parse) ==> !AreJobTitlesSimilar(j1.jobTitleValue, j2.jobTitleValue, DefaultTitleThreshold)
    ensures ArePotentialDuplicates(j1, j2, parse) && !(Truthy(j1.jobUrl) && Truthy(j2.jobUrl) && AreUrlsSimilar(j1.jobUrl, j2.jobUrl, parse))
      ==> AreJobTitlesSimilar(j1.jobTitleValue, j2.jobTitleValue, DefaultTitleThreshold)
    ensures !Truthy(j1.jobUrl) && NormalizeJobTitle(j1.jobTitleValue) == "" ==> !ArePotentialDuplicates(j1, j2, parse)
  {
  }
}
