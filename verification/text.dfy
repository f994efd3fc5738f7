/**
 * String primitives the TypeScript code gets from `String.prototype`:
 * ASCII case folding, `trim`, the `\s+` run replacement, substring search,
 * `split`/`join` and number rendering. Strings are `seq<char>`.
 */
module Text {
  import opened Wrappers

  /** The characters JavaScript's `\s` class and `String.prototype.trim` treat as white space. */
  predicate IsSpace(c: char) {
    || c == ' ' || ('\t' <= c <= '\r') || c == '\U{00A0}' || c == '\U{1680}'
    || ('\U{2000}' <= c <= '\U{200A}') || c == '\U{2028}' || c == '\U{2029}'
    || c == '\U{202F}' || c == '\U{205F}' || c == '\U{3000}' || c == '\U{FEFF}'
  }

  /** No white space anywhere in `s`. */
  predicate NoSpace(s: string) {
    forall i :: 0 <= i < |s| ==> !IsSpace(s[i])
  }

  // ---------------------------------------------------------------------------
  // Case folding (ASCII; Unicode case mapping is not modelled)
  // ---------------------------------------------------------------------------

  function LowerChar(c: char): char {
    if 'A' <= c <= 'Z' then (c as int + 32) as char else c
  }

  function UpperChar(c: char): char {
    if 'a' <= c <= 'z' then (c as int - 32) as char else c
  }

  /** `toLowerCase()`. */
  function ToLower(s: string): (r: string)
    ensures |r| == |s|
    ensures forall i :: 0 <= i < |s| ==> r[i] == LowerChar(s[i])
  {
    seq(|s|, i requires 0 <= i < |s| => LowerChar(s[i]))
  }

  /** Every character of `s` is already folded. */
  predicate IsLower(s: string) {
    forall i :: 0 <= i < |s| ==> LowerChar(s[i]) == s[i]
  }

  lemma ToLowerIsLower(s: string)
    ensures IsLower(ToLower(s))
  {
  }

  lemma ToLowerFixesLower(s: string)
    requires IsLower(s)
    ensures ToLower(s) == s
  {
  }

  /** Case-insensitive equality as the source writes it: `a.toLowerCase() === b.toLowerCase()`. */
  predicate EqualsIgnoreCase(a: string, b: string) {
    ToLower(a) == ToLower(b)
  }

  // ---------------------------------------------------------------------------
  // Trimming
  // ---------------------------------------------------------------------------

  /** Leading white space removed. */
  function TrimStart(s: string): (r: string)
    ensures |r| <= |s|
    ensures forall i :: 0 <= i < |s| - |r| ==> IsSpace(s[i])
    ensures |r| == 0 || !IsSpace(r[0])
  {
    if |s| > 0 && IsSpace(s[0]) then TrimStart(s[1..]) else s
  }

  /** Trailing white space removed. */
  function TrimEnd(s: string): (r: string)
    ensures |r| <= |s|
    ensures forall i :: |r| <= i < |s| ==> IsSpace(s[i])
    ensures |r| == 0 || !IsSpace(r[|r| - 1])
  {
    if |s| > 0 && IsSpace(s[|s| - 1]) then TrimEnd(s[..|s| - 1]) else s
  }

  /** `TrimStart(s)` is a suffix of `s`. */
  lemma {:induction false} TrimStartIsSuffix(s: string)
    ensures TrimStart(s) == s[|s| - |TrimStart(s)|..]
    decreases |s|
  {
    if |s| > 0 && IsSpace(s[0]) {
      TrimStartIsSuffix(s[1..]);
      assert s[1..][|s| - 1 - |TrimStart(s)|..] == s[|s| - |TrimStart(s)|..];
    }
  }

  /** `TrimEnd(s)` is a prefix of `s`. */
  lemma {:induction false} TrimEndIsPrefix(s: string)
    ensures TrimEnd(s) == s[..|TrimEnd(s)|]
    decreases |s|
  {
    if |s| > 0 && IsSpace(s[|s| - 1]) {
      TrimEndIsPrefix(s[..|s| - 1]);
      assert s[..|s| - 1][..|TrimEnd(s)|] == s[..|TrimEnd(s)|];
    }
  }

  /** `trim()`: `s` with white space removed at both ends. */
  function Trim(s: string): (r: string)
    ensures |r| <= |s|
    ensures IsTrimmed(r)
  {
    TrimEndIsPrefix(TrimStart(s));
    TrimEnd(TrimStart(s))
  }

  predicate IsTrimmed(s: string) {
    |s| == 0 || (!IsSpace(s[0]) && !IsSpace(s[|s| - 1]))
  }

  /** `Trim` keeps exactly the part of `s` between its outermost non-space characters. */
  lemma TrimIsInfix(s: string)
    ensures var i := |s| - |TrimStart(s)|;
      && i + |Trim(s)| <= |s| && Trim(s) == s[i..i + |Trim(s)|]
      && (forall k :: 0 <= k < i ==> IsSpace(s[k]))
      && (forall k :: i + |Trim(s)| <= k < |s| ==> IsSpace(s[k]))
  {
    TrimStartIsSuffix(s);
    TrimEndIsPrefix(TrimStart(s));
    TrimmedPrefixOfSuffix(s, |s| - |TrimStart(s)|, TrimStart(s), TrimEnd(TrimStart(s)));
  }

  /**
   * A prefix `t` of the suffix `a` of `s` starting at `i`, with white space
   * only before `a` in `s` and after `t` in `a`.
   */
  lemma TrimmedPrefixOfSuffix(s: string, i: nat, a: string, t: string)
    requires i <= |s| && a == s[i..] && |t| <= |a| && t == a[..|t|]
    requires forall k :: 0 <= k < i ==> IsSpace(s[k])
    requires forall k :: |t| <= k < |a| ==> IsSpace(a[k])
    ensures i + |t| <= |s| && t == s[i..i + |t|]
    ensures forall k :: 0 <= k < i ==> IsSpace(s[k])
    ensures forall k :: i + |t| <= k < |s| ==> IsSpace(s[k])
  {
    forall k | i + |t| <= k < |s|
      ensures IsSpace(s[k])
    {
      assert s[k] == a[k - i];
    }
  }

  lemma TrimFixesTrimmed(s: string)
    requires IsTrimmed(s)
    ensures Trim(s) == s
  {
  }

  lemma TrimOfSpacesIsEmpty(s: string)
    requires forall i :: 0 <= i < |s| ==> IsSpace(s[i])
    ensures Trim(s) == ""
  {
    TrimIsInfix(s);
  }

  lemma TrimPreservesLower(s: string)
    requires IsLower(s)
    ensures IsLower(Trim(s))
  {
    TrimIsInfix(s);
  }

  /** Case folding never turns white space into other characters or back. */
  lemma LowerCharSpace(c: char)
    ensures IsSpace(LowerChar(c)) == IsSpace(c)
  {
  }

  /** `toLowerCase` and `trim` commute: `s.trim().toLowerCase() == s.toLowerCase().trim()`. */
  lemma {:induction false} TrimStartLower(s: string)
    ensures ToLower(TrimStart(s)) == TrimStart(ToLower(s))
    decreases |s|
  {
    var l := ToLower(s);
    if |s| == 0 {
    } else {
      LowerCharSpace(s[0]);
      assert l[0] == LowerChar(s[0]);
      if IsSpace(s[0]) {
        assert l[1..] == ToLower(s[1..]);
        assert TrimStart(l) == TrimStart(l[1..]);
        TrimStartLower(s[1..]);
      } else {
        assert TrimStart(l) == l;
      }
    }
  }

  lemma {:induction false} TrimEndLower(s: string)
    ensures ToLower(TrimEnd(s)) == TrimEnd(ToLower(s))
    decreases |s|
  {
    var l := ToLower(s);
    if |s| == 0 {
    } else {
      LowerCharSpace(s[|s| - 1]);
      assert l[|s| - 1] == LowerChar(s[|s| - 1]);
      if IsSpace(s[|s| - 1]) {
        assert l[..|s| - 1] == ToLower(s[..|s| - 1]);
        assert TrimEnd(l) == TrimEnd(l[..|s| - 1]);
        TrimEndLower(s[..|s| - 1]);
      } else {
        assert TrimEnd(l) == l;
      }
    }
  }

  lemma TrimLowerCommute(s: string)
    ensures ToLower(Trim(s)) == Trim(ToLower(s))
  {
    TrimStartLower(s);
    TrimEndLower(TrimStart(s));
  }

  // ---------------------------------------------------------------------------
  // `replace(/\s+/g, rep)`
  // ---------------------------------------------------------------------------

  /** Every maximal run of white space replaced by the single character `rep`. */
  function ReplaceSpaceRuns(s: string, rep: char): (r: string)
    decreases |s|
  {
    if |s| == 0 then ""
    else if IsSpace(s[0]) then [rep] + ReplaceSpaceRuns(TrimStart(s[1..]), rep)
    else [s[0]] + ReplaceSpaceRuns(s[1..], rep)
  }

  /** `replace(/\s+/g, ' ')`. */
  function CollapseSpaces(s: string): string {
    ReplaceSpaceRuns(s, ' ')
  }

  /** No white space other than single ' ' characters between non-space ones' runs. */
  predicate Collapsed(s: string) {
    && (forall i :: 0 <= i < |s| && IsSpace(s[i]) ==> s[i] == ' ')
    && (forall i :: 0 <= i < |s| - 1 ==> !(IsSpace(s[i]) && IsSpace(s[i + 1])))
  }

  /** The non-space characters of `s`, in order. */
  function NonSpaces(s: string): string {
    if |s| == 0 then ""
    else if IsSpace(s[0]) then NonSpaces(s[1..])
    else [s[0]] + NonSpaces(s[1..])
  }

  lemma NonSpacesOfSpaces(s: string)
    requires forall i :: 0 <= i < |s| ==> IsSpace(s[i])
    ensures NonSpaces(s) == ""
  {
    if |s| > 0 {
      NonSpacesOfSpaces(s[1..]);
    }
  }

  lemma NonSpacesAppend(a: string, b: string)
    ensures NonSpaces(a + b) == NonSpaces(a) + NonSpaces(b)
  {
    if |a| == 0 {
      assert a + b == b;
    } else {
      assert (a + b)[1..] == a[1..] + b;
      NonSpacesAppend(a[1..], b);
    }
  }

  lemma NonSpacesTrimStart(s: string)
    ensures NonSpaces(TrimStart(s)) == NonSpaces(s)
  {
    var t := TrimStart(s);
    var k := |s| - |t|;
    TrimStartIsSuffix(s);
    assert s == s[..k] + t;
    NonSpacesOfSpaces(s[..k]);
    NonSpacesAppend(s[..k], t);
  }

  /** Replacing runs of white space by one non-space character `rep` leaves no white space. */
  lemma {:induction false} ReplaceSpaceRunsNoSpace(s: string, rep: char)
    requires !IsSpace(rep)
    ensures NoSpace(ReplaceSpaceRuns(s, rep))
    decreases |s|
  {
    if |s| == 0 {
    } else if IsSpace(s[0]) {
      ReplaceSpaceRunsNoSpace(TrimStart(s[1..]), rep);
    } else {
      ReplaceSpaceRunsNoSpace(s[1..], rep);
    }
  }

  /** The run replacement keeps every non-space character, in order, and adds none. */
  lemma {:induction false} CollapseKeepsNonSpaces(s: string)
    ensures NonSpaces(CollapseSpaces(s)) == NonSpaces(s)
    decreases |s|
  {
    if |s| == 0 {
    } else if IsSpace(s[0]) {
      var t := TrimStart(s[1..]);
      CollapseKeepsNonSpaces(t);
      NonSpacesTrimStart(s[1..]);
      assert ([' '] + CollapseSpaces(t))[1..] == CollapseSpaces(t);
    } else {
      CollapseKeepsNonSpaces(s[1..]);
      assert ([s[0]] + CollapseSpaces(s[1..]))[1..] == CollapseSpaces(s[1..]);
    }
  }

  /** Facts about the first character of a run replacement, used to glue the induction. */
  lemma {:induction false} ReplaceSpaceRunsHead(s: string, rep: char)
    ensures |ReplaceSpaceRuns(s, rep)| == 0 <==> |s| == 0
    ensures |s| > 0 && !IsSpace(s[0]) ==> ReplaceSpaceRuns(s, rep)[0] == s[0]
    ensures |s| > 0 && IsSpace(s[0]) ==> ReplaceSpaceRuns(s, rep)[0] == rep
  {
  }

  /** The result of `CollapseSpaces` is collapsed. */
  lemma {:induction false} CollapseSpacesCollapsed(s: string)
    ensures Collapsed(CollapseSpaces(s))
    decreases |s|
  {
    if |s| == 0 {
    } else if IsSpace(s[0]) {
      var t := TrimStart(s[1..]);
      CollapseSpacesCollapsed(t);
      ReplaceSpaceRunsHead(t, ' ');
    } else {
      CollapseSpacesCollapsed(s[1..]);
    }
  }

  /** A collapsed string is a fixed point of `CollapseSpaces`. */
  lemma {:induction false} CollapseFixesCollapsed(s: string)
    requires Collapsed(s)
    ensures CollapseSpaces(s) == s
    decreases |s|
  {
    if |s| == 0 {
    } else {
      assert Collapsed(s[1..]);
      if IsSpace(s[0]) {
        assert |s| == 1 || !IsSpace(s[1]);
        assert TrimStart(s[1..]) == s[1..];
      }
      CollapseFixesCollapsed(s[1..]);
    }
  }

  lemma CollapseIdempotent(s: string)
    ensures CollapseSpaces(CollapseSpaces(s)) == CollapseSpaces(s)
  {
    CollapseSpacesCollapsed(s);
    CollapseFixesCollapsed(CollapseSpaces(s));
  }

  /** A trimmed string stays trimmed when its inner runs are collapsed. */
  lemma {:induction false} CollapsePreservesTrimmed(s: string)
    requires IsTrimmed(s)
    ensures IsTrimmed(CollapseSpaces(s))
  {
    var r := CollapseSpaces(s);
    ReplaceSpaceRunsHead(s, ' ');
    if |s| > 0 {
      CollapseLast(s);
    }
  }

  /** When `s` ends in a non-space character, so does its run replacement. */
  lemma {:induction false} CollapseLast(s: string)
    requires |s| > 0 && !IsSpace(s[|s| - 1])
    ensures |CollapseSpaces(s)| > 0
    ensures CollapseSpaces(s)[|CollapseSpaces(s)| - 1] == s[|s| - 1]
    decreases |s|
  {
    if |s| == 1 {
      assert s[1..] == "";
      assert CollapseSpaces(s) == [s[0]] + ReplaceSpaceRuns(s[1..], ' ');
    } else if IsSpace(s[0]) {
      var t := TrimStart(s[1..]);
      TrimStartIsSuffix(s[1..]);
      assert |t| > 0 && t[|t| - 1] == s[|s| - 1];
      CollapseLast(t);
    } else {
      CollapseLast(s[1..]);
    }
  }

  lemma {:induction false} CollapsePreservesLower(s: string)
    requires IsLower(s)
    ensures IsLower(CollapseSpaces(s))
    decreases |s|
  {
    if |s| == 0 {
    } else if IsSpace(s[0]) {
      var t := TrimStart(s[1..]);
      TrimStartIsSuffix(s[1..]);
      assert IsLower(t);
      CollapsePreservesLower(t);
    } else {
      CollapsePreservesLower(s[1..]);
    }
  }

  lemma CollapsedInfix(s: string, i: int, j: int)
    requires Collapsed(s) && 0 <= i <= j <= |s|
    ensures Collapsed(s[i..j])
  {
  }

  lemma TrimPreservesCollapsed(s: string)
    requires Collapsed(s)
    ensures Collapsed(Trim(s))
  {
    TrimIsInfix(s);
    var i := |s| - |TrimStart(s)|;
    var t := Trim(s);
    assert t == s[i..i + |t|];
    CollapsedInfix(s, i, i + |t|);
  }

  /** Collapsed text holds no line break: its only white space is ' '. */
  lemma CollapsedHasNoNewline(s: string)
    requires Collapsed(s)
    ensures '\n' !in s
  {
    if '\n' in s {
      var i :| 0 <= i < |s| && s[i] == '\n';
      assert IsSpace(s[i]);
    }
  }

  // ---------------------------------------------------------------------------
  // Substring search and replacement
  // ---------------------------------------------------------------------------

  predicate StartsWith(s: string, p: string) {
    |p| <= |s| && s[..|p|] == p
  }

  predicate EndsWith(s: string, p: string) {
    |p| <= |s| && s[|s| - |p|..] == p
  }

  /** `s.includes(p)`. */
  predicate Contains(s: string, p: string)
    decreases |s|
  {
    StartsWith(s, p) || (|s| > 0 && Contains(s[1..], p))
  }

  /** `s.indexOf(p)`: the leftmost position where `p` occurs. */
  function IndexOf(s: string, p: string): (r: Option<nat>)
    ensures r.Some? ==> r.value + |p| <= |s| && s[r.value..r.value + |p|] == p
    ensures r.None? <==> !Contains(s, p)
    decreases |s|
  {
    if StartsWith(s, p) then Some(0)
    else if |s| == 0 then None
    else match IndexOf(s[1..], p)
      case None => None
      case Some(k) => Some(k + 1)
  }

  /** Concatenation regroups: `x + a + y` is `x + (a + y)`. */
  lemma ConcatAssoc(x: string, a: string, y: string)
    ensures x + a + y == x + (a + y)
  {
  }

  /** The position `IndexOf` finds is the leftmost: no occurrence starts before it. */
  lemma {:induction false} IndexOfLeftmost(s: string, p: string)
    requires IndexOf(s, p).Some?
    ensures forall j :: 0 <= j < IndexOf(s, p).value ==> !StartsWith(s[j..], p)
    decreases |s|
  {
    if !StartsWith(s, p) {
      var k := IndexOf(s[1..], p).value;
      IndexOfLeftmost(s[1..], p);
      forall j | 1 <= j <= k
        ensures !StartsWith(s[j..], p)
      {
        assert s[j..] == s[1..][j - 1..];
      }
    }
  }

  /** `s.replace(p, r)` with a string pattern: only the first occurrence is replaced. */
  function ReplaceFirst(s: string, p: string, rep: string): (r: string)
    ensures !Contains(s, p) ==> r == s
  {
    match IndexOf(s, p)
    case None => s
    case Some(i) => s[..i] + rep + s[i + |p|..]
  }

  /** When `p` occurs, its leftmost occurrence is cut out and `rep` put in its place. */
  lemma ReplaceFirstSplices(s: string, p: string, rep: string)
    requires Contains(s, p)
    ensures exists i :: 0 <= i <= |s| - |p| && s[i..i + |p|] == p && ReplaceFirst(s, p, rep) == s[..i] + rep + s[i + |p|..]
                        && forall j :: 0 <= j < i ==> !StartsWith(s[j..], p)
  {
    var i := IndexOf(s, p).value;
    IndexOfLeftmost(s, p);
    assert s[i..i + |p|] == p && ReplaceFirst(s, p, rep) == s[..i] + rep + s[i + |p|..];
  }

  /** An occurrence at position `k` is an occurrence. */
  lemma {:induction false} ContainsAt(s: string, p: string, k: nat)
    requires k + |p| <= |s| && s[k..k + |p|] == p
    ensures Contains(s, p)
    decreases k
  {
    if k > 0 {
      assert s[1..][k - 1..k - 1 + |p|] == p;
      ContainsAt(s[1..], p, k - 1);
    }
  }

  /** A string without the pattern's first character does not contain the pattern. */
  lemma {:induction false} NoHeadNoMatch(s: string, p: string)
    requires |p| > 0 && p[0] !in s
    ensures !Contains(s, p)
    decreases |s|
  {
    if |s| > 0 {
      assert s[0] != p[0];
      NoHeadNoMatch(s[1..], p);
    }
  }

  /** Replacing the first `p` in `a + p + b`, where `a` cannot hold a match, gives `a + rep + b`. */
  lemma ReplaceFirstAt(a: string, p: string, b: string, rep: string)
    requires |p| > 0 && p[0] !in a
    ensures ReplaceFirst(a + p + b, p, rep) == a + rep + b
  {
    var s := a + p + b;
    assert s[|a|..|a| + |p|] == p;
    ContainsAt(s, p, |a|);
    var i := IndexOf(s, p).value;
    assert s[|a|..][..|p|] == p;
    assert StartsWith(s[|a|..], p);
    if i < |a| {
      assert false;
    } else if i > |a| {
      IndexOfLeftmost(s, p);
      assert false;
    }
    assert s[..i] == a && s[i + |p|..] == b;
  }

  // ---------------------------------------------------------------------------
  // split / join
  // ---------------------------------------------------------------------------

  /** `s.indexOf(c)` for a character known to occur. */
  function CharIndex(s: string, c: char): (k: nat)
    requires c in s
    ensures k < |s| && s[k] == c && c !in s[..k]
  {
    if s[0] == c then 0
    else
      assert c in s[1..] by {
        var j :| 0 <= j < |s| && s[j] == c;
        assert s[1..][j - 1] == c;
      }
      var k := CharIndex(s[1..], c);
      assert s[..k + 1] == [s[0]] + s[1..][..k];
      k + 1
  }

  /** The first position of `c` is the only one with no `c` before it. */
  lemma {:induction false} CharIndexUnique(s: string, c: char, k: nat)
    requires k < |s| && s[k] == c && c !in s[..k]
    ensures CharIndex(s, c) == k
  {
    if k > 0 {
      assert s[0] == s[..k][0];
      assert s[1..][k - 1] == c;
      assert s[1..][..k - 1] == s[1..k];
      assert c !in s[1..k];
      CharIndexUnique(s[1..], c, k - 1);
    }
  }

  /** `s.split(sep)` for a one-character separator. */
  function Split(s: string, sep: char): (parts: seq<string>)
    ensures |parts| >= 1
    ensures forall i :: 0 <= i < |parts| ==> sep !in parts[i]
    decreases |s|
  {
    if sep !in s then [s]
    else
      var k := CharIndex(s, sep);
      [s[..k]] + Split(s[k + 1..], sep)
  }

  /** `parts.join(sep)`. */
  function Join(parts: seq<string>, sep: string): string {
    if |parts| == 0 then ""
    else if |parts| == 1 then parts[0]
    else parts[0] + sep + Join(parts[1..], sep)
  }

  /** Joining the pieces of a split gives back the original text. */
  lemma {:induction false} JoinSplit(s: string, sep: char)
    ensures Join(Split(s, sep), [sep]) == s
    decreases |s|
  {
    if sep in s {
      var k := CharIndex(s, sep);
      var rest := Split(s[k + 1..], sep);
      var parts := [s[..k]] + rest;
      assert Split(s, sep) == parts;
      assert parts[0] == s[..k] && parts[1..] == rest && |parts| > 1;
      assert Join(parts, [sep]) == s[..k] + [sep] + Join(rest, [sep]);
      JoinSplit(s[k + 1..], sep);
      assert s == s[..k] + [sep] + s[k + 1..];
    }
  }

  /** Splitting a join of separator-free pieces gives back the pieces. */
  lemma {:induction false} SplitJoin(parts: seq<string>, sep: char)
    requires |parts| >= 1
    requires forall i :: 0 <= i < |parts| ==> sep !in parts[i]
    ensures Split(Join(parts, [sep]), sep) == parts
    decreases |parts|
  {
    if |parts| == 1 {
    } else {
      var rest := Join(parts[1..], [sep]);
      var s := parts[0] + [sep] + rest;
      assert s[|parts[0]|] == sep;
      var k := CharIndex(s, sep);
      assert s[..|parts[0]|] == parts[0];
      assert k == |parts[0]|;
      assert s[..k] == parts[0];
      assert s[k + 1..] == rest;
      SplitJoin(parts[1..], sep);
    }
  }

  // ---------------------------------------------------------------------------
  // Numbers and JavaScript truthiness
  // ---------------------------------------------------------------------------

  function DigitChar(d: int): char
    requires 0 <= d < 10
  {
    ('0' as int + d) as char
  }

  /** `String(n)` for a non-negative integer. */
  function NatToDecimal(n: nat): (r: string)
    ensures |r| >= 1
    ensures forall i :: 0 <= i < |r| ==> '0' <= r[i] <= '9'
  {
    if n < 10 then [DigitChar(n)] else NatToDecimal(n / 10) + [DigitChar(n % 10)]
  }

  /** `String(n)` for an integer. */
  function IntToDecimal(n: int): string {
    if n < 0 then "-" + NatToDecimal(-n) else NatToDecimal(n)
  }

  /** A JavaScript string value that is truthy: present and non-empty. */
  predicate Truthy(o: Option<string>) {
    o.Some? && o.value != ""
  }

  /** JavaScript's `a || b` on optional strings: `a` when truthy, otherwise `b`. */
  function JsOr(a: Option<string>, b: Option<string>): (r: Option<string>)
    ensures Truthy(r) <==> Truthy(a) || Truthy(b)
    ensures Truthy(a) ==> r == a
  {
    if Truthy(a) then a else b
  }

  /** JavaScript's `a || null` on an optional string: only a non-empty string is kept. */
  function OrNull(o: Option<string>): (r: Option<string>)
    ensures Truthy(o) ==> r == o
    ensures !Truthy(o) ==> r.None?
  {
    if Truthy(o) then o else None
  }
}
