/**
 * `src/lib/i18n.tsx`: the translation lookup and `{name}` interpolation.
 * The translation tables are a parameter (their entries are data, not
 * logic); `translations[language]` is `None` for a language the tables do
 * not have, where the source's property read on `undefined` throws.
 */
module I18n {
  import opened Wrappers
  import opened Text

  /** A value of `options.values`: a string or a number. */
  datatype Val = VStr(s: string) | VNum(n: int)

  /** `String(value)`. */
  function ValText(v: Val): string {
    match v
    case VStr(s) => s
    case VNum(n) => IntToDecimal(n)
  }

  /** `\w`: an ASCII letter, digit or underscore. */
  predicate IsWordChar(c: char) {
    ('a' <= c <= 'z') || ('A' <= c <= 'Z') || ('0' <= c <= '9') || c == '_'
  }

  /** The length of the longest prefix of `s` made of word characters. */
  function WordPrefix(s: string): (n: nat)
    ensures n <= |s|
    ensures forall i :: 0 <= i < n ==> IsWordChar(s[i])
    ensures n < |s| ==> !IsWordChar(s[n])
  {
    if |s| == 0 || !IsWordChar(s[0]) then 0 else 1 + WordPrefix(s[1..])
  }

  /**
   * Where `/\{(\w+)\}/` matches at the start of `s`: the name's length.
   * The `\w+` run is greedy, so the match needs `}` right after the run.
   */
  function TokenAt(s: string): (k: Option<nat>)
    ensures k.Some? ==> k.value >= 1 && k.value + 2 <= |s| && s[0] == '{' && s[k.value + 1] == '}'
    ensures k.Some? ==> forall i :: 1 <= i <= k.value ==> IsWordChar(s[i])
  {
    if |s| == 0 || s[0] != '{' then None
    else
      var k := WordPrefix(s[1..]);
      if k >= 1 && k + 1 < |s| && s[k + 1] == '}' then Some(k) else None
  }

  /**
   * `interpolate(template, values)`: one left-to-right pass of
   * `/\{(\w+)\}/g`; a token whose name is a key of `values` becomes the
   * value's text, any other token stays as it is.
   */
  function Interpolate(t: string, values: map<string, Val>): (r: string)
    ensures values == map[] ==> r == t
    decreases |t|
  {
    if |t| == 0 then ""
    else
      var step := ScanStep(t, values);
      var rest := Interpolate(t[step.1..], values);
      assert values == map[] ==> step.0 == t[..step.1] && step.0 + t[step.1..] == t;
      step.0 + rest
  }

  /**
   * One step of the scan at the start of `t`: the text emitted and the
   * number of characters consumed, a whole token or one character.
   */
  function ScanStep(t: string, values: map<string, Val>): (r: (string, nat))
    requires |t| > 0
    ensures 1 <= r.1 <= |t|
    ensures TokenAt(t).None? ==> r == ([t[0]], 1)
    ensures TokenAt(t).Some? && t[1..TokenAt(t).value + 1] !in values ==> r == (t[..r.1], TokenAt(t).value + 2)
  {
    match TokenAt(t)
    case Some(k) =>
      var name := t[1..k + 1];
      (if name in values then ValText(values[name]) else t[..k + 2], k + 2)
    case None => ([t[0]], 1)
  }

  /** `s` holds no `{word}` token anywhere. */
  predicate NoTokens(s: string) {
    forall i :: 0 <= i < |s| ==> TokenAt(s[i..]).None?
  }

  /** A template without tokens comes back unchanged, whatever the values. */
  lemma {:induction false} InterpolateWithoutTokens(t: string, values: map<string, Val>)
    requires NoTokens(t)
    ensures Interpolate(t, values) == t
    decreases |t|
  {
    if |t| > 0 {
      assert t[0..] == t;
      assert forall i :: 0 <= i < |t| - 1 ==> t[1..][i..] == t[i + 1..];
      InterpolateWithoutTokens(t[1..], values);
    }
  }

  /**
   * A leading token whose name has a value is replaced and the scan goes
   * on after it: the value's own text is never scanned again.
   */
  lemma InterpolateLeadingToken(name: string, rest: string, values: map<string, Val>)
    requires |name| >= 1 && forall i :: 0 <= i < |name| ==> IsWordChar(name[i])
    requires name in values
    ensures Interpolate("{" + name + "}" + rest, values) == ValText(values[name]) + Interpolate(rest, values)
  {
    var t := "{" + name + "}" + rest;
    var k := |name|;
    assert TokenAt(t) == Some(k) && t[1..k + 1] == name && t[k + 2..] == rest by {
      LeadingTokenShape(name, rest);
    }
    assert ScanStep(t, values) == (ValText(values[name]), k + 2);
  }

  /** Where the pieces of `"{" + name + "}" + rest` sit, and the token the scan sees there. */
  lemma LeadingTokenShape(name: string, rest: string)
    requires |name| >= 1 && forall i :: 0 <= i < |name| ==> IsWordChar(name[i])
    ensures var t := "{" + name + "}" + rest;
      TokenAt(t) == Some(|name|) && t[1..|name| + 1] == name && t[|name| + 2..] == rest
  {
    var t := "{" + name + "}" + rest;
    var k := |name|;
    assert t[1..][..k] == name && t[1..][k] == '}';
    WordPrefixOfWord(name, t[1..]);
    assert t[1..k + 1] == name;
    assert t[k + 2..] == rest;
  }

  /** The word run at the start of `s` is exactly `w` when `s` is `w` followed by a non-word character. */
  lemma {:induction false} WordPrefixOfWord(w: string, s: string)
    requires forall i :: 0 <= i < |w| ==> IsWordChar(w[i])
    requires |w| < |s| && s[..|w|] == w && !IsWordChar(s[|w|])
    ensures WordPrefix(s) == |w|
    decreases |w|
  {
    if |w| > 0 {
      assert s[0] == w[0];
      assert s[1..][..|w| - 1] == w[1..];
      WordPrefixOfWord(w[1..], s[1..]);
    }
  }

  /** `options` of `t(key, options)`. */
  datatype Options = Options(fallback: Option<string>, values: Option<map<string, Val>>)

  /**
   * `translate(key, options)` in language `lang`:
   * `translations[lang][key] ?? options.fallback ?? key`, interpolated
   * only when `options.values` is given. `None` where `translations[lang]`
   * is missing.
   */
  function Translate(tables: map<string, map<string, string>>, lang: string, key: string, options: Options): (r: Option<string>)
    ensures r.None? <==> lang !in tables
    ensures lang in tables && options.values.None? ==>
      && (key in tables[lang] ==> r == Some(tables[lang][key]))
      && (key !in tables[lang] && options.fallback.Some? ==> r == Some(options.fallback.value))
      && (key !in tables[lang] && options.fallback.None? ==> r == Some(key))
  {
    if lang !in tables then None
    else
      var template := if key in tables[lang] then tables[lang][key]
                      else if options.fallback.Some? then options.fallback.value
                      else key;
      Some(if options.values.Some? then Interpolate(template, options.values.value) else template)
  }

  /** Passing an empty `values` object gives the same text as passing none. */
  lemma TranslateEmptyValues(tables: map<string, map<string, string>>, lang: string, key: string, fallback: Option<string>)
    ensures Translate(tables, lang, key, Options(fallback, Some(map[]))) == Translate(tables, lang, key, Options(fallback, None))
  {
  }

  /** A key missing from the table, with no fallback and no values, is shown as the key itself. */
  lemma MissingKeyShowsKey(tables: map<string, map<string, string>>, lang: string, key: string)
    requires lang in tables && key !in tables[lang]
    ensures Translate(tables, lang, key, Options(None, None)) == Some(key)
  {
  }

  /** The language on start-up: the stored one when there is a non-empty one, else English. */
  function InitialLanguage(stored: Option<string>): (lang: string)
    ensures Truthy(stored) ==> lang == stored.value
    ensures !Truthy(stored) ==> lang == "en"
  {
    if Truthy(stored) then stored.value else "en"
  }

  /** A stored language the tables do not have makes every translation fail. */
  lemma UnknownStoredLanguageFails(tables: map<string, map<string, string>>, stored: string, key: string, options: Options)
    requires stored != "" && stored !in tables
    ensures Translate(tables, InitialLanguage(Some(stored)), key, options).None?
  {
  }

  /** A key the language has ignores the fallback, with or without values. */
  lemma KnownKeyIgnoresFallback(tables: map<string, map<string, string>>, lang: string, key: string,
                                fallback1: Option<string>, fallback2: Option<string>, values: Option<map<string, Val>>)
    requires lang in tables && key in tables[lang]
    ensures Translate(tables, lang, key, Options(fallback1, values)) == Translate(tables, lang, key, Options(fallback2, values))
  {
  }

  /**
   * When English is loaded and a stored language is one the tables have,
   * the starting language always translates.
   */
  lemma InitialLanguageTranslates(tables: map<string, map<string, string>>, stored: Option<string>, key: string, options: Options)
    requires "en" in tables
    requires Truthy(stored) ==> stored.value in tables
    ensures Translate(tables, InitialLanguage(stored), key, options).Some?
  {
  }

  datatype DateLocale = German | EnglishUS

  /** `dateLocale`: German for "de", US English for every other language. */
  function DateLocaleOf(lang: string): (r: DateLocale)
    ensures r == German <==> lang == "de"
  {
    if lang == "de" then German else EnglishUS
  }

  /** With nothing stored, dates are formatted the US-English way. */
  lemma DefaultDateLocaleIsEnglish()
    ensures DateLocaleOf(InitialLanguage(None)) == EnglishUS
  {
  }
}
