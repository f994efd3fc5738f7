/**
 * Parsed JSON values and the JSON-LD reading both job-page extractors share:
 * optional-chaining property reads, JavaScript truthiness, `String(v)`, the
 * `JobPosting` type test and the "an array is a list of items" rule.
 *
 * `JSON.parse` itself is not modelled: it enters as a `JsonParser` that
 * yields `None` where the real one throws.
 */
module Json {
  import opened Wrappers
  import opened Text

  /** A value `JSON.parse` can produce. Numbers are modelled as integers. */
  datatype Json =
    | JNull
    | JBool(b: bool)
    | JNum(n: int)
    | JStr(s: string)
    | JArr(elems: seq<Json>)
    | JObj(fields: map<string, Json>)
  {
    /** JavaScript truthiness of the value. */
    predicate Truthy() {
      match this
      case JNull => false
      case JBool(b) => b
      case JNum(n) => n != 0
      case JStr(s) => s != ""
      case _ => true
    }
  }

  /** `JSON.parse(text)`; `None` where it throws. */
  type JsonParser = string -> Option<Json>

  /** JavaScript truthiness of a property read that may have found nothing (`undefined`). */
  predicate Present(v: Option<Json>) {
    v.Some? && v.value.Truthy()
  }

  /** `v?.[key]`: the member of an object; `undefined` for a missing key, `null` or a non-object. */
  function Get(v: Option<Json>, key: string): (r: Option<Json>)
    ensures r.Some? <==> v.Some? && v.value.JObj? && key in v.value.fields
    ensures r.Some? ==> r.value == v.value.fields[key]
  {
    if v.Some? && v.value.JObj? && key in v.value.fields then Some(v.value.fields[key]) else None
  }

  /** `v?.a?.b?...`: a chain of optional property reads. */
  function Path(v: Option<Json>, keys: seq<string>): (r: Option<Json>)
    ensures |keys| == 0 ==> r == v
    ensures v.None? ==> r.None?
    decreases |keys|
  {
    if |keys| == 0 then v else Path(Get(v, keys[0]), keys[1..])
  }

  /**
   * A property value copied into a string field by `if (v) data.f = v`:
   * only a non-empty string value is taken (other truthy values are not
   * modelled as field contents).
   */
  function TextValue(v: Option<Json>): (r: Option<string>)
    ensures r.Some? <==> v.Some? && v.value.JStr? && v.value.s != ""
    ensures r.Some? ==> r.value == v.value.s && r.value != ""
  {
    if v.Some? && v.value.JStr? && v.value.s != "" then Some(v.value.s) else None
  }

  /** `String(v)`; an array prints its elements joined by ",", `null` ones as "". */
  function ToText(v: Json): string
    decreases v
  {
    match v
    case JNull => "null"
    case JBool(b) => if b then "true" else "false"
    case JNum(n) => IntToDecimal(n)
    case JStr(s) => s
    case JArr(xs) => Join(seq(|xs|, i requires 0 <= i < |xs| => if xs[i].JNull? then "" else ToText(xs[i])), ",")
    case JObj(_) => "[object Object]"
  }

  /** `parts.filter(Boolean)`, each printed with `String`. */
  function TruthyTexts(parts: seq<Option<Json>>): (r: seq<string>)
    ensures |r| <= |parts|
    ensures |r| == 0 <==> forall i :: 0 <= i < |parts| ==> !Present(parts[i])
  {
    if |parts| == 0 then []
    else (if Present(parts[0]) then [ToText(parts[0].value)] else []) + TruthyTexts(parts[1..])
  }

  /** `parts.filter(Boolean).join(", ")`, or nothing when no part is truthy. */
  function JoinParts(parts: seq<Option<Json>>): (r: Option<string>)
    ensures r.None? <==> forall i :: 0 <= i < |parts| ==> !Present(parts[i])
  {
    var texts := TruthyTexts(parts);
    if |texts| == 0 then None else Some(Join(texts, ", "))
  }

  /** `item['@type'] === 'JobPosting'`. */
  predicate IsJobPosting(item: Json) {
    Get(Some(item), "@type") == Some(JStr("JobPosting"))
  }

  /** `Array.isArray(parsed) ? parsed : [parsed]`. */
  function BlockItems(parsed: Json): (r: seq<Json>)
    ensures parsed.JArr? ==> r == parsed.elems
    ensures !parsed.JArr? ==> r == [parsed]
  {
    if parsed.JArr? then parsed.elems else [parsed]
  }

  /** Two string parts, both non-empty, join with ", " between them: "San Francisco" and "CA". */
  lemma JoinTwoStrings(a: string, b: string)
    requires a != "" && b != ""
    ensures JoinParts([Some(JStr(a)), Some(JStr(b))]) == Some(a + ", " + b)
  {
    var parts := [Some(JStr(a)), Some(JStr(b))];
    assert parts[1..] == [Some(JStr(b))];
    assert parts[1..][1..] == [];
    assert TruthyTexts(parts) == [a, b];
    assert [a, b][1..] == [b];
    assert Join([a, b], ", ") == a + ", " + Join([b], ", ");
  }

  /** Three non-empty string parts: "Berlin", "BE" and "DE" give "Berlin, BE, DE". */
  lemma JoinThreeStrings(a: string, b: string, c: string)
    requires a != "" && b != "" && c != ""
    ensures JoinParts([Some(JStr(a)), Some(JStr(b)), Some(JStr(c))]) == Some(a + ", " + b + ", " + c)
  {
    var parts := [Some(JStr(a)), Some(JStr(b)), Some(JStr(c))];
    var tail := [Some(JStr(b)), Some(JStr(c))];
    assert parts[1..] == tail;
    assert tail[1..] == [Some(JStr(c))];
    assert [Some(JStr(c))][1..] == [];
    assert TruthyTexts([Some(JStr(c))]) == [c];
    assert TruthyTexts(tail) == [b, c];
    assert TruthyTexts(parts) == [a, b, c];
    assert [a, b, c][1..] == [b, c];
    assert [b, c][1..] == [c];
    assert Join([b, c], ", ") == b + ", " + c;
    assert Join([a, b, c], ", ") == a + ", " + (b + ", " + c);
    assert a + ", " + (b + ", " + c) == a + ", " + b + ", " + c;
  }

  /** A falsy part leaves no trace: with only one non-empty string part, that part is the text. */
  lemma JoinOneString(a: string, rest: seq<Option<Json>>)
    requires a != ""
    requires forall i :: 0 <= i < |rest| ==> !Present(rest[i])
    ensures JoinParts([Some(JStr(a))] + rest) == Some(a)
  {
    var parts := [Some(JStr(a))] + rest;
    assert parts[1..] == rest;
    assert TruthyTexts(parts) == [a];
  }

  /** Every element of an array that is itself no array is an item of its own block. */
  lemma ArrayOfOne(item: Json)
    requires !item.JArr?
    ensures BlockItems(JArr([item])) == BlockItems(item)
  {
  }

  /**
   * An optional string member: `Some(None)` when the key is absent,
   * `Some(Some(s))` for a string that passes `check`, `None` when the
   * schema rejects the member (a `null`, a number, a failed check).
   */
  function OptionalMember(fields: map<string, Json>, key: string, check: string -> bool): (r: Option<Option<string>>)
    ensures r == Some(None) <==> key !in fields
    ensures r.Some? && r.value.Some? <==> key in fields && fields[key].JStr? && check(fields[key].s)
    ensures r.Some? && r.value.Some? ==> r.value.value == fields[key].s
  {
    if key !in fields then Some(None)
    else if fields[key].JStr? && check(fields[key].s) then Some(Some(fields[key].s))
    else None
  }

  /** Any string passes. */
  predicate AnyString(s: string) {
    true
  }
}
