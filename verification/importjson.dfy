/**
 * The pure helpers of `src/components/myjobs/ImportJobJSON.tsx` that turn a
 * pasted JSON job into form values: the default status, the resolution of
 * a label, value or id to a stored id, of a job type to its key and of a
 * salary range to its id, and the normalisation of the two dates.
 *
 * The job-type table and the salary-range table are parameters: the files
 * that define them are not part of this model. `Date.parse` is the
 * `DateParser` oracle; time values are integer milliseconds.
 */
module ImportJob {
  import opened Wrappers
  import opened Text
  import opened Seqs
  import opened Json
  import opened Store

  // ----- default status -----

  predicate IsDraft(s: Lookup) {
    s.value == "draft"
  }

  /** `selectDefaultStatus`: the first status whose value is "draft", else the first status. */
  function SelectDefaultStatus(statuses: seq<Lookup>): (r: Option<Lookup>)
    ensures r.None? <==> |statuses| == 0
    ensures (exists i :: 0 <= i < |statuses| && IsDraft(statuses[i])) ==>
      exists i :: 0 <= i < |statuses| && statuses[i] == r.value && IsDraft(statuses[i])
                  && forall j :: 0 <= j < i ==> !IsDraft(statuses[j])
    ensures (forall i :: 0 <= i < |statuses| ==> !IsDraft(statuses[i])) && |statuses| > 0 ==>
      r == Some(statuses[0])
  {
    match Find(statuses, IsDraft)
    case Some(s) => Some(s)
    case None => if |statuses| == 0 then None else Some(statuses[0])
  }

  // ----- resolveId -----

  /** The test `resolveId` applies: exact id, or label or value ignoring case. */
  predicate Matches(item: Lookup, s: string) {
    item.id == s || EqualsIgnoreCase(item.labelText, s) || EqualsIgnoreCase(item.value, s)
  }

  function UnknownOptionMessage(fieldName: string, s: string): string {
    "Unknown " + fieldName + ": \"" + s + "\". Please use one of the existing options."
  }

  /** `resolveId(labelOrId, list, fieldName)`: the id of the first item that matches. */
  function ResolveId(s: string, list: seq<Lookup>, fieldName: string): (r: Result<Id>)
    ensures r.Ok? <==> exists i :: 0 <= i < |list| && Matches(list[i], s)
    ensures r.Ok? ==> exists i :: 0 <= i < |list| && list[i].id == r.value && Matches(list[i], s)
                                  && forall j :: 0 <= j < i ==> !Matches(list[j], s)
    ensures r.Err? ==> r.message == UnknownOptionMessage(fieldName, s)
  {
    match FindIndex(list, (x: Lookup) => Matches(x, s))
    case None => Err(UnknownOptionMessage(fieldName, s))
    case Some(i) => Ok(list[i].id)
  }

  /** An item's label resolves to its id when no earlier item matches that label. */
  lemma ResolveLabel(list: seq<Lookup>, k: nat, fieldName: string)
    requires k < |list|
    requires forall j :: 0 <= j < k ==> !Matches(list[j], list[k].labelText)
    ensures ResolveId(list[k].labelText, list, fieldName) == Ok(list[k].id)
  {
    FindIndexAt(list, (x: Lookup) => Matches(x, list[k].labelText), k);
  }

  /** An item's id resolves to itself when no earlier item matches that id. */
  lemma ResolveOwnId(list: seq<Lookup>, k: nat, fieldName: string)
    requires k < |list|
    requires forall j :: 0 <= j < k ==> !Matches(list[j], list[k].id)
    ensures ResolveId(list[k].id, list, fieldName) == Ok(list[k].id)
  {
    FindIndexAt(list, (x: Lookup) => Matches(x, list[k].id), k);
  }

  /**
   * Labels and values match ignoring case: two spellings that differ only
   * in case resolve alike, unless one of them is literally some item's id.
   */
  lemma ResolveIdIgnoresCase(s: string, t: string, list: seq<Lookup>, fieldName: string)
    requires EqualsIgnoreCase(s, t)
    requires forall i :: 0 <= i < |list| ==> list[i].id != s && list[i].id != t
    ensures ResolveId(s, list, fieldName).Ok? <==> ResolveId(t, list, fieldName).Ok?
    ensures ResolveId(s, list, fieldName).Ok? ==> ResolveId(s, list, fieldName).value == ResolveId(t, list, fieldName).value
  {
    FindIndexCongruent(list, (x: Lookup) => Matches(x, s), (x: Lookup) => Matches(x, t));
  }

  // ----- resolveJobType -----

  /** `JOB_TYPES` as its `Object.entries`: (key, label) pairs in insertion order. */
  type JobTypes = seq<(string, string)>

  /**
   * The key search's hit counts only when the key is truthy: an empty key
   * found by `find` fails `if (directKey)` and the label search runs.
   */
  predicate KeyMatches(e: (string, string), t: string) {
    e.0 != "" && EqualsIgnoreCase(e.0, t)
  }

  predicate LabelMatches(e: (string, string), t: string) {
    EqualsIgnoreCase(e.1, t)
  }

  /** `JOB_TYPES.FT` as text: the label under key "FT", `undefined` when there is none. */
  function FullTimeLabel(types: JobTypes): (r: string)
    ensures (exists i :: 0 <= i < |types| && types[i].0 == "FT") ==>
      exists i :: 0 <= i < |types| && types[i].0 == "FT" && r == types[i].1
  {
    match Find(types, (e: (string, string)) => e.0 == "FT")
    case Some(e) => e.1
    case None => "undefined"
  }

  function UnknownJobTypeMessage(types: JobTypes, t: string): string {
    "Unknown job type: \"" + t + "\". Use a key like \"FT\" or a label like \"" + FullTimeLabel(types) + "\"."
  }

  /**
   * `resolveJobType(type)`: the first key equal to `t` ignoring case;
   * failing that, the key of the first label equal to `t` ignoring case.
   */
  function ResolveJobType(t: string, types: JobTypes): (r: Result<string>)
    ensures r.Ok? <==> exists i :: 0 <= i < |types| && (KeyMatches(types[i], t) || LabelMatches(types[i], t))
    ensures (exists i :: 0 <= i < |types| && KeyMatches(types[i], t)) ==>
      exists i :: 0 <= i < |types| && r == Ok(types[i].0) && KeyMatches(types[i], t)
                  && forall j :: 0 <= j < i ==> !KeyMatches(types[j], t)
    ensures (forall i :: 0 <= i < |types| ==> !KeyMatches(types[i], t)) && r.Ok? ==>
      exists i :: 0 <= i < |types| && r == Ok(types[i].0) && LabelMatches(types[i], t)
                  && forall j :: 0 <= j < i ==> !LabelMatches(types[j], t)
    ensures r.Err? ==> r.message == UnknownJobTypeMessage(types, t)
  {
    match FindIndex(types, (e: (string, string)) => KeyMatches(e, t))
    case Some(i) => Ok(types[i].0)
    case None =>
      match FindIndex(types, (e: (string, string)) => LabelMatches(e, t))
      case Some(i) => Ok(types[i].0)
      case None => Err(UnknownJobTypeMessage(types, t))
  }

  /** Keys that differ even ignoring case. */
  predicate KeysDistinct(types: JobTypes) {
    forall i, j :: 0 <= i < j < |types| ==> !EqualsIgnoreCase(types[i].0, types[j].0)
  }

  /** A key resolves to itself, written in any case, even when some label spells it too. */
  lemma ResolveKeyAnyCase(types: JobTypes, k: nat, t: string)
    requires KeysDistinct(types) && k < |types| && types[k].0 != ""
    requires EqualsIgnoreCase(t, types[k].0)
    ensures ResolveJobType(t, types) == Ok(types[k].0)
  {
    forall j | 0 <= j < k
      ensures !KeyMatches(types[j], t)
    {
      assert !EqualsIgnoreCase(types[j].0, types[k].0);
    }
    FindIndexAt(types, (e: (string, string)) => KeyMatches(e, t), k);
  }

  /** The empty type never resolves through a key, not even an empty one: only a label can match it. */
  lemma EmptyTypeSkipsKeys(types: JobTypes)
    ensures ResolveJobType("", types).Ok? <==> exists i :: 0 <= i < |types| && LabelMatches(types[i], "")
  {
    forall i | 0 <= i < |types|
      ensures !KeyMatches(types[i], "")
    {
      if types[i].0 != "" {
        assert |ToLower(types[i].0)| == |types[i].0|;
      }
    }
  }

  /** A label resolves to its key when no key spells it and no earlier label does. */
  lemma ResolveLabelToKey(types: JobTypes, k: nat)
    requires k < |types|
    requires forall i :: 0 <= i < |types| ==> !KeyMatches(types[i], types[k].1)
    requires forall j :: 0 <= j < k ==> !LabelMatches(types[j], types[k].1)
    ensures ResolveJobType(types[k].1, types) == Ok(types[k].0)
  {
    FindIndexAt(types, (e: (string, string)) => LabelMatches(e, types[k].1), k);
  }

  // ----- resolveSalaryRange -----

  datatype SalaryRange = SalaryRange(id: Id, value: string)

  predicate RangeMatches(r: SalaryRange, s: string) {
    r.id == s || EqualsIgnoreCase(r.value, s)
  }

  function RangeValues(ranges: seq<SalaryRange>): (vs: seq<string>)
    ensures |vs| == |ranges|
    ensures forall i :: 0 <= i < |ranges| ==> vs[i] == ranges[i].value
  {
    seq(|ranges|, i requires 0 <= i < |ranges| => ranges[i].value)
  }

  function UnknownRangeMessage(ranges: seq<SalaryRange>, s: string): string {
    "Unknown salaryRange: \"" + s + "\". Please use one of: " + Join(RangeValues(ranges), ", ") + "."
  }

  /** `resolveSalaryRange(salaryRange)`: the id of the first range with that id or, ignoring case, that value. */
  function ResolveSalaryRange(s: string, ranges: seq<SalaryRange>): (r: Result<Id>)
    ensures r.Ok? <==> exists i :: 0 <= i < |ranges| && RangeMatches(ranges[i], s)
    ensures r.Ok? ==> exists i :: 0 <= i < |ranges| && ranges[i].id == r.value && RangeMatches(ranges[i], s)
                                  && forall j :: 0 <= j < i ==> !RangeMatches(ranges[j], s)
    ensures r.Err? ==> r.message == UnknownRangeMessage(ranges, s)
  {
    match FindIndex(ranges, (x: SalaryRange) => RangeMatches(x, s))
    case None => Err(UnknownRangeMessage(ranges, s))
    case Some(i) => Ok(ranges[i].id)
  }

  /** A range's value resolves to its id when no earlier range matches it. */
  lemma ResolveRangeValue(ranges: seq<SalaryRange>, k: nat)
    requires k < |ranges|
    requires forall j :: 0 <= j < k ==> !RangeMatches(ranges[j], ranges[k].value)
    ensures ResolveSalaryRange(ranges[k].value, ranges) == Ok(ranges[k].id)
  {
    FindIndexAt(ranges, (x: SalaryRange) => RangeMatches(x, ranges[k].value), k);
  }

  /** Every range's value is named in the error message. */
  lemma RangeMessageListsValues(ranges: seq<SalaryRange>, s: string, k: nat)
    requires k < |ranges|
    ensures Contains(UnknownRangeMessage(ranges, s), ranges[k].value)
  {
    var vs := RangeValues(ranges);
    var pre := "Unknown salaryRange: \"" + s + "\". Please use one of: ";
    JoinContainsPart(vs, ", ", k);
    var j := Join(vs, ", ");
    var m := pre + j + ".";
    var p: nat :| OccursAt(j, vs[k], p);
    assert m[|pre| + p..|pre| + p + |vs[k]|] == j[p..p + |vs[k]|];
    ContainsAt(m, vs[k], |pre| + p);
  }

  /** `p` sits in `s` at position `k`. */
  predicate OccursAt(s: string, p: string, k: nat) {
    k + |p| <= |s| && s[k..k + |p|] == p
  }

  /** Each part of a join appears in it. */
  lemma {:induction false} JoinContainsPart(parts: seq<string>, sep: string, k: nat)
    requires k < |parts|
    ensures exists p :: OccursAt(Join(parts, sep), parts[k], p)
    decreases |parts|
  {
    var j := Join(parts, sep);
    if |parts| == 1 {
      assert OccursAt(j, parts[k], 0);
    } else if k == 0 {
      assert j == parts[0] + sep + Join(parts[1..], sep);
      assert OccursAt(j, parts[k], 0);
    } else {
      JoinContainsPart(parts[1..], sep, k - 1);
      var rest := Join(parts[1..], sep);
      var q: nat :| OccursAt(rest, parts[1..][k - 1], q);
      var off := |parts[0]| + |sep|;
      assert j == parts[0] + sep + rest;
      assert j[off + q..off + q + |parts[k]|] == rest[q..q + |parts[k]|];
      assert OccursAt(j, parts[k], off + q);
    }
  }

  // ----- normalizeDates -----

  /** `Date.parse(text)`: the time value in milliseconds, `None` for NaN. */
  type DateParser = string -> Option<int>

  /** The largest time value a `Date` holds (section 21.4.1.22 of ECMA-262). */
  const MaxTime: int := 8_640_000_000_000_000

  /** `TimeClip`: a time value outside the range is NaN. */
  function Clip(t: int): (r: Option<int>)
    ensures r.Some? <==> -MaxTime <= t <= MaxTime
    ensures r.Some? ==> r.value == t
  {
    if -MaxTime <= t <= MaxTime then Some(t) else None
  }

  /** A parsed time value, clipped. */
  function ParsedTime(t: Option<int>): (r: Option<int>)
    ensures r.Some? ==> -MaxTime <= r.value <= MaxTime
  {
    if t.Some? then Clip(t.value) else None
  }

  /** `new Date(v)` for a value of the parsed JSON: its time value, `None` for an invalid date. */
  function DateOf(v: Json, parseDate: DateParser): (r: Option<int>)
    ensures r.Some? ==> -MaxTime <= r.value <= MaxTime
  {
    match v
    case JNull => Some(0)
    case JBool(b) => Some(if b then 1 else 0)
    case JNum(n) => Clip(n)
    case JStr(s) => ParsedTime(parseDate(s))
    case JArr(_) => ParsedTime(parseDate(ToText(v)))
    case JObj(_) => ParsedTime(parseDate(ToText(v)))
  }

  const DueDateError := "Invalid dueDate. Please use a valid ISO date string."
  const DateAppliedError := "Invalid dateApplied. Please use a valid ISO date string."

  datatype Dates = Dates(dueDate: int, dateApplied: Option<int>)

  /**
   * `normalizeDates(data)`: a falsy `dueDate` becomes `now`; a `null` or
   * missing `dateApplied` becomes `undefined`; any other value must make a
   * valid date, and the due date is checked first.
   */
  function NormalizeDates(dueDate: Option<Json>, dateApplied: Option<Json>, parseDate: DateParser, now: int): (r: Result<Dates>)
    ensures r == Err(DueDateError) <==> Present(dueDate) && DateOf(dueDate.value, parseDate).None?
    ensures r == Err(DateAppliedError) <==>
      !(Present(dueDate) && DateOf(dueDate.value, parseDate).None?)
      && dateApplied.Some? && !dateApplied.value.JNull? && DateOf(dateApplied.value, parseDate).None?
    ensures r.Err? ==> r.message == DueDateError || r.message == DateAppliedError
    ensures r.Ok? && !Present(dueDate) ==> r.value.dueDate == now
    ensures r.Ok? && Present(dueDate) ==> Some(r.value.dueDate) == DateOf(dueDate.value, parseDate)
    ensures r.Ok? ==> (r.value.dateApplied.None? <==> dateApplied.None? || dateApplied.value.JNull?)
    ensures r.Ok? && r.value.dateApplied.Some? ==> r.value.dateApplied == DateOf(dateApplied.value, parseDate)
  {
    var due := if Present(dueDate) then DateOf(dueDate.value, parseDate) else Some(now);
    var applied := if dateApplied.None? || dateApplied.value.JNull? then None else Some(DateOf(dateApplied.value, parseDate));
    if due.None? then Err(DueDateError)
    else if applied.Some? && applied.value.None? then Err(DateAppliedError)
    else Ok(Dates(due.value, if applied.Some? then applied.value else None))
  }

  /** A date written as its time value comes back as it is, except a zero due date. */
  lemma NormalizeTimeValues(due: int, applied: Option<int>, parseDate: DateParser, now: int)
    requires due != 0 && -MaxTime <= due <= MaxTime
    requires applied.Some? ==> -MaxTime <= applied.value <= MaxTime
    ensures NormalizeDates(Some(JNum(due)), if applied.Some? then Some(JNum(applied.value)) else None, parseDate, now)
            == Ok(Dates(due, applied))
  {
  }

  /** Normalising the dates a normalisation produced, written back as time values, changes nothing unless the due date is the epoch. */
  lemma NormalizeDatesIdempotent(dueDate: Option<Json>, dateApplied: Option<Json>, parseDate: DateParser, now: int)
    requires NormalizeDates(dueDate, dateApplied, parseDate, now).Ok?
    requires NormalizeDates(dueDate, dateApplied, parseDate, now).value.dueDate != 0
    requires -MaxTime <= now <= MaxTime
    ensures var d := NormalizeDates(dueDate, dateApplied, parseDate, now).value;
            NormalizeDates(Some(JNum(d.dueDate)), if d.dateApplied.Some? then Some(JNum(d.dateApplied.value)) else None, parseDate, now) == Ok(d)
  {
    var d := NormalizeDates(dueDate, dateApplied, parseDate, now).value;
    NormalizeTimeValues(d.dueDate, d.dateApplied, parseDate, now);
  }

  /** The epoch as a due date reads as falsy and becomes `now`. */
  lemma EpochDueDateBecomesNow(parseDate: DateParser, now: int)
    ensures NormalizeDates(Some(JNum(0)), None, parseDate, now) == Ok(Dates(now, None))
  {
  }
}
