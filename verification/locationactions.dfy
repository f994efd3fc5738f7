/**
 * `src/actions/jobLocation.actions.ts`: creating, updating and deleting
 * the user's job locations.
 *
 * A location's per-user key joins the normalised label with the zip code
 * (or, without one, the country) and turns whitespace into "-". Creating
 * returns an existing row with the same key untouched; otherwise the
 * geocoder must supply both coordinates. The geocoder's answer enters as
 * a parameter.
 */
module LocationActions {
  import opened Wrappers
  import opened Text
  import opened Seqs
  import opened Store
  import opened UserEnsure

  /** What `geocodeLocation` resolves to: either coordinate may be missing. */
  datatype Geo = Geo(lat: Option<real>, lng: Option<real>)

  const BlankLabelError := "Please provide location name"
  const GeocodeError := "Unable to geocode location. Please check city/zip/country."
  const LocationGuardError := "Id is not provided or no user privileges"

  /** `[a, b].filter(Boolean).join("-")`. */
  function JoinNonEmpty(a: string, b: string): (r: string)
    ensures a == "" ==> r == b
    ensures b == "" ==> r == a
    ensures a != "" && b != "" ==> r == a + "-" + b
  {
    if a != "" && b != "" then a + "-" + b else if a != "" then a else b
  }

  /** `(s || "").trim().toLowerCase()` for an optional argument. */
  function Part(s: Option<string>): (r: string)
    ensures IsTrimmed(r) && IsLower(r)
    ensures s.None? ==> r == ""
  {
    ValueKey(s.GetOr(""))
  }

  /**
   * `uniqueValue || value` for the normalised label `value`: joined with
   * the zip code, or the country when there is no zip code, whitespace
   * runs turned to "-".
   */
  function KeyOf(value: string, zip: Option<string>, country: Option<string>): (r: string)
    ensures NoSpace(r)
  {
    var second := if Part(zip) != "" then Part(zip) else Part(country);
    var unique := ReplaceSpaceRuns(JoinNonEmpty(value, second), '-');
    ReplaceSpaceRunsNoSpace(JoinNonEmpty(value, second), '-');
    ReplaceSpaceRunsHead(JoinNonEmpty(value, second), '-');
    if unique != "" then unique else value
  }

  /**
   * The location key of `label`: `KeyOf` its normalised form
   * (`label.trim().toLowerCase()` is `ValueKey(label)` by
   * `Store.ValueKeyEitherOrder`).
   */
  function LocationKey(labelText: string, zip: Option<string>, country: Option<string>): (r: string)
    ensures NoSpace(r)
  {
    KeyOf(ValueKey(labelText), zip, country)
  }

  /** The stored zip code and country: lower-cased, trimmed, blank as `null`. */
  function PlaceOf(zip: Option<string>, country: Option<string>, geo: Geo): (p: Place)
    ensures p.zipCode.Some? <==> Part(zip) != ""
    ensures p.zipCode.Some? ==> p.zipCode.value == Part(zip) && IsTrimmed(p.zipCode.value) && IsLower(p.zipCode.value)
    ensures p.country.Some? <==> Part(country) != ""
    ensures p.country.Some? ==> p.country.value == Part(country) && IsTrimmed(p.country.value) && IsLower(p.country.value)
    ensures p.lat == geo.lat && p.lng == geo.lng
  {
    Place(if Part(zip) != "" then Some(Part(zip)) else None,
          if Part(country) != "" then Some(Part(country)) else None,
          geo.lat, geo.lng)
  }

  /** `createJobLocation(label, zipCode, country)`: the row found or created, or the error reported. */
  function CreateJobLocation(db: Db, current: Option<CurrentUser>, labelText: string, zip: Option<string>,
                             country: Option<string>, geo: Geo): (r: (Result<Entity>, Db))
    ensures current.None? ==> r == (Err(NotAuthenticated), db)
    ensures current.Some? ==>
      var (user, db1) := EnsureUser(db, current.value);
      r == CreateFor(db1, user.id, labelText, zip, country, geo)
    ensures r.0.Err? ==> r.1.locations == db.locations && r.1.places == db.places
    ensures r.1.jobs == db.jobs && r.1.companies == db.companies && r.1.titles == db.titles
  {
    match current
    case None => (Err(NotAuthenticated), db)
    case Some(u) =>
      var (user, db1) := EnsureUser(db, u);
      CreateFor(db1, user.id, labelText, zip, country, geo)
  }

  /** `!id || (createdBy && createdBy !== user.id)`: the only ownership check `updateJobLocation` makes. */
  predicate UpdateRefused(id: Id, createdBy: Option<Id>, user: Id) {
    id == "" || (Truthy(createdBy) && createdBy.value != user)
  }

  /**
   * `updateJobLocation(id, label, zipCode, country, createdBy)`. The row is
   * looked up by id alone; the session user id is compared only with the
   * `createdBy` the caller passes.
   */
  function UpdateJobLocation(db: Db, current: Option<CurrentUser>, id: Id, labelText: string, zip: Option<string>,
                             country: Option<string>, createdBy: Option<Id>, geo: Geo): (r: (Result<Entity>, Db))
    ensures current.None? ==> r == (Err(NotAuthenticated), db)
    ensures current.Some? && UpdateRefused(id, createdBy, current.value.id) ==> r == (Err(LocationGuardError), db)
    ensures r.0.Err? ==> r.1 == db
    ensures r.0.Ok? ==>
      && current.Some? && !UpdateRefused(id, createdBy, current.value.id)
      && geo.lat.Some? && geo.lng.Some?
      && r.0.value.id == id && r.0.value.labelText == labelText && r.0.value.value == LocationKey(labelText, zip, country)
      && (exists k :: 0 <= k < |db.locations| && db.locations[k].id == id
            && r.1.locations == db.locations[k := r.0.value] && r.0.value.createdBy == db.locations[k].createdBy)
      && r.1 == db.(locations := r.1.locations, places := db.places[id := PlaceOf(zip, country, geo)])
  {
    match current
    case None => (Err(NotAuthenticated), db)
    case Some(u) =>
      if UpdateRefused(id, createdBy, u.id) then (Err(LocationGuardError), db)
      else if geo.lat.None? || geo.lng.None? then (Err(GeocodeError), db)
      else UpdateRow(db, id, labelText, LocationKey(labelText, zip, country), PlaceOf(zip, country, geo))
  }

  /** The update once the key and the place are computed: the first row with id `id` is rewritten. */
  function UpdateRow(db: Db, id: Id, labelText: string, key: string, place: Place): (r: (Result<Entity>, Db))
    ensures r.0.Err? <==> forall j :: 0 <= j < |db.locations| ==> db.locations[j].id != id
    ensures r.0.Err? ==> r == (Err(RecordNotFound), db)
    ensures r.0.Ok? ==>
      && r.0.value.id == id && r.0.value.labelText == labelText && r.0.value.value == key
      && (exists k :: 0 <= k < |db.locations| && db.locations[k].id == id
            && r.1.locations == db.locations[k := r.0.value] && r.0.value.createdBy == db.locations[k].createdBy)
      && r.1 == db.(locations := r.1.locations, places := db.places[id := place])
  {
    match FindIndex(db.locations, (e: Entity) => e.id == id)
    case None => (Err(RecordNotFound), db)
    case Some(k) =>
      var e := db.locations[k].(labelText := labelText, value := key);
      (Ok(e), db.(locations := db.locations[k := e], places := db.places[id := place]))
  }

  /** The row `UpdateRow` rewrites is the first one with the id. */
  lemma UpdateRowAt(db: Db, id: Id, labelText: string, key: string, place: Place, k: nat)
    requires k < |db.locations| && db.locations[k].id == id
    requires forall j :: 0 <= j < k ==> db.locations[j].id != id
    ensures var r := UpdateRow(db, id, labelText, key, place);
      && r.0 == Ok(db.locations[k].(labelText := labelText, value := key))
      && r.1.locations == db.locations[k := r.0.value]
  {
    FindIndexAt(db.locations, (e: Entity) => e.id == id, k);
  }

  /** The location a job points at, if any. */
  function LocationRef(j: Job): Option<Id> {
    j.locationId
  }

  /** `deleteJobLocationById(id)`; the owner is the session's user id. */
  function DeleteJobLocation(db: Db, current: Option<CurrentUser>, id: Id): (r: (Result<()>, Db))
    ensures current.None? ==> r == (Err(NotAuthenticated), db)
    ensures current.Some? && RefCount(db.jobs, LocationRef, id) > 0 ==>
      r.0 == Err(DeleteBlocked("Location", RefCount(db.jobs, LocationRef, id)))
    ensures (current.Some? && RefCount(db.jobs, LocationRef, id) == 0
             && exists e :: e in db.locations && e.id == id && e.createdBy == current.value.id) ==> r.0.Ok?
    ensures r.0.Err? ==> r.1 == db
    ensures r.0.Ok? ==>
      && current.Some?
      && (forall i :: 0 <= i < |db.jobs| ==> db.jobs[i].locationId != Some(id))
      && (exists e :: e in db.locations && e.id == id && e.createdBy == current.value.id)
      && (forall e :: e in r.1.locations ==> e in db.locations && e.id != id)
      && (forall e :: e in db.locations && e.id != id ==> e in r.1.locations)
      && id !in r.1.places
      && r.1.places == db.places - {id}
      && r.1 == db.(locations := r.1.locations, places := r.1.places)
  {
    match current
    case None => (Err(NotAuthenticated), db)
    case Some(u) =>
      match GuardedDelete(db.locations, db.jobs, id, u.id, LocationRef, "Location")
      case Err(m) => (Err(m), db)
      case Ok(kept) =>
        var k :| 0 <= k < |db.locations| && db.locations[k].id == id && db.locations[k].createdBy == u.id;
        assert db.locations[k] in db.locations;
        assert RefCount(db.jobs, LocationRef, id) == 0;
        (Ok(()), db.(locations := kept, places := db.places - {id}))
  }

  // ---------------------------------------------------------------------------
  // Properties
  // ---------------------------------------------------------------------------

  /**
   * For a non-blank label `uniqueValue || value` is `uniqueValue`: the
   * label's key, then "-" and the zip code or country when there is one,
   * whitespace runs turned to "-".
   */
  lemma LocationKeyOfNonBlankLabel(labelText: string, zip: Option<string>, country: Option<string>)
    requires ValueKey(labelText) != ""
    ensures var v := ValueKey(labelText);
      var second := if Part(zip) != "" then Part(zip) else Part(country);
      && (second == "" ==> LocationKey(labelText, zip, country) == ReplaceSpaceRuns(v, '-'))
      && (second != "" ==> LocationKey(labelText, zip, country) == ReplaceSpaceRuns(v + "-" + second, '-'))
  {
    var v := ValueKey(labelText);
    var second := if Part(zip) != "" then Part(zip) else Part(country);
    ReplaceSpaceRunsHead(JoinNonEmpty(v, second), '-');
  }

  /** Labels that differ only in letter case or surrounding whitespace share a key. */
  lemma LocationKeyIgnoresCaseAndPadding(labelText: string, zip: Option<string>, country: Option<string>)
    ensures LocationKey(ToLower(labelText), zip, country) == LocationKey(labelText, zip, country)
    ensures LocationKey(Trim(labelText), zip, country) == LocationKey(labelText, zip, country)
  {
    ValueKeyIgnoresCase(labelText);
    ValueKeyEitherOrder(labelText);
    TrimFixesTrimmed(ValueKey(labelText));
    assert ValueKey(Trim(labelText)) == ValueKey(labelText);
  }

  /** With a zip code present, the country plays no part in the key. */
  lemma ZipOverridesCountry(labelText: string, zip: string, country1: Option<string>, country2: Option<string>)
    requires ValueKey(zip) != ""
    ensures LocationKey(labelText, Some(zip), country1) == LocationKey(labelText, Some(zip), country2)
  {
  }

  /** `createJobLocation` once the user row is known. */
  function CreateFor(db: Db, user: Id, labelText: string, zip: Option<string>, country: Option<string>, geo: Geo): (r: (Result<Entity>, Db))
    ensures ValueKey(labelText) == "" ==> r == (Err(BlankLabelError), db)
    ensures r.0.Err? ==> r.1 == db
    ensures r.0.Ok? ==>
      && ValueKey(labelText) != ""
      && var key := LocationKey(labelText, zip, country);
         && r.0.value.value == key && r.0.value.createdBy == user && r.0.value in r.1.locations
         && (FindByKey(db.locations, key, user).Some? ==> r == (Ok(FindByKey(db.locations, key, user).value), db))
         && (FindByKey(db.locations, key, user).None? ==>
               && geo.lat.Some? && geo.lng.Some?
               && r.1.locations == db.locations + [r.0.value] && r.0.value.labelText == labelText
               && r.1 == db.(locations := r.1.locations, places := db.places[r.0.value.id := PlaceOf(zip, country, geo)], nextId := db.nextId + 1))
  {
    if ValueKey(labelText) == "" then (Err(BlankLabelError), db)
    else
      CreateWithPlace(db, user, labelText, LocationKey(labelText, zip, country), PlaceOf(zip, country, geo))
  }

  /**
   * The create once the key and the place are computed: an existing row is
   * returned; a new one needs both coordinates of `place`.
   */
  function CreateWithPlace(db: Db, user: Id, labelText: string, key: string, place: Place): (r: (Result<Entity>, Db))
    ensures r.0.Err? <==> FindByKey(db.locations, key, user).None? && (place.lat.None? || place.lng.None?)
    ensures r.0.Err? ==> r == (Err(GeocodeError), db)
    ensures r.0.Ok? ==> (r.0.value, r.1) == FindOrAppend(db, user, labelText, key, place)
  {
    if FindByKey(db.locations, key, user).None? && (place.lat.None? || place.lng.None?) then (Err(GeocodeError), db)
    else
      var found := FindOrAppend(db, user, labelText, key, place);
      (Ok(found.0), found.1)
  }

  /** With both coordinates known the create cannot fail: it is a find-or-append. */
  lemma CreateWithCoordinates(db: Db, user: Id, labelText: string, key: string, place: Place)
    requires place.lat.Some? && place.lng.Some?
    ensures var found := FindOrAppend(db, user, labelText, key, place);
      CreateWithPlace(db, user, labelText, key, place) == (Ok(found.0), found.1)
  {
  }

  /**
   * The user's location row with key `key`, or a new one appended with its
   * place stored and the id counter advanced.
   */
  function FindOrAppend(db: Db, user: Id, labelText: string, key: string, place: Place): (r: (Entity, Db))
    ensures r.0.value == key && r.0.createdBy == user && r.0 in r.1.locations
    ensures FindByKey(db.locations, key, user).Some? ==> r == (FindByKey(db.locations, key, user).value, db)
    ensures FindByKey(db.locations, key, user).None? ==>
      && r.0 == Entity(FreshId(db), labelText, key, user)
      && r.1 == db.(locations := db.locations + [r.0], places := db.places[r.0.id := place], nextId := db.nextId + 1)
  {
    match FindByKey(db.locations, key, user)
    case Some(existing) => (existing, db)
    case None =>
      var e := Entity(FreshId(db), labelText, key, user);
      (e, db.(locations := db.locations + [e], places := db.places[e.id := place], nextId := db.nextId + 1))
  }

  /** The row appended for a missing key has `place` stored under its id. */
  lemma FindOrAppendStoresPlace(db: Db, user: Id, labelText: string, key: string, place: Place)
    requires FindByKey(db.locations, key, user).None?
    ensures var (e, db1) := FindOrAppend(db, user, labelText, key, place);
      e.id in db1.places && db1.places[e.id] == place
  {
  }

  /** After a find-or-append, searching the new table for the key finds the row returned. */
  lemma FindOrAppendFinds(db: Db, user: Id, labelText: string, key: string, place: Place)
    ensures var (e, db1) := FindOrAppend(db, user, labelText, key, place);
      FindByKey(db1.locations, key, user) == Some(e)
  {
    if FindByKey(db.locations, key, user).None? {
      FindByKeyAfterMiss(db.locations, Entity(FreshId(db), labelText, key, user));
    }
  }

  /** A second create with the same key returns the first one's row and writes no location. */
  lemma CreateJobLocationTwice(db: Db, user: Id, labelText: string, zip: Option<string>, country: Option<string>,
                               geo: Geo, geo2: Geo)
    requires CreateFor(db, user, labelText, zip, country, geo).0.Ok?
    ensures var (r1, db1) := CreateFor(db, user, labelText, zip, country, geo);
      CreateFor(db1, user, labelText, zip, country, geo2) == (r1, db1)
  {
    CreateWithPlaceTwice(db, user, labelText, LocationKey(labelText, zip, country), PlaceOf(zip, country, geo),
                         PlaceOf(zip, country, geo2));
  }

  /** `CreateJobLocationTwice` for a computed key and place. */
  lemma CreateWithPlaceTwice(db: Db, user: Id, labelText: string, key: string, place: Place, place2: Place)
    requires CreateWithPlace(db, user, labelText, key, place).0.Ok?
    ensures var (r1, db1) := CreateWithPlace(db, user, labelText, key, place);
      CreateWithPlace(db1, user, labelText, key, place2) == (r1, db1)
  {
    FindOrAppendFinds(db, user, labelText, key, place);
  }

  /** Creating never gives the user a second location with the same key. */
  lemma CreateKeepsKeysUnique(db: Db, user: Id, labelText: string, zip: Option<string>, country: Option<string>, geo: Geo)
    requires KeysUnique(db.locations)
    ensures KeysUnique(CreateFor(db, user, labelText, zip, country, geo).1.locations)
  {
    var (r, db1) := CreateFor(db, user, labelText, zip, country, geo);
    if r.Ok? && FindByKey(db.locations, LocationKey(labelText, zip, country), user).None? {
      AppendKeepsKeysUnique(db.locations, r.value);
    }
  }

  /** Without a `createdBy` argument, the row updated may belong to another user. */
  lemma UpdateWithoutCreatedByReachesAnyRow(db: Db, u: CurrentUser, id: Id, labelText: string, zip: Option<string>,
                                            country: Option<string>, geo: Geo, k: nat)
    requires id != "" && geo.lat.Some? && geo.lng.Some?
    requires k < |db.locations| && db.locations[k].id == id && db.locations[k].createdBy != u.id
    requires forall j :: 0 <= j < k ==> db.locations[j].id != id
    ensures var r := UpdateJobLocation(db, Some(u), id, labelText, zip, country, None, geo);
      && r.0.Ok? && r.0.value.createdBy == db.locations[k].createdBy
      && |r.1.locations| == |db.locations| && r.1.locations[k] == r.0.value
  {
    var key := LocationKey(labelText, zip, country);
    var place := PlaceOf(zip, country, geo);
    UpdateRowAt(db, id, labelText, key, place, k);
    UpdatePassesGuard(db, u, id, labelText, zip, country, None, geo);
  }

  /** Past the session, ownership and geocoder checks, the update is `UpdateRow` with the computed key and place. */
  lemma UpdatePassesGuard(db: Db, u: CurrentUser, id: Id, labelText: string, zip: Option<string>,
                          country: Option<string>, createdBy: Option<Id>, geo: Geo)
    requires !UpdateRefused(id, createdBy, u.id) && geo.lat.Some? && geo.lng.Some?
    ensures UpdateJobLocation(db, Some(u), id, labelText, zip, country, createdBy, geo)
         == UpdateRow(db, id, labelText, LocationKey(labelText, zip, country), PlaceOf(zip, country, geo))
  {
  }

  /** After a successful delete every job still names a location that exists, if every job did before. */
  lemma DeleteJobLocationKeepsJobsResolved(db: Db, current: Option<CurrentUser>, id: Id)
    requires RefsResolve(db.locations, db.jobs, LocationRef)
    requires DeleteJobLocation(db, current, id).0.Ok?
    ensures RefsResolve(DeleteJobLocation(db, current, id).1.locations, db.jobs, LocationRef)
  {
    GuardedDeleteKeepsRefs(db.locations, db.jobs, id, current.value.id, LocationRef, "Location");
  }
}
