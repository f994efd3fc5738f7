/**
 * `src/actions/jobtitle.actions.ts`: creating and deleting job titles.
 *
 * `createJobTitle` is an upsert on the per-user key `value_createdBy`: an
 * existing row keeps its id and takes the new label, otherwise one row is
 * created. `deleteJobTitleById` refuses while any job uses the title.
 */
module JobTitleActions {
  import opened Wrappers
  import opened Seqs
  import opened Store
  import opened UserEnsure

  /** Replace the row at index `i` by one with the same key and a new label. */
  function Relabel(rows: seq<Entity>, i: nat, labelText: string): (r: seq<Entity>)
    requires i < |rows|
    ensures |r| == |rows| && r[i] == rows[i].(labelText := labelText)
    ensures forall k :: 0 <= k < |rows| && k != i ==> r[k] == rows[k]
  {
    rows[i := rows[i].(labelText := labelText)]
  }

  /** The upsert on `(value, user)`: the row after it, and the table after it. */
  function UpsertTitle(rows: seq<Entity>, labelText: string, value: string, user: Id, newId: Id): (r: (Entity, seq<Entity>))
    ensures r.0.value == value && r.0.createdBy == user && r.0.labelText == labelText && r.0 in r.1
    ensures FindByKey(rows, value, user).Some? ==> r.0.id == FindByKey(rows, value, user).value.id && |r.1| == |rows|
    ensures FindByKey(rows, value, user).None? ==> r.1 == rows + [r.0] && r.0.id == newId
    ensures forall k :: 0 <= k < |rows| && !(rows[k].value == value && rows[k].createdBy == user) ==> rows[k] in r.1
  {
    match FindIndex(rows, (e: Entity) => e.value == value && e.createdBy == user)
    case Some(i) =>
      var r := Relabel(rows, i, labelText);
      assert r[i] in r;
      (r[i], r)
    case None =>
      var e := Entity(newId, labelText, value, user);
      (e, rows + [e])
  }

  /** `createJobTitle(label)`: the upserted row, or the error the action reports. */
  function CreateJobTitle(db: Db, current: Option<CurrentUser>, labelText: string): (r: (Result<Entity>, Db))
    ensures current.None? <==> r.0.Err?
    ensures current.None? ==> r == (Err(NotAuthenticated), db)
    ensures r.0.Ok? ==>
      && r.0.value.value == ValueKey(labelText) && r.0.value.labelText == labelText
      && r.0.value.createdBy == EnsureUser(db, current.value).0.id
      && r.0.value in r.1.titles
    ensures r.1.jobs == db.jobs && r.1.companies == db.companies && r.1.locations == db.locations
  {
    match current
    case None => (Err(NotAuthenticated), db)
    case Some(u) =>
      var (user, db1) := EnsureUser(db, u);
      var (e, titles) := UpsertTitle(db1.titles, labelText, ValueKey(labelText), user.id, FreshId(db1));
      (Ok(e), db1.(titles := titles, nextId := db1.nextId + 1))
  }

  /** `deleteJobTitleById(id)`; the owner is the session's user id. */
  function DeleteJobTitle(db: Db, current: Option<CurrentUser>, id: Id): (r: (Result<()>, Db))
    ensures current.None? ==> r == (Err(NotAuthenticated), db)
    ensures current.Some? && RefCount(db.jobs, TitleRef, id) > 0 ==>
      r.0 == Err(DeleteBlocked("Job title", RefCount(db.jobs, TitleRef, id)))
    ensures (current.Some? && RefCount(db.jobs, TitleRef, id) == 0
             && exists e :: e in db.titles && e.id == id && e.createdBy == current.value.id) ==> r.0.Ok?
    ensures r.0.Err? ==> r.1 == db
    ensures r.0.Ok? ==>
      && current.Some?
      && (forall i :: 0 <= i < |db.jobs| ==> db.jobs[i].jobTitleId != id)
      && (exists e :: e in db.titles && e.id == id && e.createdBy == current.value.id)
      && (forall e :: e in r.1.titles ==> e in db.titles && e.id != id)
      && (forall e :: e in db.titles && e.id != id ==> e in r.1.titles)
      && r.1 == db.(titles := r.1.titles)
  {
    match current
    case None => (Err(NotAuthenticated), db)
    case Some(u) =>
      match GuardedDelete(db.titles, db.jobs, id, u.id, TitleRef, "Job title")
      case Err(m) => (Err(m), db)
      case Ok(kept) =>
        var k :| 0 <= k < |db.titles| && db.titles[k].id == id && db.titles[k].createdBy == u.id;
        assert db.titles[k] in db.titles;
        assert RefCount(db.jobs, TitleRef, id) == 0;
        (Ok(()), db.(titles := kept))
  }

  /** The title a job points at. */
  function TitleRef(j: Job): Option<Id> {
    Some(j.jobTitleId)
  }

  // ---------------------------------------------------------------------------
  // Properties
  // ---------------------------------------------------------------------------

  /** Relabelling a row keeps its key, so the keys stay unique. */
  lemma RelabelKeepsKeysUnique(rows: seq<Entity>, i: nat, labelText: string)
    requires i < |rows| && KeysUnique(rows)
    ensures KeysUnique(Relabel(rows, i, labelText))
  {
    var r := Relabel(rows, i, labelText);
    assert forall k :: 0 <= k < |rows| ==> r[k].value == rows[k].value && r[k].createdBy == rows[k].createdBy;
  }

  /** `createJobTitle` never produces a second title with the same `(value, createdBy)`. */
  lemma CreateJobTitleKeepsKeysUnique(db: Db, current: Option<CurrentUser>, labelText: string)
    requires KeysUnique(db.titles)
    ensures KeysUnique(CreateJobTitle(db, current, labelText).1.titles)
  {
    if current.Some? {
      var (user, db1) := EnsureUser(db, current.value);
      var value := ValueKey(labelText);
      match FindIndex(db1.titles, (e: Entity) => e.value == value && e.createdBy == user.id)
      case Some(i) => RelabelKeepsKeysUnique(db1.titles, i, labelText);
      case None => AppendKeepsKeysUnique(db1.titles, Entity(FreshId(db1), labelText, value, user.id));
    }
  }

  /** Two rows with the same key in a table with unique keys are the same row. */
  lemma SameKeySameRow(rows: seq<Entity>, a: Entity, b: Entity)
    requires KeysUnique(rows) && a in rows && b in rows
    requires a.value == b.value && a.createdBy == b.createdBy
    ensures a == b
  {
    var i :| 0 <= i < |rows| && rows[i] == a;
    var j :| 0 <= j < |rows| && rows[j] == b;
    if i < j {
      assert false;
    } else if j < i {
      assert false;
    }
  }

  /**
   * Creating a title twice under labels with the same key adds one row at
   * most: the second call returns the first call's row, relabelled.
   */
  lemma CreateJobTitleTwice(db: Db, u: CurrentUser, label1: string, label2: string)
    requires KeysUnique(db.titles)
    requires ValueKey(label1) == ValueKey(label2)
    ensures var (r1, db1) := CreateJobTitle(db, Some(u), label1);
      var (r2, db2) := CreateJobTitle(db1, Some(u), label2);
      r1.Ok? && r2.Ok? && r2.value.id == r1.value.id && r2.value.labelText == label2 && |db2.titles| == |db1.titles|
  {
    var (r1, db1) := CreateJobTitle(db, Some(u), label1);
    CreateJobTitleKeepsKeysUnique(db, Some(u), label1);
    EnsureUserIdempotent(db, u);
    var (user, dbu) := EnsureUser(db, u);
    assert db1.users == dbu.users;
    assert EnsureUser(db1, u) == (user, db1.(users := dbu.users));
    var found := FindByKey(db1.titles, ValueKey(label2), user.id);
    assert r1.value in db1.titles;
    SameKeySameRow(db1.titles, found.value, r1.value);
  }

  /** After a successful delete every job still names a title that exists, if every job did before. */
  lemma DeleteJobTitleKeepsJobsResolved(db: Db, current: Option<CurrentUser>, id: Id)
    requires RefsResolve(db.titles, db.jobs, TitleRef)
    requires DeleteJobTitle(db, current, id).0.Ok?
    ensures RefsResolve(DeleteJobTitle(db, current, id).1.titles, db.jobs, TitleRef)
  {
    GuardedDeleteKeepsRefs(db.titles, db.jobs, id, current.value.id, TitleRef, "Job title");
  }
}
