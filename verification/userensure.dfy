/**
 * `src/utils/user.ensure.ts`: make sure the signed-in user has a row in
 * the store before anything is written on their behalf.
 *
 * The row is looked up by id, then by e-mail address; only when both miss
 * is a row created. The e-mail address defaults to "<id>@local" and the
 * name to "User".
 */
module UserEnsure {
  import opened Wrappers
  import opened Seqs
  import opened Store

  /** The session user; name and e-mail address may be missing. */
  datatype CurrentUser = CurrentUser(id: Id, name: Option<string>, email: Option<string>)

  /** The password stored for users created here. */
  const PlaceholderPassword := "placeholder"

  /** `user.email ?? \`${user.id}@local\``. */
  function EmailOf(u: CurrentUser): (r: string)
    ensures u.email.Some? ==> r == u.email.value
    ensures u.email.None? ==> r == u.id + "@local"
  {
    u.email.GetOr(u.id + "@local")
  }

  /**
   * Sessions without an e-mail get distinct placeholder addresses exactly
   * when their ids differ, so `<id>@local` never merges two such users.
   */
  lemma EmailOfPlaceholderDistinct(u1: CurrentUser, u2: CurrentUser)
    requires u1.email.None? && u2.email.None?
    ensures EmailOf(u1) == EmailOf(u2) <==> u1.id == u2.id
  {
    if EmailOf(u1) == EmailOf(u2) {
      var e := EmailOf(u1);
      assert |u1.id| == |u2.id|;
      assert u1.id == e[..|u1.id|];
      assert u2.id == e[..|u2.id|];
    }
  }

  /** The two ways a user row is looked up: by id, or by e-mail address. */
  datatype UserKey = ById(id: Id) | ByEmail(email: string)
  {
    predicate Matches(u: User) {
      match this
      case ById(id) => u.id == id
      case ByEmail(email) => u.email == email
    }
  }

  /** `prisma.user.findUnique({ where: key })`: the first row the key matches. */
  function UserBy(users: seq<User>, key: UserKey): (r: Option<User>)
    ensures r.Some? ==> r.value in users && key.Matches(r.value)
    ensures r.None? <==> forall i :: 0 <= i < |users| ==> !key.Matches(users[i])
  {
    Find(users, (x: User) => key.Matches(x))
  }

  /** `ensureUserExists(user)` for a signed-in user: the row, and the store after. */
  function EnsureUser(db: Db, u: CurrentUser): (r: (User, Db))
    ensures UserBy(db.users, ById(u.id)).Some? ==> r == (UserBy(db.users, ById(u.id)).value, db)
    ensures UserBy(db.users, ById(u.id)).None? && UserBy(db.users, ByEmail(EmailOf(u))).Some? ==>
      r == (UserBy(db.users, ByEmail(EmailOf(u))).value, db)
    ensures UserBy(db.users, ById(u.id)).None? && UserBy(db.users, ByEmail(EmailOf(u))).None? ==>
      && r.0 == User(u.id, u.name.GetOr("User"), EmailOf(u), PlaceholderPassword)
      && r.1 == db.(users := db.users + [r.0])
    ensures r.0 in r.1.users
    ensures r.1.(users := db.users) == db
  {
    match UserBy(db.users, ById(u.id))
    case Some(x) => (x, db)
    case None =>
      match UserBy(db.users, ByEmail(EmailOf(u)))
      case Some(x) => (x, db)
      case None =>
        var x := User(u.id, u.name.GetOr("User"), EmailOf(u), PlaceholderPassword);
        (x, db.(users := db.users + [x]))
  }

  /** `ensureUserExists(user)`, which throws "Not authenticated" when there is no user. */
  function EnsureUserExists(db: Db, u: Option<CurrentUser>): (r: Result<(User, Db)>)
    ensures u.None? <==> r.Err?
    ensures r.Err? ==> r.message == "Not authenticated"
    ensures u.Some? ==> r == Ok(EnsureUser(db, u.value))
  {
    match u
    case None => Err("Not authenticated")
    case Some(x) => Ok(EnsureUser(db, x))
  }

  /** A second call finds the row the first returned and writes nothing. */
  lemma EnsureUserIdempotent(db: Db, u: CurrentUser)
    ensures var (x, db1) := EnsureUser(db, u);
      EnsureUser(db1, u) == (x, db1)
  {
    var (x, db1) := EnsureUser(db, u);
    if UserBy(db.users, ById(u.id)).None? && UserBy(db.users, ByEmail(EmailOf(u))).None? {
      FindAfterMisses(db.users, x, (y: User) => ById(u.id).Matches(y));
    } else if UserBy(db.users, ById(u.id)).None? {
      assert db1 == db;
    }
  }

  /** A user created here is found by id on every later call, whatever the session carries for name and e-mail. */
  lemma CreatedUserFoundById(db: Db, u: CurrentUser, later: CurrentUser)
    requires UserBy(db.users, ById(u.id)).None? && UserBy(db.users, ByEmail(EmailOf(u))).None?
    requires later.id == u.id
    ensures var (x, db1) := EnsureUser(db, u);
      x.id == u.id && EnsureUser(db1, later) == (x, db1)
  {
    var (x, db1) := EnsureUser(db, u);
    FindAfterMisses(db.users, x, (y: User) => ById(u.id).Matches(y));
  }
}
