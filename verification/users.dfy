/** The user model of pkg/server/users over a database of rows: lookups by username, email
    and ID, creation, the three updates, and the role and permission caches.

    Every operation opens its own transaction through `Db.BeginTx`; a failed statement
    rolls the transaction back, so the database changes only when an operation succeeds.
    The clock (`now`), the password hasher's `IsDerivedKey` verdict, the ID the
    database's sequence hands out and the outcome of each statement are
    parameters; the statement outcome is where a uniqueness violation of the schema
    shows up. Commits are not checked by the source and are taken to succeed. */
module Users {
  import opened Base
  import Db

  const DefaultRoleID: Int64 := 2

  datatype Role = Role(id: Int64, title: string, description: Option<string>, created: Time, modified: Time)

  /** The `Role{}` that `fetchRole` allocates before it scans. */
  const ZeroRole := Role(0, "", None, 0, 0)

  /** A row of the users table. */
  datatype Row = Row(
    id: Int64,
    fullName: Option<string>,
    email: string,
    username: string,
    password: string,
    roleID: Int64,
    lastSeen: Option<Time>,
    passwordChanged: Option<Time>,
    created: Time,
    modified: Time)

  /** A `users.User`: the row's columns plus the cached role and permissions. */
  datatype User = User(row: Row, role: Option<Role>, permissions: seq<string>)

  /** The database as the package sees it: the connection, what the driver answers to
      `BeginTx`, the users table in insertion order, the roles table, and the
      user_permissions view. */
  datatype Database = Database(
    conn: Db.Conn,
    beginErr: Outcome,
    rows: seq<Row>,
    roles: map<Int64, Role>,
    grants: map<Int64, seq<string>>)

  function Begin(db: Database, readOnly: bool): (r: Outcome)
    ensures r.None? <==> Db.BeginTx(db.conn, Some(Db.TxOptions(readOnly)), db.beginErr).Ok?
  {
    match Db.BeginTx(db.conn, Some(Db.TxOptions(readOnly)), db.beginErr)
    case Ok(_) => None
    case Err(e) => Some(e)
  }

  function ByUsername(username: string): Row -> bool {
    (row: Row) => row.username == username
  }

  function ByEmail(email: string): Row -> bool {
    (row: Row) => row.email == email
  }

  function ByID(id: Int64): Row -> bool {
    (row: Row) => row.id == id
  }

  function GrantsOf(db: Database, id: Int64): seq<string> {
    if id in db.grants then db.grants[id] else []
  }

  /** The lookup shared by `UserFromUsername` and `UserFromEmail`: with `claims` the
      role and permissions are loaded and the password kept (it is needed to log in);
      without, the password is blanked. */
  function Load(db: Database, selects: Row -> bool, claims: bool): (r: Result<User>)
    ensures r.Ok? ==> Begin(db, true).None? && First(db.rows, selects).Some?
    ensures r.Ok? ==> var row := db.rows[First(db.rows, selects).value];
      && r.value.row == (if claims then row else row.(password := ""))
      && (claims ==> row.roleID in db.roles && r.value.role == Some(db.roles[row.roleID]) && r.value.permissions == GrantsOf(db, row.id))
      && (!claims ==> r.value.role.None? && r.value.permissions == [])
    ensures Begin(db, true).Some? ==> r == Err(Begin(db, true).value)
    ensures Begin(db, true).None? && First(db.rows, selects).None? ==> r == Err(NoRows)
  {
    var tx := Begin(db, true);
    if tx.Some? then Err(tx.value)
    else
      match First(db.rows, selects)
      case None => Err(NoRows)
      case Some(k) =>
        var row := db.rows[k];
        if !claims then Ok(User(row.(password := ""), None, []))
        else if row.roleID !in db.roles then Err(NoRows)
        else Ok(User(row, Some(db.roles[row.roleID]), GrantsOf(db, row.id)))
  }

  /** `UserFromUsername`. */
  function UserFromUsername(db: Database, username: string, claims: bool): (r: Result<User>)
    ensures r.Ok? ==> r.value.row.username == username
    ensures r.Ok? && !claims ==> r.value.row.password == ""
    ensures r.Ok? ==> exists i :: 0 <= i < |db.rows| && db.rows[i].username == username
  {
    Load(db, ByUsername(username), claims)
  }

  /** `UserFromEmail`. */
  function UserFromEmail(db: Database, email: string, claims: bool): (r: Result<User>)
    ensures r.Ok? ==> r.value.row.email == email
    ensures r.Ok? && !claims ==> r.value.row.password == ""
    ensures r.Ok? ==> exists i :: 0 <= i < |db.rows| && db.rows[i].email == email
  {
    Load(db, ByEmail(email), claims)
  }

  /** `UserFromID` as written: the columns are scanned into the struct's fields by value
      rather than by address, and `database/sql` refuses a destination that is not a
      pointer, so a user that exists is never returned. */
  function UserFromIDAsWritten(db: Database, id: Int64): (r: Result<User>)
    ensures r.Err?
    ensures First(db.rows, ByID(id)).Some? && Begin(db, true).None? ==> r == Err(ScanNotPointer)
  {
    var tx := Begin(db, true);
    if tx.Some? then Err(tx.value)
    else
      match First(db.rows, ByID(id))
      case None => Err(NoRows)
      case Some(_) => Err(ScanNotPointer)
  }

  /** `UserFromID` as intended: the user with that ID, without password, role or
      permissions. */
  function UserFromID(db: Database, id: Int64): (r: Result<User>)
    ensures r.Ok? <==> Begin(db, true).None? && exists i :: 0 <= i < |db.rows| && db.rows[i].id == id
    ensures r.Ok? ==> r.value.row == db.rows[First(db.rows, ByID(id)).value].(password := "")
    ensures r.Ok? ==> r.value.row.id == id && r.value.row.password == "" && r.value.role.None? && r.value.permissions == []
  {
    var tx := Begin(db, true);
    if tx.Some? then Err(tx.value)
    else
      match First(db.rows, ByID(id))
      case None => Err(NoRows)
      case Some(k) => Ok(User(db.rows[k].(password := ""), None, []))
  }

  /** `UserFromID` in the given build: as written it never returns a user. */
  function UserFromIDIn(b: Build, db: Database, id: Int64): (r: Result<User>)
    ensures b.AsWritten? ==> r.Err?
    ensures b.Corrected? ==> r == UserFromID(db, id)
  {
    match b
    case AsWritten => UserFromIDAsWritten(db, id)
    case Corrected => UserFromID(db, id)
  }

  function NewPassword(password: string, now: Time): Row -> Row {
    (row: Row) => row.(password := password, passwordChanged := Some(now))
  }

  function SeenAt(now: Time): Row -> Row {
    (row: Row) => row.(lastSeen := Some(now))
  }

  /** Applies `f` to every row with the given ID, as an `UPDATE ... WHERE id=$1` does. */
  function UpdateRows(rows: seq<Row>, id: Int64, f: Row -> Row): (r: seq<Row>)
    ensures |r| == |rows|
    ensures forall i :: 0 <= i < |rows| ==> r[i] == if rows[i].id == id then f(rows[i]) else rows[i]
  {
    if |rows| == 0 then [] else
      [if rows[0].id == id then f(rows[0]) else rows[0]] + UpdateRows(rows[1..], id, f)
  }

  /** `Create`: a password that is not a derived key is refused before anything changes;
      otherwise the password-changed time becomes `now` and a missing role becomes the
      default role, both on the caller's struct even if the insert then fails. The
      `INSERT` writes neither the ID nor the last-seen time: the row gets `newID` from the
      database's sequence, no last-seen time and the database's timestamps, while the
      caller's struct keeps its own last-seen time. `insertErr` is the outcome of the
      `INSERT ... RETURNING` scan, and `readErr` that of the timestamp read that follows,
      by which time the struct already carries the new ID. */
  function Create(u: User, db: Database, derived: bool, now: Time, newID: Int64, insertErr: Outcome, readErr: Outcome): (r: (User, Database, Outcome))
    ensures !derived ==> r == (u, db, Some(NotDerivedKey))
    ensures derived ==> r.0.row.passwordChanged == Some(now)
    ensures derived ==> r.0.row.roleID == (if u.row.roleID < 1 then DefaultRoleID else u.row.roleID)
    ensures r.0.row.lastSeen == u.row.lastSeen
    ensures derived && Begin(db, false).None? && insertErr.Some? ==> r.2 == insertErr && r.0.row.id == u.row.id
    ensures derived && Begin(db, false).None? && insertErr.None? && readErr.Some? ==> r.2 == readErr && r.0.row.id == newID
    ensures r.2.None? <==> derived && Begin(db, false).None? && insertErr.None? && readErr.None?
    ensures r.2.None? ==> r.0.row.id == newID && r.1 == db.(rows := db.rows + [r.0.row.(lastSeen := None)])
    ensures r.2.None? ==> r.1.rows[|db.rows|].lastSeen.None?
    ensures r.2.Some? ==> r.1 == db
  {
    if !derived then (u, db, Some(NotDerivedKey))
    else
      var roleID := if u.row.roleID < 1 then DefaultRoleID else u.row.roleID;
      var u1 := u.(row := u.row.(passwordChanged := Some(now), roleID := roleID));
      var tx := Begin(db, false);
      if tx.Some? then (u1, db, tx)
      else if insertErr.Some? then (u1, db, insertErr)
      else
        var u2 := u1.(row := u1.row.(id := newID));
        if readErr.Some? then (u2, db, readErr)
        else
          var u3 := u2.(row := u2.row.(created := now, modified := now));
          (u3, db.(rows := db.rows + [u3.row.(lastSeen := None)]), None)
  }

  /** `Update`: full name, email, username, role and last-seen time of the row with the
      user's ID; an ID below 1 is refused. `execErr` is what the `UPDATE` returned. */
  function Update(u: User, db: Database, execErr: Outcome): (r: (Database, Outcome))
    ensures u.row.id < 1 ==> r == (db, Some(NoUserID))
    ensures u.row.id >= 1 && Begin(db, false).None? && execErr.Some? ==> r.1 == execErr
    ensures r.1.None? <==> u.row.id >= 1 && Begin(db, false).None? && execErr.None?
    ensures r.1.Some? ==> r.0 == db
    ensures r.1.None? ==> r.0 == db.(rows := r.0.rows) && |r.0.rows| == |db.rows|
    ensures r.1.None? ==> forall i :: 0 <= i < |db.rows| && db.rows[i].id != u.row.id ==> r.0.rows[i] == db.rows[i]
    ensures r.1.None? ==> forall i :: 0 <= i < |db.rows| && db.rows[i].id == u.row.id ==>
      r.0.rows[i] == db.rows[i].(fullName := u.row.fullName, email := u.row.email, username := u.row.username,
                                 roleID := u.row.roleID, lastSeen := u.row.lastSeen)
  {
    if u.row.id < 1 then (db, Some(NoUserID))
    else
      var tx := Begin(db, false);
      if tx.Some? then (db, tx)
      else if execErr.Some? then (db, execErr)
      else
        var f := (row: Row) => row.(fullName := u.row.fullName, email := u.row.email, username := u.row.username,
                                    roleID := u.row.roleID, lastSeen := u.row.lastSeen);
        (db.(rows := UpdateRows(db.rows, u.row.id, f)), None)
  }

  /** `UpdatePassword`: the ID is checked first, then the password; the password-changed
      time becomes `now`, on the caller's struct even if the `UPDATE` then fails with
      `execErr`. */
  function UpdatePassword(u: User, db: Database, derived: bool, now: Time, execErr: Outcome): (r: (User, Database, Outcome))
    ensures u.row.id < 1 ==> r == (u, db, Some(NoUserID))
    ensures u.row.id >= 1 && !derived ==> r == (u, db, Some(NotDerivedKey))
    ensures u.row.id >= 1 && derived ==> r.0 == u.(row := u.row.(passwordChanged := Some(now)))
    ensures u.row.id >= 1 && derived && Begin(db, false).None? && execErr.Some? ==> r.2 == execErr
    ensures r.2.None? <==> u.row.id >= 1 && derived && Begin(db, false).None? && execErr.None?
    ensures r.2.Some? ==> r.1 == db
    ensures r.2.None? ==> r.1 == db.(rows := UpdateRows(db.rows, u.row.id, NewPassword(u.row.password, now)))
  {
    if u.row.id < 1 then (u, db, Some(NoUserID))
    else if !derived then (u, db, Some(NotDerivedKey))
    else
      var u1 := u.(row := u.row.(passwordChanged := Some(now)));
      var tx := Begin(db, false);
      if tx.Some? then (u1, db, tx)
      else if execErr.Some? then (u1, db, execErr)
      else (u1, db.(rows := UpdateRows(db.rows, u.row.id, NewPassword(u.row.password, now))), None)
  }

  /** `UpdateLastSeen`: the last-seen time becomes `now`, on the caller's struct even if
      the `UPDATE` then fails with `execErr`. */
  function UpdateLastSeen(u: User, db: Database, now: Time, execErr: Outcome): (r: (User, Database, Outcome))
    ensures u.row.id < 1 ==> r == (u, db, Some(NoUserID))
    ensures u.row.id >= 1 ==> r.0 == u.(row := u.row.(lastSeen := Some(now)))
    ensures u.row.id >= 1 && Begin(db, false).None? && execErr.Some? ==> r.2 == execErr
    ensures r.2.None? <==> u.row.id >= 1 && Begin(db, false).None? && execErr.None?
    ensures r.2.Some? ==> r.1 == db
    ensures r.2.None? ==> r.1 == db.(rows := UpdateRows(db.rows, u.row.id, SeenAt(now)))
  {
    if u.row.id < 1 then (u, db, Some(NoUserID))
    else
      var u1 := u.(row := u.row.(lastSeen := Some(now)));
      var tx := Begin(db, false);
      if tx.Some? then (u1, db, tx)
      else if execErr.Some? then (u1, db, execErr)
      else (u1, db.(rows := UpdateRows(db.rows, u.row.id, SeenAt(now))), None)
  }

  /** `Role`: served from the cache unless `reset` or nothing is cached. A fetch caches an
      empty role before it scans, so a role that is not found leaves that empty role
      cached. */
  function GetRole(u: User, db: Database, reset: bool): (r: (User, Result<Role>))
    ensures !reset && u.role.Some? ==> r == (u, Ok(u.role.value))
    ensures r.1.Ok? ==> r.0.role == Some(r.1.value)
    ensures (reset || u.role.None?) && Begin(db, true).None? ==>
      (r.1.Ok? <==> u.row.roleID in db.roles) && (r.1.Ok? ==> r.1.value == db.roles[u.row.roleID])
    ensures (reset || u.role.None?) && Begin(db, true).None? && r.1.Err? ==> r.0.role == Some(ZeroRole)
    ensures r.0.row == u.row && r.0.permissions == u.permissions
  {
    if !reset && u.role.Some? then (u, Ok(u.role.value))
    else
      var tx := Begin(db, true);
      if tx.Some? then (u, Err(tx.value))
      else if u.row.roleID !in db.roles then (u.(role := Some(ZeroRole)), Err(NoRows))
      else
        var role := db.roles[u.row.roleID];
        (u.(role := Some(role)), Ok(role))
  }

  /** `Permissions`: served from the cache unless `reset` or the cached list is empty, so
      a user without permissions queries the database every time. */
  function GetPermissions(u: User, db: Database, reset: bool): (r: (User, Result<seq<string>>))
    ensures !reset && |u.permissions| > 0 ==> r == (u, Ok(u.permissions))
    ensures r.1.Ok? ==> r.0.permissions == r.1.value
    ensures (reset || |u.permissions| == 0) ==>
      (r.1.Ok? <==> Begin(db, true).None?) && (r.1.Ok? ==> r.1.value == GrantsOf(db, u.row.id))
    ensures r.0.row == u.row && r.0.role == u.role
  {
    if !reset && |u.permissions| > 0 then (u, Ok(u.permissions))
    else
      var tx := Begin(db, true);
      if tx.Some? then (u, Err(tx.value))
      else
        var perms := GrantsOf(db, u.row.id);
        (u.(permissions := perms), Ok(perms))
  }

  // ---------------------------------------------------------------------------------
  // Lemmas

  /** As written, `UserFromID` never returns a user, and it fails even for an ID that is in
      the table on a working connection. */
  lemma UserFromIDAsWrittenFails(db: Database, i: nat)
    requires i < |db.rows| && Begin(db, true).None?
    ensures UserFromIDAsWritten(db, db.rows[i].id) == Err(ScanNotPointer)
    ensures UserFromID(db, db.rows[i].id).Ok?
  {
  }

  /** A created user can be looked up by its new ID, with the fields it was created with,
      without its password and without a last-seen time, whatever the caller's struct
      held. */
  lemma CreateThenFetch(u: User, db: Database, now: Time, newID: Int64)
    requires forall i :: 0 <= i < |db.rows| ==> db.rows[i].id != newID
    requires Create(u, db, true, now, newID, None, None).2.None?
    ensures var (created, db2, _) := Create(u, db, true, now, newID, None, None);
      UserFromID(db2, newID) == Ok(User(created.row.(password := "", lastSeen := None), None, []))
  {
    var (created, db2, _) := Create(u, db, true, now, newID, None, None);
    var k := First(db2.rows, ByID(newID));
    assert db2.rows[|db.rows|].id == newID;
    assert k == Some(|db.rows|);
  }

  /** An update is visible to the next lookup by ID, and leaves the password alone. */
  lemma UpdateThenFetch(u: User, db: Database, i: nat)
    requires i < |db.rows| && db.rows[i].id == u.row.id
    requires Update(u, db, None).1.None?
    ensures var db2 := Update(u, db, None).0;
      && UserFromID(db2, u.row.id).Ok?
      && var v := UserFromID(db2, u.row.id).value.row;
      && v.fullName == u.row.fullName && v.email == u.row.email && v.username == u.row.username
      && v.roleID == u.row.roleID && v.lastSeen == u.row.lastSeen
      && db2.rows[First(db2.rows, ByID(u.row.id)).value].password
         == db.rows[First(db.rows, ByID(u.row.id)).value].password
  {
    var db2 := Update(u, db, None).0;
    var sel := ByID(u.row.id);
    assert forall j :: 0 <= j < |db.rows| ==> (sel(db.rows[j]) <==> sel(db2.rows[j]));
    FirstAgrees(db.rows, db2.rows, sel);
    assert First(db.rows, sel).Some? by { assert sel(db.rows[i]); }
  }

  /** A new password is what the next login lookup sees. */
  lemma UpdatePasswordThenLogin(u: User, db: Database, now: Time, i: nat)
    requires i < |db.rows| && db.rows[i].id == u.row.id
    requires forall j :: 0 <= j < |db.rows| && j != i ==> db.rows[j].username != db.rows[i].username
    requires db.rows[i].roleID in db.roles
    requires UpdatePassword(u, db, true, now, None).2.None?
    ensures var db2 := UpdatePassword(u, db, true, now, None).1;
      && UserFromUsername(db2, db.rows[i].username, true).Ok?
      && UserFromUsername(db2, db.rows[i].username, true).value.row.password == u.row.password
      && UserFromUsername(db2, db.rows[i].username, false).value.row.password == ""
  {
    var db2 := UpdatePassword(u, db, true, now, None).1;
    var name := db.rows[i].username;
    var sel := ByUsername(name);
    assert forall j :: 0 <= j < |db.rows| ==> db2.rows[j].username == db.rows[j].username;
    var k := First(db2.rows, sel);
    assert sel(db2.rows[i]);
    assert k == Some(i);
  }

  /** A role lookup that finds nothing leaves the empty role cached, so the next cached
      lookup succeeds with it without a query. */
  lemma MissingRoleIsCachedEmpty(u: User, db: Database)
    requires u.role.None? && Begin(db, true).None? && u.row.roleID !in db.roles
    ensures GetRole(u, db, false).1 == Err(NoRows)
    ensures var u2 := GetRole(u, db, false).0;
      forall db2: Database :: GetRole(u2, db2, false) == (u2, Ok(ZeroRole))
  {
  }

  /** A user without permissions is never served from the cache: once the connection is
      gone, asking again fails although the last answer was known. */
  lemma EmptyPermissionsNotCached(u: User, db: Database, db2: Database)
    requires |u.permissions| == 0 && Begin(db, true).None? && GrantsOf(db, u.row.id) == []
    requires !db2.conn.connected
    ensures GetPermissions(u, db, false).1 == Ok([])
    ensures GetPermissions(GetPermissions(u, db, false).0, db2, false).1 == Err(NotConnected)
  {
  }
}
