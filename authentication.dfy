/** The authentication repository: user lookups by email and username, the "is taken" checks the
    registration endpoint runs, and the transactional creation of a user with a role. */
module AuthenticationRepository {
  import opened Wrappers
  import opened Store

  /** get_user_by_email */
  function GetUserByEmail(t: Tables, email: string): (r: Result<Authentication, DbError>)
    ensures r.Success? <==> EmailTaken(t, email)
    ensures r.Success? ==> r.value in t.users && r.value.email == email
    ensures r.Failure? ==> r.error == EntityDoesNotExist("user with email " + email + " does not exist")
  {
    match FindUser(t.users, ByEmail(email))
    case Some(user) => Success(user)
    case None => Failure(EntityDoesNotExist("user with email " + email + " does not exist"))
  }

  /** get_user_by_username */
  function GetUserByUsername(t: Tables, username: string): (r: Result<Authentication, DbError>)
    ensures r.Success? <==> UsernameTaken(t, username)
    ensures r.Success? ==> r.value in t.users && r.value.username == username
    ensures r.Failure? ==> r.error == EntityDoesNotExist("user with username " + username + " does not exist")
  {
    match FindUser(t.users, ByUsername(username))
    case Some(user) => Success(user)
    case None => Failure(EntityDoesNotExist("user with username " + username + " does not exist"))
  }

  /** Under the unique email column, the user found is the one row with that email. */
  lemma GetUserByEmailFindsTheRow(t: Tables, i: int)
    requires Valid(t) && 0 <= i < |t.users|
    ensures GetUserByEmail(t, t.users[i].email) == Success(t.users[i])
  {
    var r := GetUserByEmail(t, t.users[i].email);
    var j :| 0 <= j < |t.users| && t.users[j] == r.value;
    assert i == j;
  }

  /** Under the unique username column, the user found is the one row with that username. */
  lemma GetUserByUsernameFindsTheRow(t: Tables, i: int)
    requires Valid(t) && 0 <= i < |t.users|
    ensures GetUserByUsername(t, t.users[i].username) == Success(t.users[i])
  {
    var r := GetUserByUsername(t, t.users[i].username);
    var j :| 0 <= j < |t.users| && t.users[j] == r.value;
    assert i == j;
  }

  /** The try/except of the "is taken" checks: a found user means taken, EntityDoesNotExist means
      free, and any other error propagates. */
  function TakenFrom(lookup: Result<Authentication, DbError>): (r: Result<bool, DbError>)
    ensures lookup.Success? ==> r == Success(true)
    ensures lookup.Failure? && lookup.error.EntityDoesNotExist? ==> r == Success(false)
    ensures lookup.Failure? && !lookup.error.EntityDoesNotExist? ==> r == Failure(lookup.error)
  {
    match lookup
    case Success(_) => Success(true)
    case Failure(e) => if e.EntityDoesNotExist? then Success(false) else Failure(e)
  }

  /** check_username_is_taken */
  function CheckUsernameIsTaken(t: Tables, username: string): (r: Result<bool, DbError>)
    ensures r == Success(UsernameTaken(t, username))
  {
    TakenFrom(GetUserByUsername(t, username))
  }

  /** check_email_is_taken */
  function CheckEmailIsTaken(t: Tables, email: string): (r: Result<bool, DbError>)
    ensures r == Success(EmailTaken(t, email))
  {
    TakenFrom(GetUserByEmail(t, email))
  }

  /** The failures create_user's three writes and its commit may meet besides the unique columns. */
  datatype Faults = Faults(
    userInsert: Option<DbError>,
    roleInsert: Option<DbError>,
    userToRole: Option<DbError>,
    commit: Option<DbError>)

  const NO_FAULTS: Faults := Faults(None, None, None, None)

  /** The row create_user inserts into `users`. */
  function CreatedUser(t: Tables, username: string, email: string, salt: string, hashedPassword: string): Authentication
  {
    Authentication(t.nextUserId, username, email, "", None, salt, hashedPassword)
  }

  /** The tables after a committed create_user: the user, then the role, then the link between them. */
  function CreatedTables(t: Tables, username: string, email: string, salt: string, hashedPassword: string, role: int): Tables
  {
    t.(users := t.users + [CreatedUser(t, username, email, salt, hashedPassword)],
       nextUserId := t.nextUserId + 1,
       roles := t.roles + [Role(t.nextRoleId, role)],
       nextRoleId := t.nextRoleId + 1,
       usersToRoles := t.usersToRoles + [(t.nextUserId, t.nextRoleId)])
  }

  /** Whether the user row goes in, so that create_user goes on to the role insert. */
  predicate UserInserted(t: Tables, username: string, email: string, faults: Faults)
  {
    !UsernameTaken(t, username) && !EmailTaken(t, email) && faults.userInsert.None?
  }

  /** The tables after a rolled-back create_user: every row as before, but the user id, and the role
      id when the role insert was reached, stay drawn. */
  function RolledBackTables(t: Tables, username: string, email: string, faults: Faults): (t': Tables)
    ensures t'.users == t.users && t'.roles == t.roles && t'.usersToRoles == t.usersToRoles && t'.followers == t.followers
    ensures t'.nextUserId == t.nextUserId + 1
    ensures t'.nextRoleId == if UserInserted(t, username, email, faults) then t.nextRoleId + 1 else t.nextRoleId
  {
    t.(nextUserId := t.nextUserId + 1,
       nextRoleId := if UserInserted(t, username, email, faults) then t.nextRoleId + 1 else t.nextRoleId)
  }

  /** Whether all three writes go in, so that create_user goes on to the commit. */
  predicate CommitReached(t: Tables, username: string, email: string, role: int, faults: Faults)
  {
    UserInserted(t, username, email, faults) && !RoleNameTaken(t, role)
    && faults.roleInsert.None? && faults.userToRole.None?
  }

  /** The error that escapes create_user: the first of the three writes that fails decides it. When
      the commit fails, the rollback in the `except` block raises before `raise e` is reached. */
  function CreateUserError(t: Tables, username: string, email: string, role: int, faults: Faults): (e: Option<DbError>)
    ensures e.None? <==>
      !UsernameTaken(t, username) && !EmailTaken(t, email) && !RoleNameTaken(t, role) && faults == NO_FAULTS
  {
    if UsernameTaken(t, username) then Some(UniqueViolation("username"))
    else if EmailTaken(t, email) then Some(UniqueViolation("email"))
    else if faults.userInsert.Some? then faults.userInsert
    else if RoleNameTaken(t, role) then Some(UniqueViolation("name"))
    else if faults.roleInsert.Some? then faults.roleInsert
    else if faults.userToRole.Some? then faults.userToRole
    else if faults.commit.Some? then Some(InterfaceError(ROLLBACK_IN_ERROR_STATE))
    else None
  }

  /** The `except` block of create_user: roll back, then re-raise the error caught, unless the
      rollback itself raises. */
  method RollbackAndReraise(conn: Connection, e: DbError) returns (r: Result<Authentication, DbError>)
    requires !conn.tx.NoTransaction?
    modifies conn
    ensures old(conn.tx).Open? ==> r == Failure(e) && conn.tx == NoTransaction
    ensures old(conn.tx).Open? ==> conn.tables == Restored(old(conn.tx).savepoint, old(conn.tables))
    ensures old(conn.tx).Failed? ==> r == Failure(InterfaceError(ROLLBACK_IN_ERROR_STATE)) && conn.tx == Failed
    ensures old(conn.tx).Failed? ==> conn.tables == old(conn.tables)
  {
    var rolledBack := conn.Rollback();
    if rolledBack.Failure? {
      return Failure(rolledBack.error);
    }
    return Failure(e);
  }

  /** create_user: inside one transaction insert the user, a role, and the link from the new user's id
      to the new role's id; commit all three, or roll back and re-raise the first failure.
      `salt` and `hash` stand for what change_password draws and computes. */
  method CreateUser(conn: Connection, username: string, email: string, password: string, role: int,
                    salt: string, hash: string -> string, faults: Faults)
    returns (r: Result<Authentication, DbError>)
    requires !conn.tx.Open?
    modifies conn
    ensures conn.tx == if CommitReached(old(conn.tables), username, email, role, faults) && faults.commit.Some?
      then Failed else NoTransaction
    ensures var err := CreateUserError(old(conn.tables), username, email, role, faults);
      && (err.Some? ==> r == Failure(err.value))
      && (err.Some? ==> conn.tables == RolledBackTables(old(conn.tables), username, email, faults))
      && (err.None? ==> r == Success(CreatedUser(old(conn.tables), username, email, salt, hash(salt + password))))
      && (err.None? ==> conn.tables == CreatedTables(old(conn.tables), username, email, salt, hash(salt + password), role))
  {
    var hashedPassword := hash(salt + password);
    conn.Start();
    var userRow := conn.InsertUser(username, email, salt, hashedPassword, faults.userInsert);
    if userRow.Failure? {
      r := RollbackAndReraise(conn, userRow.error);
      return;
    }
    var userId := userRow.value.id;
    var roleId := conn.InsertRole(role, faults.roleInsert);
    if roleId.Failure? {
      r := RollbackAndReraise(conn, roleId.error);
      return;
    }
    var linked := conn.InsertUserToRole(userId, roleId.value, faults.userToRole);
    if linked.Failure? {
      r := RollbackAndReraise(conn, linked.error);
      return;
    }
    var committed := conn.Commit(faults.commit);
    if committed.Failure? {
      r := RollbackAndReraise(conn, committed.error);
      return;
    }
    // user.copy(update=dict(user_row)): the inserted row carries every field of the record
    return Success(userRow.value);
  }

  /** A committed create_user keeps the schema's constraints. */
  lemma CreatedTablesValid(t: Tables, username: string, email: string, salt: string, hashedPassword: string, role: int)
    requires Valid(t)
    requires !UsernameTaken(t, username) && !EmailTaken(t, email) && !RoleNameTaken(t, role)
    ensures Valid(CreatedTables(t, username, email, salt, hashedPassword, role))
  {
    var t' := CreatedTables(t, username, email, salt, hashedPassword, role);
    AppendUserValid(t.users, t.nextUserId, CreatedUser(t, username, email, salt, hashedPassword));
    AppendRoleValid(t.roles, t.nextRoleId, Role(t.nextRoleId, role));
    assert UserIds(t') == UserIds(t) + {t.nextUserId};
    assert RoleIds(t') == RoleIds(t) + {t.nextRoleId};
    assert t.nextUserId !in UserIds(t);
    AppendLinkValid(t.usersToRoles, UserIds(t), RoleIds(t), UserIds(t'), RoleIds(t'), (t.nextUserId, t.nextRoleId));
  }

  /** After a committed create_user the new user is found by its username and by its email, and
      every other username looks up what it did before. */
  lemma CreatedUserIsFound(t: Tables, username: string, email: string, salt: string, hashedPassword: string, role: int, other: string)
    requires Valid(t)
    requires !UsernameTaken(t, username) && !EmailTaken(t, email) && !RoleNameTaken(t, role)
    requires other != username
    ensures var t' := CreatedTables(t, username, email, salt, hashedPassword, role);
      && GetUserByUsername(t', username) == Success(CreatedUser(t, username, email, salt, hashedPassword))
      && GetUserByEmail(t', email) == Success(CreatedUser(t, username, email, salt, hashedPassword))
      && GetUserByUsername(t', other) == GetUserByUsername(t, other)
      && CheckUsernameIsTaken(t', username) == Success(true)
      && CheckEmailIsTaken(t', email) == Success(true)
  {
    var t' := CreatedTables(t, username, email, salt, hashedPassword, role);
    CreatedTablesValid(t, username, email, salt, hashedPassword, role);
    GetUserByUsernameFindsTheRow(t', |t.users|);
    GetUserByEmailFindsTheRow(t', |t.users|);
    FindUserAppend(t.users, CreatedUser(t, username, email, salt, hashedPassword), ByUsername(other));
  }

  lemma {:induction false} FindUserAppend(users: seq<Authentication>, row: Authentication, key: UserKey)
    requires !Matches(row, key)
    ensures FindUser(users + [row], key) == FindUser(users, key)
  {
    if users == [] {
      assert FindUser([row][1..], key) == None;
    } else {
      assert (users + [row])[1..] == users[1..] + [row];
      FindUserAppend(users[1..], row, key);
    }
  }

  /** A rolled-back create_user keeps the schema's constraints: the counters only move forward. */
  lemma RolledBackTablesValid(t: Tables, username: string, email: string, faults: Faults)
    requires Valid(t)
    ensures Valid(RolledBackTables(t, username, email, faults))
  {
    var t' := RolledBackTables(t, username, email, faults);
    assert UserIds(t') == UserIds(t) && RoleIds(t') == RoleIds(t);
  }

  /** Each create_user inserts a new role row, so once a user holds a role every later create_user
      with that role whose user row goes in fails on the unique role name and rolls back. */
  lemma RoleNameTakenAfterCreate(t: Tables, username: string, email: string, salt: string, hashedPassword: string,
                                 role: int, username2: string, email2: string, faults: Faults)
    ensures var t' := CreatedTables(t, username, email, salt, hashedPassword, role);
      && RoleNameTaken(t', role)
      && (UserInserted(t', username2, email2, faults) ==>
            CreateUserError(t', username2, email2, role, faults) == Some(UniqueViolation("name")))
  {
    var t' := CreatedTables(t, username, email, salt, hashedPassword, role);
    assert t'.roles[|t.roles|].name == role;
  }

  /** The registration flow: when both checks report free and no write fails, create_user succeeds
      unless the role name is already stored. */
  lemma FreeNameAndEmailCreate(t: Tables, username: string, email: string, role: int)
    requires CheckUsernameIsTaken(t, username) == Success(false)
    requires CheckEmailIsTaken(t, email) == Success(false)
    ensures CreateUserError(t, username, email, role, NO_FAULTS) ==
      if RoleNameTaken(t, role) then Some(UniqueViolation("name")) else None
  {
  }
}
