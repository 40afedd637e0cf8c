/** The database as the repositories see it: the tables they read and write, and a connection
    whose transaction either keeps every write or none. */
module Store {
  import opened Wrappers

  /** A row of `users`, which the repositories hand out as an Authentication record. */
  datatype Authentication = Authentication(
    id: int,
    username: string,
    email: string,
    bio: string,
    image: Option<string>,
    salt: string,
    hashedPassword: string)

  /** A row of `roles`; a role's name is an integer code. */
  datatype Role = Role(id: int, name: int)

  /** The errors a repository call can end with. */
  datatype DbError =
    | EntityDoesNotExist(message: string)
    | UniqueViolation(column: string)
    | StorageFailure(reason: string)
    | InterfaceError(message: string)

  /** What asyncpg's Transaction raises when asked to roll back after its COMMIT has failed. */
  const ROLLBACK_IN_ERROR_STATE: string := "cannot rollback; the transaction is in error state"

  /** The tables the core reads and writes. Rows are kept in insertion order; `followers` holds
      (follower username, following username) pairs. */
  datatype Tables = Tables(
    users: seq<Authentication>,
    roles: seq<Role>,
    usersToRoles: seq<(int, int)>,
    followers: set<(string, string)>,
    nextUserId: int,
    nextRoleId: int)

  function UserIds(t: Tables): set<int>
  {
    set u | u in t.users :: u.id
  }

  function RoleIds(t: Tables): set<int>
  {
    set r | r in t.roles :: r.id
  }

  /** User ids, usernames and emails are unique, and every id is below the next one the serial
      hands out. */
  predicate UsersValid(users: seq<Authentication>, nextUserId: int)
  {
    && (forall i, j :: 0 <= i < j < |users| ==>
          users[i].id != users[j].id && users[i].username != users[j].username && users[i].email != users[j].email)
    && (forall i :: 0 <= i < |users| ==> users[i].id < nextUserId)
  }

  /** Role ids and names are unique, and every id is below the next one the serial hands out. */
  predicate RolesValid(roles: seq<Role>, nextRoleId: int)
  {
    && (forall i, j :: 0 <= i < j < |roles| ==> roles[i].id != roles[j].id && roles[i].name != roles[j].name)
    && (forall i :: 0 <= i < |roles| ==> roles[i].id < nextRoleId)
  }

  /** Every link points at an existing user and role, and no pair occurs twice (the composite primary
      key of `users_to_roles`). */
  predicate LinksValid(links: seq<(int, int)>, userIds: set<int>, roleIds: set<int>)
  {
    && (forall k :: 0 <= k < |links| ==> links[k].0 in userIds && links[k].1 in roleIds)
    && (forall k, l :: 0 <= k < l < |links| ==> links[k] != links[l])
  }

  /** The constraints the schema declares on the three tables. */
  predicate Valid(t: Tables)
  {
    UsersValid(t.users, t.nextUserId) && RolesValid(t.roles, t.nextRoleId)
    && LinksValid(t.usersToRoles, UserIds(t), RoleIds(t))
  }

  /** A new user under the next serial id, with a free username and email, keeps the users valid. */
  lemma AppendUserValid(users: seq<Authentication>, nextUserId: int, u: Authentication)
    requires UsersValid(users, nextUserId) && u.id == nextUserId
    requires forall i :: 0 <= i < |users| ==> users[i].username != u.username && users[i].email != u.email
    ensures UsersValid(users + [u], nextUserId + 1)
  {
    assert forall i :: 0 <= i < |users| ==> (users + [u])[i] == users[i];
  }

  /** A new role under the next serial id, with a free name, keeps the roles valid. */
  lemma AppendRoleValid(roles: seq<Role>, nextRoleId: int, r: Role)
    requires RolesValid(roles, nextRoleId) && r.id == nextRoleId
    requires forall i :: 0 <= i < |roles| ==> roles[i].name != r.name
    ensures RolesValid(roles + [r], nextRoleId + 1)
  {
    assert forall i :: 0 <= i < |roles| ==> (roles + [r])[i] == roles[i];
  }

  /** A new pair between existing rows keeps the links valid as the tables grow. */
  lemma AppendLinkValid(links: seq<(int, int)>, userIds: set<int>, roleIds: set<int>,
                        userIds': set<int>, roleIds': set<int>, link: (int, int))
    requires LinksValid(links, userIds, roleIds) && userIds <= userIds' && roleIds <= roleIds'
    requires link.0 in userIds' && link.1 in roleIds' && link !in links
    ensures LinksValid(links + [link], userIds', roleIds')
  {
    assert forall k :: 0 <= k < |links| ==> (links + [link])[k] == links[k];
  }

  predicate UsernameTaken(t: Tables, username: string)
  {
    exists i :: 0 <= i < |t.users| && t.users[i].username == username
  }

  predicate EmailTaken(t: Tables, email: string)
  {
    exists i :: 0 <= i < |t.users| && t.users[i].email == email
  }

  predicate RoleNameTaken(t: Tables, name: int)
  {
    exists i :: 0 <= i < |t.roles| && t.roles[i].name == name
  }

  /** The column a user lookup matches on, and the value it looks for. */
  datatype UserKey = ByUsername(username: string) | ByEmail(email: string)

  predicate Matches(u: Authentication, key: UserKey)
  {
    match key
    case ByUsername(name) => u.username == name
    case ByEmail(email) => u.email == email
  }

  /** The first user row that matches the key. */
  function FindUser(users: seq<Authentication>, key: UserKey): (r: Option<Authentication>)
    ensures r.Some? ==> r.value in users && Matches(r.value, key)
    ensures r.None? <==> forall i :: 0 <= i < |users| ==> !Matches(users[i], key)
  {
    if users == [] then None
    else if Matches(users[0], key) then Some(users[0])
    else
      var r := FindUser(users[1..], key);
      assert forall i :: 1 <= i < |users| ==> users[i] == users[1..][i - 1];
      r
  }

  /** The rows saved at a transaction's start with the serial counters as they are now: what
      aborting the transaction leaves. */
  function Restored(saved: Tables, current: Tables): (t: Tables)
    ensures t.users == saved.users && t.roles == saved.roles && t.usersToRoles == saved.usersToRoles
    ensures t.followers == saved.followers
    ensures t.nextUserId == current.nextUserId && t.nextRoleId == current.nextRoleId
  {
    saved.(nextUserId := current.nextUserId, nextRoleId := current.nextRoleId)
  }

  /** The state of the connection's transaction object: none started, open over the tables saved at
      its start, or failed because its COMMIT raised. A failed object refuses a rollback, though the
      server has already aborted the transaction and the connection can start a new one. */
  datatype TxState = NoTransaction | Open(savepoint: Tables) | Failed

  /** The database behind one asyncpg connection, with at most one open transaction. The serial
      counters are sequences, which no transaction covers: an id an INSERT draws stays drawn whether
      the row goes in, the statement fails or the transaction is rolled back. */
  class Connection {
    var tables: Tables
    var tx: TxState

    constructor (t: Tables)
      ensures tables == t && tx == NoTransaction
    {
      tables := t;
      tx := NoTransaction;
    }

    /** tx.start() on a new transaction object. */
    method Start()
      requires !tx.Open?
      modifies this
      ensures tables == old(tables) && tx == Open(tables)
    {
      tx := Open(tables);
    }

    /** tx.commit(): keep every write made since Start. `fault` is a failure of the COMMIT itself; the
        server then aborts the transaction and the transaction object is left failed. */
    method Commit(fault: Option<DbError>) returns (r: Result<(), DbError>)
      requires tx.Open?
      modifies this
      ensures r.Failure? <==> fault.Some?
      ensures r.Success? ==> tables == old(tables) && tx == NoTransaction
      ensures r.Failure? ==> r.error == fault.value && tx == Failed
      ensures r.Failure? ==> tables == Restored(old(tx).savepoint, old(tables))
    {
      if fault.Some? {
        tables := Restored(tx.savepoint, tables);
        tx := Failed;
        return Failure(fault.value);
      }
      tx := NoTransaction;
      return Success(());
    }

    /** tx.rollback(): drop every row written since Start, the serial counters keeping their values.
        After a failed COMMIT it raises instead and changes nothing. */
    method Rollback() returns (r: Result<(), DbError>)
      requires !tx.NoTransaction?
      modifies this
      ensures old(tx).Open? ==> r.Success? && tables == Restored(old(tx).savepoint, old(tables)) && tx == NoTransaction
      ensures old(tx).Failed? ==> r == Failure(InterfaceError(ROLLBACK_IN_ERROR_STATE)) && tables == old(tables) && tx == Failed
    {
      if tx.Failed? {
        return Failure(InterfaceError(ROLLBACK_IN_ERROR_STATE));
      }
      tables := Restored(tx.savepoint, tables);
      tx := NoTransaction;
      return Success(());
    }

    /** create_new_user: insert a user row under the next serial id. The unique username and email
        columns refuse a duplicate; `fault` is any other failure the statement may meet. The id is
        drawn either way. */
    method InsertUser(username: string, email: string, salt: string, hashedPassword: string, fault: Option<DbError>)
      returns (r: Result<Authentication, DbError>)
      modifies this
      ensures tx == old(tx)
      ensures r.Failure? ==> tables == old(tables).(nextUserId := old(tables).nextUserId + 1)
      ensures r.Failure? <==> UsernameTaken(old(tables), username) || EmailTaken(old(tables), email) || fault.Some?
      ensures r.Failure? && UsernameTaken(old(tables), username) ==> r.error == UniqueViolation("username")
      ensures r.Failure? && !UsernameTaken(old(tables), username) && EmailTaken(old(tables), email) ==>
        r.error == UniqueViolation("email")
      ensures r.Failure? && !UsernameTaken(old(tables), username) && !EmailTaken(old(tables), email) ==>
        r.error == fault.value
      ensures r.Success? ==> r.value == Authentication(old(tables).nextUserId, username, email, "", None, salt, hashedPassword)
      ensures r.Success? ==> tables == old(tables).(users := old(tables).users + [r.value], nextUserId := old(tables).nextUserId + 1)
    {
      var row := Authentication(tables.nextUserId, username, email, "", None, salt, hashedPassword);
      var drawn := tables.(nextUserId := tables.nextUserId + 1);
      if UsernameTaken(tables, username) {
        tables := drawn;
        return Failure(UniqueViolation("username"));
      }
      if EmailTaken(tables, email) {
        tables := drawn;
        return Failure(UniqueViolation("email"));
      }
      if fault.Some? {
        tables := drawn;
        return Failure(fault.value);
      }
      tables := drawn.(users := tables.users + [row]);
      return Success(row);
    }

    /** create_new_role: insert a role row under the next serial id and return that id. The unique
        name column refuses a duplicate; `fault` is any other failure. The id is drawn either way. */
    method InsertRole(name: int, fault: Option<DbError>) returns (r: Result<int, DbError>)
      modifies this
      ensures tx == old(tx)
      ensures r.Failure? <==> RoleNameTaken(old(tables), name) || fault.Some?
      ensures r.Failure? ==> tables == old(tables).(nextRoleId := old(tables).nextRoleId + 1)
      ensures r.Failure? && RoleNameTaken(old(tables), name) ==> r.error == UniqueViolation("name")
      ensures r.Failure? && !RoleNameTaken(old(tables), name) ==> r.error == fault.value
      ensures r.Success? ==> r.value == old(tables).nextRoleId
      ensures r.Success? ==> tables == old(tables).(roles := old(tables).roles + [Role(r.value, name)], nextRoleId := r.value + 1)
    {
      var id := tables.nextRoleId;
      var drawn := tables.(nextRoleId := id + 1);
      if RoleNameTaken(tables, name) {
        tables := drawn;
        return Failure(UniqueViolation("name"));
      }
      if fault.Some? {
        tables := drawn;
        return Failure(fault.value);
      }
      tables := drawn.(roles := tables.roles + [Role(id, name)]);
      return Success(id);
    }

    /** create_new_user_to_role: link a user to a role. */
    method InsertUserToRole(userId: int, roleId: int, fault: Option<DbError>) returns (r: Result<(), DbError>)
      modifies this
      ensures tx == old(tx)
      ensures r.Failure? <==> fault.Some?
      ensures r.Failure? ==> tables == old(tables) && r.error == fault.value
      ensures r.Success? ==> tables == old(tables).(usersToRoles := old(tables).usersToRoles + [(userId, roleId)])
    {
      if fault.Some? {
        return Failure(fault.value);
      }
      tables := tables.(usersToRoles := tables.usersToRoles + [(userId, roleId)]);
      return Success(());
    }
  }
}
