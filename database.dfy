/**
 * The transactional store and the authorization checks that read it.
 *
 * The SQLite pool becomes `Pool`, holding the committed tables; a transaction
 * becomes a `Database` handle holding the tables as the transaction sees them,
 * pending writes included. Acquiring, committing and rolling back may fail: each
 * failure is given as an `Option<SqlError>` the environment chooses.
 */
module Database {
  import opened Wrappers
  import opened Text
  import Auth

  /** A failure reported by the database engine. */
  datatype SqlError = SqlError(message: string)

  /** A row of `RegistryUser`, keyed by its id. */
  datatype UserRow = UserRow(isActive: bool, email: string, roles: string)

  /** A row of `RegistryGlobalToken`; `token` is the stored hash of the secret. */
  datatype GlobalTokenRow = GlobalTokenRow(id: int, name: string, token: string, lastUsed: Auth.Timestamp)

  /**
   * The tables the core reads and writes. `globalTokens` is kept in id order, as a
   * rowid table is; `nextTokenId` is the id the engine gives the next inserted token.
   */
  datatype Tables = Tables(
    users: map<int, UserRow>,
    packageVersions: set<(string, string)>,
    packageOwners: set<(string, int)>,
    globalTokens: seq<GlobalTokenRow>,
    nextTokenId: int)

  /** Token ids are positive, strictly increasing, and below the next id to be given, itself positive. */
  predicate TablesValid(t: Tables) {
    && t.nextTokenId > 0
    && IdsAscending(t.globalTokens)
    && (forall i :: 0 <= i < |t.globalTokens| ==> 0 < t.globalTokens[i].id < t.nextTokenId)
  }

  /** Token rows in strictly increasing id order. */
  predicate IdsAscending(rows: seq<GlobalTokenRow>) {
    forall i, j :: 0 <= i < j < |rows| ==> rows[i].id < rows[j].id
  }

  datatype Lease = ReadLease | WriteLease(operation: string)

  /** What the store has been asked to do, in order. */
  datatype StoreAction = Acquired(lease: Lease) | Committed | RolledBack

  /** `DbReadError`: `E` is the workload's own error type. */
  datatype DbReadError<E> =
    | AcquireRead(source: SqlError)
    | Workload(cause: E)
    | Commit(source: SqlError)
    | Rollback(source: SqlError, error: string)

  /** `DbWriteError`: as `DbReadError`, each variant also naming the operation. */
  datatype DbWriteError<E> =
    | AcquireWrite(source: SqlError, operation: string)
    | Workload(cause: E, operation: string)
    | Commit(source: SqlError, operation: string)
    | Rollback(source: SqlError, operation: string, error: string)

  /** The failures of the authorization checks. */
  datatype AuthenticationError = Unauthorized | Forbidden | AdministrationIsForbidden

  datatype CratesError = PackageVersionNotFound(package: string, version: string)

  datatype IsCrateManagerError = NotOwnerOfPackage

  /** The pool: the committed state, and the record of acquisitions, commits and rollbacks. */
  class Pool {
    var committed: Tables
    ghost var actions: seq<StoreAction>

    constructor (initial: Tables)
      requires TablesValid(initial)
      ensures committed == initial && actions == []
    {
      committed := initial;
      actions := [];
    }

    /** The acquisition step of `db_transaction_read`: no handle, hence no workload, when it fails. */
    method BeginRead<E>(fault: Option<SqlError>) returns (r: Result<Database, DbReadError<E>>)
      requires TablesValid(committed)
      modifies this`actions
      ensures fault.Some? ==> r == Err(DbReadError.AcquireRead(fault.value)) && actions == old(actions)
      ensures fault.None? ==> r.Ok? && fresh(r.value) && r.value.open && r.value.lease == ReadLease
                              && r.value.tables == committed && r.value.base == committed
                              && actions == old(actions) + [Acquired(ReadLease)]
    {
      if fault.Some? {
        return Err(DbReadError.AcquireRead(fault.value));
      }
      var db := new Database(committed, ReadLease);
      actions := actions + [Acquired(ReadLease)];
      return Ok(db);
    }

    /** The acquisition step of `db_transaction_write`, tagged with the operation's name. */
    method BeginWrite<E>(operation: string, fault: Option<SqlError>) returns (r: Result<Database, DbWriteError<E>>)
      requires TablesValid(committed)
      modifies this`actions
      ensures fault.Some? ==> r == Err(DbWriteError.AcquireWrite(fault.value, operation)) && actions == old(actions)
      ensures fault.None? ==> r.Ok? && fresh(r.value) && r.value.open && r.value.lease == WriteLease(operation)
                              && r.value.tables == committed && r.value.base == committed
                              && actions == old(actions) + [Acquired(WriteLease(operation))]
    {
      if fault.Some? {
        return Err(DbWriteError.AcquireWrite(fault.value, operation));
      }
      var db := new Database(committed, WriteLease(operation));
      actions := actions + [Acquired(WriteLease(operation))];
      return Ok(db);
    }

    /**
     * The closing step of `db_transaction_read`: a successful workload is committed, a
     * failed one rolled back; either way a read transaction publishes nothing.
     * `describe` is the workload error's `to_string`.
     */
    method EndRead<T, E>(db: Database, result: Result<T, E>, describe: E -> string,
                         commitFault: Option<SqlError>, rollbackFault: Option<SqlError>)
      returns (r: Result<T, DbReadError<E>>)
      requires db.open && db.lease == ReadLease
      modifies this`actions, db`open
      ensures !db.open && committed == old(committed)
      ensures actions == old(actions) + [if result.Ok? then Committed else RolledBack]
      ensures result.Ok? && commitFault.None? ==> r == Ok(result.value)
      ensures result.Ok? && commitFault.Some? ==> r == Err(DbReadError.Commit(commitFault.value))
      ensures result.Err? && rollbackFault.None? ==> r == Err(DbReadError.Workload(result.error))
      ensures result.Err? && rollbackFault.Some?
        ==> r == Err(DbReadError.Rollback(rollbackFault.value, describe(result.error)))
    {
      db.open := false;
      match result
      case Ok(value) =>
        actions := actions + [Committed];
        if commitFault.Some? {
          return Err(DbReadError.Commit(commitFault.value));
        }
        return Ok(value);
      case Err(error) =>
        actions := actions + [RolledBack];
        if rollbackFault.Some? {
          return Err(DbReadError.Rollback(rollbackFault.value, describe(error)));
        }
        return Err(DbReadError.Workload(error));
    }

    /**
     * The closing step of `db_transaction_write`; every error names the operation. The
     * single write lease means nothing else committed since the handle was opened.
     */
    method EndWrite<T, E>(db: Database, operation: string, result: Result<T, E>, describe: E -> string,
                          commitFault: Option<SqlError>, rollbackFault: Option<SqlError>)
      returns (r: Result<T, DbWriteError<E>>)
      requires db.open && db.lease == WriteLease(operation) && committed == db.base
      requires TablesValid(committed) && TablesValid(db.tables)
      modifies this, db`open
      ensures !db.open && TablesValid(committed)
      ensures actions == old(actions) + [if result.Ok? then Committed else RolledBack]
      ensures r.Err? ==> r.error.operation == operation && committed == old(committed)
      ensures result.Ok? && commitFault.None? ==> r == Ok(result.value) && committed == db.tables
      ensures result.Ok? && commitFault.Some? ==> r == Err(DbWriteError.Commit(commitFault.value, operation))
      ensures result.Err? && rollbackFault.None? ==> r == Err(DbWriteError.Workload(result.error, operation))
      ensures result.Err? && rollbackFault.Some?
        ==> r == Err(DbWriteError.Rollback(rollbackFault.value, operation, describe(result.error)))
    {
      db.open := false;
      match result
      case Ok(value) =>
        actions := actions + [Committed];
        if commitFault.Some? {
          return Err(DbWriteError.Commit(commitFault.value, operation));
        }
        committed := db.tables;
        return Ok(value);
      case Err(error) =>
        actions := actions + [RolledBack];
        if rollbackFault.Some? {
          return Err(DbWriteError.Rollback(rollbackFault.value, operation, describe(error)));
        }
        return Err(DbWriteError.Workload(error, operation));
    }
  }

  /** Whether some comma-separated, trimmed role is exactly `role`. */
  function AnyRoleIs(roles: seq<string>, role: string): (r: bool)
    ensures r <==> exists i :: 0 <= i < |roles| && Trim(roles[i]) == role
  {
    if roles == [] then false
    else if Trim(roles[0]) == role then true
    else
      var rest := AnyRoleIs(roles[1..], role);
      assert forall i :: 1 <= i < |roles| ==> roles[i] == roles[1..][i - 1];
      rest
  }

  /** The roles column grants administration when one of its comma-separated entries, trimmed, is `admin`. */
  function HasAdminRole(roles: string): bool {
    AnyRoleIs(Split(roles, ','), Auth.RoleAdmin)
  }

  /** Leading white space is dropped up to the first other character. */
  lemma {:induction false} TrimStartPadded(padding: string, word: string)
    requires forall i :: 0 <= i < |padding| ==> IsWhitespace(padding[i])
    requires |word| > 0 && !IsWhitespace(word[0])
    ensures TrimStart(padding + word) == word
  {
    if padding != [] {
      assert (padding + word)[1..] == padding[1..] + word;
      TrimStartPadded(padding[1..], word);
    }
  }

  /** Trailing white space is dropped back to the last other character. */
  lemma {:induction false} TrimEndPadded(word: string, padding: string)
    requires forall i :: 0 <= i < |padding| ==> IsWhitespace(padding[i])
    requires |word| > 0 && !IsWhitespace(word[|word| - 1])
    ensures TrimEnd(word + padding) == word
  {
    if padding == [] {
      assert word + padding == word;
    } else {
      var s := word + padding;
      assert s[|s| - 1] == padding[|padding| - 1];
      assert s[..|s| - 1] == word + padding[..|padding| - 1];
      TrimEndPadded(word, padding[..|padding| - 1]);
    }
  }

  /** `admin` padded with white space on either side trims to `admin`. */
  lemma TrimmedAdmin(before: string, after: string)
    requires forall i :: 0 <= i < |before| ==> IsWhitespace(before[i])
    requires forall i :: 0 <= i < |after| ==> IsWhitespace(after[i])
    ensures Trim(before + Auth.RoleAdmin + after) == Auth.RoleAdmin
  {
    TrimStartPadded(before, Auth.RoleAdmin + after);
    assert before + (Auth.RoleAdmin + after) == before + Auth.RoleAdmin + after;
    TrimEndPadded(Auth.RoleAdmin, after);
  }

  /** Roles are a comma-separated list: `admin` as any entry, padded with white space or not, grants administration. */
  lemma AdminAmongRoles(pre: seq<string>, before: string, after: string, post: seq<string>)
    requires forall i :: 0 <= i < |pre| ==> ',' !in pre[i]
    requires forall i :: 0 <= i < |post| ==> ',' !in post[i]
    requires ',' !in before && forall i :: 0 <= i < |before| ==> IsWhitespace(before[i])
    requires ',' !in after && forall i :: 0 <= i < |after| ==> IsWhitespace(after[i])
    ensures HasAdminRole(Join(pre + [before + Auth.RoleAdmin + after] + post, ','))
  {
    TrimmedAdmin(before, after);
    NoCommaInEntry(before, after);
    RolesWithAdminEntry(pre, before + Auth.RoleAdmin + after, post);
  }

  /** An entry that trims to `admin`, anywhere among comma-free roles, grants administration. */
  lemma RolesWithAdminEntry(pre: seq<string>, entry: string, post: seq<string>)
    requires forall i :: 0 <= i < |pre| ==> ',' !in pre[i]
    requires forall i :: 0 <= i < |post| ==> ',' !in post[i]
    requires ',' !in entry && Trim(entry) == Auth.RoleAdmin
    ensures HasAdminRole(Join(pre + [entry] + post, ','))
  {
    var all := pre + [entry] + post;
    CommaFreeAround(pre, entry, post);
    assert all[|pre|] == entry;
    JoinedRoles(all);
  }

  lemma CommaFreeAround(pre: seq<string>, entry: string, post: seq<string>)
    requires forall i :: 0 <= i < |pre| ==> ',' !in pre[i]
    requires forall i :: 0 <= i < |post| ==> ',' !in post[i]
    requires ',' !in entry
    ensures forall i :: 0 <= i < |pre + [entry] + post| ==> ',' !in (pre + [entry] + post)[i]
  {
    var all := pre + [entry] + post;
    forall i | 0 <= i < |all|
      ensures ',' !in all[i]
    {
      if i < |pre| {
        assert all[i] == pre[i];
      } else if i == |pre| {
        assert all[i] == entry;
      } else {
        assert all[i] == post[i - |pre| - 1];
      }
    }
  }

  /** Joining comma-free entries and parsing the result back finds the same roles. */
  lemma JoinedRoles(entries: seq<string>)
    requires forall i :: 0 <= i < |entries| ==> ',' !in entries[i]
    requires exists i :: 0 <= i < |entries| && Trim(entries[i]) == Auth.RoleAdmin
    ensures HasAdminRole(Join(entries, ','))
  {
    SplitJoin(entries, ',');
    assert AnyRoleIs(entries, Auth.RoleAdmin);
  }

  lemma NoCommaInEntry(before: string, after: string)
    requires ',' !in before && ',' !in after
    ensures ',' !in before + Auth.RoleAdmin + after
  {
    assert Auth.RoleAdmin == ['a', 'd', 'm', 'i', 'n'];
  }

  /** A transaction handle: the tables as this transaction sees them, its lease, and whether it is still open. */
  class Database {
    var tables: Tables
    var lease: Lease
    var open: bool
    /** The committed tables the transaction started from. */
    ghost const base: Tables

    constructor (tables: Tables, lease: Lease)
      requires TablesValid(tables)
      ensures this.tables == tables && this.lease == lease && open && base == tables
    {
      this.tables := tables;
      base := tables;
      this.lease := lease;
      open := true;
    }

    /** `check_is_user`: the id of an active user with this email, else `Unauthorized`. */
    method CheckIsUser(email: string) returns (r: Result<int, AuthenticationError>)
      requires open
      ensures r.Ok? ==> r.value in tables.users && tables.users[r.value].isActive
                        && tables.users[r.value].email == email
      ensures r.Err? <==> !exists uid :: uid in tables.users && tables.users[uid].isActive
                                         && tables.users[uid].email == email
      ensures r.Err? ==> r.error == Unauthorized
    {
      if exists uid :: uid in tables.users && tables.users[uid].isActive && tables.users[uid].email == email {
        var uid :| uid in tables.users && tables.users[uid].isActive && tables.users[uid].email == email;
        return Ok(uid);
      }
      return Err(Unauthorized);
    }

    /** `get_is_admin`: whether the user's roles hold `admin`; an unknown user is `Forbidden`. */
    method GetIsAdmin(uid: int) returns (r: Result<bool, AuthenticationError>)
      requires open
      ensures uid !in tables.users ==> r == Err(Forbidden)
      ensures uid in tables.users ==> r == Ok(HasAdminRole(tables.users[uid].roles))
    {
      if uid !in tables.users {
        return Err(Forbidden);
      }
      return Ok(HasAdminRole(tables.users[uid].roles));
    }

    /** `check_is_admin`: `get_is_admin`, with `false` turned into `AdministrationIsForbidden`. */
    method CheckIsAdmin(uid: int) returns (r: Result<(), AuthenticationError>)
      requires open
      ensures r.Ok? <==> uid in tables.users && HasAdminRole(tables.users[uid].roles)
      ensures uid !in tables.users ==> r == Err(Forbidden)
      ensures uid in tables.users && !HasAdminRole(tables.users[uid].roles) ==> r == Err(AdministrationIsForbidden)
    {
      var isAdmin := GetIsAdmin(uid);
      match isAdmin
      case Err(e) => return Err(e);
      case Ok(true) => return Ok(());
      case Ok(false) => return Err(AdministrationIsForbidden);
    }

    /** `check_crate_exists`: fails exactly when no row holds this package and version. */
    method CheckCrateExists(package: string, version: string) returns (r: Result<(), CratesError>)
      requires open
      ensures r.Ok? <==> (package, version) in tables.packageVersions
      ensures r.Err? ==> r.error == PackageVersionNotFound(package, version)
    {
      if (package, version) !in tables.packageVersions {
        return Err(PackageVersionNotFound(package, version));
      }
      return Ok(());
    }

    /**
     * `check_is_crate_manager`: administrators pass without an ownership lookup; anyone
     * else, an unknown user included, needs an owner row for the package.
     */
    method CheckIsCrateManager(uid: int, package: string) returns (r: Result<int, IsCrateManagerError>)
      requires open
      ensures r.Ok? ==> r.value == uid
      ensures r.Ok? <==> (uid in tables.users && HasAdminRole(tables.users[uid].roles))
                         || (package, uid) in tables.packageOwners
      ensures r.Err? ==> r.error == NotOwnerOfPackage
    {
      var admin := CheckIsAdmin(uid);
      if admin.Ok? {
        return Ok(uid);
      }
      if (package, uid) in tables.packageOwners {
        return Ok(uid);
      }
      return Err(NotOwnerOfPackage);
    }
  }
}
