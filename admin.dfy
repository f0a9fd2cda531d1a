/**
 * Administration of the registry itself: the global tokens, usually handed to CI,
 * kept in the `RegistryGlobalToken` table.
 */
module Admin {
  import opened Wrappers
  import Auth
  import opened Database

  /** `TokensError`: a database failure, or a name another global token already has. */
  datatype TokensError = Sqlx(source: SqlError) | TokenNameExist

  /** The error's `to_string`; a database failure shows the engine's own message. */
  function DescribeTokensError(e: TokensError): string {
    match e
    case Sqlx(source) => source.message
    case TokenNameExist => "a token with the same name already exists"
  }

  /** Whether some global token is called `name`. */
  predicate NameTaken(rows: seq<GlobalTokenRow>, name: string) {
    exists i :: 0 <= i < |rows| && rows[i].name == name
  }

  /** No two global tokens share a name. */
  predicate UniqueNames(rows: seq<GlobalTokenRow>) {
    forall i, j :: 0 <= i < j < |rows| ==> rows[i].name != rows[j].name
  }

  /** The token rows as the API lists them: secrets withheld, and no write or admin capability. */
  function ListedTokens(rows: seq<GlobalTokenRow>): (r: seq<Auth.RegistryUserToken>)
    ensures |r| == |rows|
    ensures forall i :: 0 <= i < |rows| ==>
      r[i] == Auth.RegistryUserToken(rows[i].id, rows[i].name, rows[i].lastUsed, false, false)
  {
    seq(|rows|, i requires 0 <= i < |rows| =>
      Auth.RegistryUserToken(rows[i].id, rows[i].name, rows[i].lastUsed, false, false))
  }

  /** `get_global_tokens`: every global token, in id order, none of them able to write or administer. */
  method GetGlobalTokens(db: Database) returns (r: seq<Auth.RegistryUserToken>)
    requires db.open && TablesValid(db.tables)
    ensures |r| == |db.tables.globalTokens|
    ensures forall i :: 0 <= i < |r| ==>
      && r[i].id == db.tables.globalTokens[i].id
      && r[i].name == db.tables.globalTokens[i].name
      && r[i].lastUsed == db.tables.globalTokens[i].lastUsed
      && !r[i].canWrite && !r[i].canAdmin
    ensures forall i, j :: 0 <= i < j < |r| ==> r[i].id < r[j].id
  {
    r := ListedTokens(db.tables.globalTokens);
  }

  /**
   * `create_global_token`: refuses a name already in use and leaves the table as it was;
   * otherwise stores the hash of `secret` under the next id, stamped `now`, and hands the
   * secret back once. `secret` stands for the freshly generated 64-character token,
   * `hashToken` for the hash the registry stores.
   */
  method CreateGlobalToken(db: Database, name: string, secret: string,
                           hashToken: string -> string, now: Auth.Timestamp)
    returns (r: Result<Auth.RegistryUserTokenWithSecret, TokensError>)
    requires db.open && db.lease.WriteLease? && TablesValid(db.tables)
    modifies db`tables
    ensures r.Err? <==> NameTaken(old(db.tables.globalTokens), name)
    ensures r.Err? ==> r.error == TokenNameExist && db.tables == old(db.tables)
    ensures r.Ok? ==> r.value == Auth.RegistryUserTokenWithSecret(old(db.tables.nextTokenId), name, secret, now, false, false)
    ensures r.Ok? ==> db.tables == old(db.tables).(
      globalTokens := old(db.tables.globalTokens) + [GlobalTokenRow(old(db.tables.nextTokenId), name, hashToken(secret), now)],
      nextTokenId := old(db.tables.nextTokenId) + 1)
    ensures TablesValid(db.tables)
    ensures UniqueNames(old(db.tables.globalTokens)) ==> UniqueNames(db.tables.globalTokens)
  {
    var rows := db.tables.globalTokens;
    if NameTaken(rows, name) {
      return Err(TokenNameExist);
    }
    var id := db.tables.nextTokenId;
    var row := GlobalTokenRow(id, name, hashToken(secret), now);
    db.tables := db.tables.(globalTokens := rows + [row], nextTokenId := id + 1);
    return Ok(Auth.RegistryUserTokenWithSecret(id, name, secret, now, false, false));
  }

  /** The rows left once the token with this id is deleted, in their original order. */
  function WithoutId(rows: seq<GlobalTokenRow>, id: int): (r: seq<GlobalTokenRow>)
    ensures forall row :: row in r <==> row in rows && row.id != id
    ensures (forall i :: 0 <= i < |rows| ==> rows[i].id != id) ==> r == rows
    ensures |r| <= |rows|
  {
    if rows == [] then []
    else
      var rest := WithoutId(rows[1..], id);
      assert forall row :: row in rows <==> row == rows[0] || row in rows[1..];
      if rows[0].id == id then rest else [rows[0]] + rest
  }

  /** `revoke_global_token`: deletes the token with this id; revoking an unknown id changes nothing. */
  method RevokeGlobalToken(db: Database, id: int)
    requires db.open && db.lease.WriteLease? && TablesValid(db.tables)
    modifies db`tables
    ensures db.tables == old(db.tables).(globalTokens := WithoutId(old(db.tables.globalTokens), id))
    ensures TablesValid(db.tables)
  {
    RevokeKeepsValid(db.tables, id);
    db.tables := db.tables.(globalTokens := WithoutId(db.tables.globalTokens, id));
  }

  /** Deleting a row keeps the ids ascending and below the next id. */
  lemma RevokeKeepsValid(t: Tables, id: int)
    requires TablesValid(t)
    ensures TablesValid(t.(globalTokens := WithoutId(t.globalTokens, id)))
  {
    WithoutIdAscending(t.globalTokens, id);
    var r := WithoutId(t.globalTokens, id);
    forall i | 0 <= i < |r|
      ensures 0 < r[i].id < t.nextTokenId
    {
      assert r[i] in t.globalTokens;
    }
  }

  /** Ascending ids stay ascending once a row is deleted. */
  lemma {:induction false} WithoutIdAscending(rows: seq<GlobalTokenRow>, id: int)
    requires IdsAscending(rows)
    ensures IdsAscending(WithoutId(rows, id))
  {
    if rows != [] {
      var tail := rows[1..];
      assert forall i :: 0 <= i < |tail| ==> tail[i] == rows[i + 1];
      WithoutIdAscending(tail, id);
      if rows[0].id != id {
        WithoutIdAbove(tail, id, rows[0].id);
        AscendingCons(rows[0], WithoutId(tail, id));
      }
    }
  }

  /** Deleting rows cannot bring in an id below those already there. */
  lemma WithoutIdAbove(rows: seq<GlobalTokenRow>, id: int, low: int)
    requires forall k :: 0 <= k < |rows| ==> low < rows[k].id
    ensures forall k :: 0 <= k < |WithoutId(rows, id)| ==> low < WithoutId(rows, id)[k].id
  {
    var r := WithoutId(rows, id);
    forall k | 0 <= k < |r|
      ensures low < r[k].id
    {
      assert r[k] in rows;
    }
  }

  lemma AscendingCons(first: GlobalTokenRow, rest: seq<GlobalTokenRow>)
    requires IdsAscending(rest)
    requires forall k :: 0 <= k < |rest| ==> first.id < rest[k].id
    ensures IdsAscending([first] + rest)
  {
    var r := [first] + rest;
    forall i, j | 0 <= i < j < |r|
      ensures r[i].id < r[j].id
    {
      assert r[j] == rest[j - 1];
      if i > 0 {
        assert r[i] == rest[i - 1];
      }
    }
  }

  /** Revoking a token just created takes the rows back to what they were before. */
  lemma {:induction false} RevokeUndoesCreate(rows: seq<GlobalTokenRow>, row: GlobalTokenRow)
    requires forall i :: 0 <= i < |rows| ==> rows[i].id < row.id
    ensures WithoutId(rows + [row], row.id) == rows
  {
    if rows == [] {
      assert WithoutId([row], row.id) == WithoutId([], row.id);
    } else {
      assert (rows + [row])[1..] == rows[1..] + [row];
      RevokeUndoesCreate(rows[1..], row);
    }
  }

  /**
   * `create_global_token` run in a write transaction: the created token is visible in
   * the committed tables only when the acquisition, the workload and the commit all
   * succeed; a taken name is rolled back and leaves the committed tables unchanged.
   */
  method CreateGlobalTokenInTransaction(pool: Pool, operation: string, name: string, secret: string,
                                        hashToken: string -> string, now: Auth.Timestamp,
                                        acquireFault: Option<SqlError>, commitFault: Option<SqlError>,
                                        rollbackFault: Option<SqlError>)
    returns (r: Result<Auth.RegistryUserTokenWithSecret, DbWriteError<TokensError>>)
    requires TablesValid(pool.committed)
    modifies pool
    ensures TablesValid(pool.committed)
    ensures r.Err? ==> pool.committed == old(pool.committed)
    ensures acquireFault.Some? ==> r == Err(DbWriteError.AcquireWrite(acquireFault.value, operation))
    ensures acquireFault.None? && NameTaken(old(pool.committed.globalTokens), name) && rollbackFault.None?
      ==> r == Err(DbWriteError.Workload(TokenNameExist, operation))
    ensures acquireFault.None? && NameTaken(old(pool.committed.globalTokens), name) && rollbackFault.Some?
      ==> r == Err(DbWriteError.Rollback(rollbackFault.value, operation, "a token with the same name already exists"))
    ensures acquireFault.None? && !NameTaken(old(pool.committed.globalTokens), name) && commitFault.Some?
      ==> r == Err(DbWriteError.Commit(commitFault.value, operation))
    ensures acquireFault.None? && !NameTaken(old(pool.committed.globalTokens), name) && commitFault.None?
      ==> && r == Ok(Auth.RegistryUserTokenWithSecret(old(pool.committed.nextTokenId), name, secret, now, false, false))
          && pool.committed == old(pool.committed).(
               globalTokens := old(pool.committed.globalTokens)
                               + [GlobalTokenRow(old(pool.committed.nextTokenId), name, hashToken(secret), now)],
               nextTokenId := old(pool.committed.nextTokenId) + 1)
    ensures acquireFault.Some? ==> pool.actions == old(pool.actions)
    ensures acquireFault.None? ==> pool.actions == old(pool.actions) + [
      Acquired(WriteLease(operation)),
      if NameTaken(old(pool.committed.globalTokens), name) then RolledBack else Committed]
  {
    var begin := pool.BeginWrite<TokensError>(operation, acquireFault);
    if begin.Err? {
      return Err(begin.error);
    }
    var db := begin.value;
    var result := CreateGlobalToken(db, name, secret, hashToken, now);
    r := pool.EndWrite(db, operation, result, DescribeTokensError, commitFault, rollbackFault);
  }
}
