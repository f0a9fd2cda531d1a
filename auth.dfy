/** Who is acting on a request, what they may do, and the registry's token records. */
module Auth {
  import opened Wrappers
  import opened Text
  import opened ApiErrors
  import Json

  /** The role that grants administration. */
  const RoleAdmin := "admin"

  /** A `NaiveDateTime`, kept abstract. */
  type Timestamp = int

  /** The closed set of principals. `uid` is Rust's `i64`. */
  datatype AuthenticationPrincipal =
    | User(uid: int, email: string)
    | Service(tokenId: string)
    | SelfAuth

  /** The result of a successful authentication; immutable once built. */
  datatype Authentication = Authentication(principal: AuthenticationPrincipal, canWrite: bool, canAdmin: bool)

  const NotAUserDetail := "Expected a user to be authenticated"
  const WriteForbiddenDetail := "writing is forbidden for this authentication"
  const AdminForbiddenDetail := "administration is forbidden for this authentication"

  /** `Authentication::new_self`: the registry itself, with no capability. */
  function NewSelf(): (a: Authentication)
    ensures a.principal == SelfAuth && !a.canWrite && !a.canAdmin
  {
    Authentication(SelfAuth, false, false)
  }

  /** `Authentication::new_service`: a global token, with no capability. */
  function NewService(tokenId: string): (a: Authentication)
    ensures a.principal == Service(tokenId) && !a.canWrite && !a.canAdmin
  {
    Authentication(Service(tokenId), false, false)
  }

  /** `Authentication::new_user`: a user, granted every capability. */
  function NewUser(uid: int, email: string): (a: Authentication)
    ensures a.principal == User(uid, email) && a.canWrite && a.canAdmin
  {
    Authentication(User(uid, email), true, true)
  }

  /** `Authentication::uid`: the user's id, or a 400 when the principal is not a user. */
  function Uid(a: Authentication): (r: Result<int, ApiError>)
    ensures r.Ok? <==> a.principal.User?
    ensures r.Ok? ==> r.value == a.principal.uid
    ensures r.Err? ==> r.error.http == 400 && r.error.details == Some(NotAUserDetail)
  {
    match a.principal
    case User(uid, _) => Ok(uid)
    case _ => Err(Specialize(InvalidRequest(), NotAUserDetail))
  }

  /** `Authentication::email`: the user's email, or a 400 when the principal is not a user. */
  function Email(a: Authentication): (r: Result<string, ApiError>)
    ensures r.Ok? <==> a.principal.User?
    ensures r.Ok? ==> r.value == a.principal.email
    ensures r.Err? ==> r.error.http == 400 && r.error.details == Some(NotAUserDetail)
  {
    match a.principal
    case User(_, email) => Ok(email)
    case _ => Err(Specialize(InvalidRequest(), NotAUserDetail))
  }

  /** `check_can_write`: passes exactly when the write flag is set, else a 403. */
  function CheckCanWrite(a: Authentication): (r: Result<(), ApiError>)
    ensures r.Ok? <==> a.canWrite
    ensures r.Err? ==> r.error.http == 403 && r.error.details == Some(WriteForbiddenDetail)
  {
    if a.canWrite then Ok(()) else Err(Specialize(Forbidden(), WriteForbiddenDetail))
  }

  /** `check_can_admin`: passes exactly when the admin flag is set, else a 403. */
  function CheckCanAdmin(a: Authentication): (r: Result<(), ApiError>)
    ensures r.Ok? <==> a.canAdmin
    ensures r.Err? ==> r.error.http == 403 && r.error.details == Some(AdminForbiddenDetail)
  {
    if a.canAdmin then Ok(()) else Err(Specialize(Forbidden(), AdminForbiddenDetail))
  }

  /** The capability profiles: users pass both checks, the registry itself and services pass neither. */
  lemma CapabilityProfiles(uid: int, email: string, tokenId: string)
    ensures CheckCanWrite(NewUser(uid, email)).Ok? && CheckCanAdmin(NewUser(uid, email)).Ok?
    ensures Uid(NewUser(uid, email)) == Ok(uid) && Email(NewUser(uid, email)) == Ok(email)
    ensures CheckCanWrite(NewSelf()).Err? && CheckCanAdmin(NewSelf()).Err?
    ensures CheckCanWrite(NewService(tokenId)).Err? && CheckCanAdmin(NewService(tokenId)).Err?
    ensures Uid(NewSelf()).Err? && Email(NewSelf()).Err?
    ensures Uid(NewService(tokenId)).Err? && Email(NewService(tokenId)).Err?
  {
  }

  /** A token record as listed (`RegistryUserToken`). */
  datatype RegistryUserToken = RegistryUserToken(
    id: int, name: string, lastUsed: Timestamp, canWrite: bool, canAdmin: bool)

  /** A token record at creation time, the only moment its plaintext secret exists. */
  datatype RegistryUserTokenWithSecret = RegistryUserTokenWithSecret(
    id: int, name: string, secret: string, lastUsed: Timestamp, canWrite: bool, canAdmin: bool)

  /** The value reached from `v` by following one object key per segment, if every step exists. */
  function Descend(v: Json.Value, segments: seq<string>): Option<Json.Value>
    decreases |segments|
  {
    if segments == [] then Some(v)
    else if v.Object? && segments[0] in v.fields then Descend(v.fields[segments[0]], segments[1..])
    else None
  }

  /** The text of a JSON string, nothing for any other value (`Value::as_str`). */
  function AsStr(v: Option<Json.Value>): Option<string> {
    match v
    case Some(Str(text)) => Some(text)
    case _ => None
  }

  /** Following `p` then `q` is following `p + q`. */
  lemma {:induction false} DescendAppend(v: Json.Value, p: seq<string>, q: seq<string>)
    ensures Descend(v, p + q) == (match Descend(v, p) case None => None case Some(w) => Descend(w, q))
    decreases |p|
  {
    if p == [] {
      assert p + q == q;
    } else {
      assert (p + q)[0] == p[0] && (p + q)[1..] == p[1..] + q;
      if v.Object? && p[0] in v.fields {
        DescendAppend(v.fields[p[0]], p[1..], q);
      }
    }
  }

  /**
   * `find_field_in_blob`: walks the dot-separated path one object key at a time and
   * yields the final value only if it is a string.
   */
  method FindFieldInBlob(blob: Json.Value, path: string) returns (r: Option<string>)
    ensures r == AsStr(Descend(blob, Split(path, '.')))
  {
    var items := Split(path, '.');
    var last := blob;
    var i := 0;
    while i < |items|
      invariant 0 <= i <= |items|
      invariant Descend(blob, items) == Descend(last, items[i..])
    {
      if !last.Object? || items[i] !in last.fields {
        return None;
      }
      last := last.fields[items[i]];
      i := i + 1;
    }
    r := if last.Str? then Some(last.text) else None;
  }

  /** A path written as keys joined by dots (no key holding a dot) reaches exactly what the keys reach. */
  lemma JoinedPath(blob: Json.Value, keys: seq<string>)
    requires |keys| >= 1
    requires forall i :: 0 <= i < |keys| ==> '.' !in keys[i]
    ensures AsStr(Descend(blob, Split(Join(keys, '.'), '.'))) == AsStr(Descend(blob, keys))
  {
    SplitJoin(keys, '.');
  }

  /** A nested path succeeds through `outer` exactly when the inner path succeeds from where `outer` leads. */
  lemma NestedPath(blob: Json.Value, outer: string, inner: seq<string>, v: Json.Value)
    requires blob.Object? && outer in blob.fields && blob.fields[outer] == v
    ensures Descend(blob, [outer] + inner) == Descend(v, inner)
  {
    DescendAppend(blob, [outer], inner);
  }
}
