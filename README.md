# cratery core, modelled in Dafny

cratery is a private Cargo registry. This project models the parts of it that decide
what gets published and who may do what:

- **Publication pipeline** (`cargo.dfy`, module `Cargo`). This covers package-name
  validation, the binary upload envelope decoder, and how a manifest becomes an index
  record. It also covers dependency renaming and the rule that decides whether a
  dependency is active for given targets and features.
- **Authentication** (`auth.dfy`, module `Auth`). This covers the three principals and
  their capability flags, the `uid`/`email` accessors, the capability checks, and the
  dotted-path lookup into a JSON blob.
- **Error values** (`apierror.dfy`, module `ApiErrors`). This covers the uniform
  `ApiError` with its status code, message, detail and optional source chain. It also
  covers the fixed constructors, `specialize`, `Clone`, the conversion from lower-level
  errors, both `Display` impls, and the conversion to `UnApiError`.
- **Transactions and authorization checks** (`database.dfy`, module `Database`).
  `Pool` holds the committed tables. A `Database` handle holds the tables as one
  transaction sees them, pending writes included. Acquiring, committing and rolling
  back may each fail; the environment picks the failure through an
  `Option<SqlError>` parameter. The read-only checks (`check_is_user`, `get_is_admin`,
  `check_is_admin`, `check_crate_exists`, `check_is_crate_manager`) are methods of the
  handle.
- **Global tokens** (`admin.dfy`, module `Admin`). Listing, creating and revoking
  registry-wide tokens are methods that update the handle's token table. One composite
  method runs token creation inside a write transaction.

`text.dfy` (module `Text`) models the Rust string operations the core relies on:
UTF-8 byte length, `split`, `trim`, `strip_prefix` and `find`. `json.dfy` is the
`serde_json::Value` tree, and `wrappers.dfy` holds `Option` and `Result`.

Two places where the code does less than the publish protocol and the surrounding
comments lead one to expect. The model follows the code:

- Cargo's publish wire format frames the body as `u32 length, JSON metadata, u32
  length, archive`, so a truncated or over-long body would naturally be rejected as a
  malformed request. In the code, only a missing length prefix is an error; the decoder
  panics instead in two cases. It panics when the announced metadata runs past the end of
  the buffer (slice out of range). It also panics when the bytes after the second length
  prefix are not exactly the announced content length, too few or too many
  (`copy_from_slice` length mismatch). `Cargo.Decode` has a distinct `Panicked` outcome
  for these.
- `cfg(...)` target expressions are left unevaluated, as the `FIXME` at
  src/model/cargo.rs:472 marks: such a target never passes. The code also panics when
  nothing follows `cfg(`, or when the last character after it is not a single byte,
  because it slices off one byte. `Cargo.IsActiveFor` returns `TargetPanic` for those.

The conflict error carries status 408, as in the code.

## Model

| member | source | states |
|---|---|---|
| ApiErrors.New | src/utils/apierror.rs:65-73 | the code, message and detail are kept verbatim, with no source and a captured backtrace |
| ApiErrors.Specialize | src/utils/apierror.rs:123-128 | the detail becomes `Some(details)`; code, message, source and backtrace are unchanged |
| ApiErrors.SpecializeTwice | src/utils/apierror.rs:123-128 | specialising twice is the same as specialising once with the last detail |
| ApiErrors.BackendFailure | src/utils/apierror.rs:132-134 | status 500, no detail, no source |
| ApiErrors.InvalidRequest | src/utils/apierror.rs:138-140 | status 400, no detail, no source |
| ApiErrors.Unauthorized | src/utils/apierror.rs:144-146 | status 401, no detail, no source |
| ApiErrors.Forbidden | src/utils/apierror.rs:150-152 | status 403, no detail, no source |
| ApiErrors.NotFound | src/utils/apierror.rs:156-158 | status 404, no detail, no source |
| ApiErrors.Conflict | src/utils/apierror.rs:162-168 | status 408 (not 409), no detail, no source |
| ApiErrors.ErrorClassesDistinct | src/utils/apierror.rs:132-168 | the six constructors have six different status codes |
| ApiErrors.Clone | src/utils/apierror.rs:95-103 | code, message and detail are copied; source and backtrace are dropped |
| ApiErrors.FromError | src/utils/apierror.rs:110-119 | any lower-level error becomes a 500 with message "TODO: Look parent", no detail, and that error as its source |
| ApiErrors.Display | src/utils/apierror.rs:78-91 | the text starts with `message (details)` and is exactly that line iff there is no source |
| ApiErrors.ToUnApiError | src/utils/apierror.rs:188-193 | message and detail are kept; the status code is dropped |
| ApiErrors.DisplayUnApiError | src/utils/apierror.rs:177-185 | the text is the `UnApiError : message` line, followed by a tab-indented detail line exactly when there is a detail |
| ApiErrors.SpecializedUnApiErrorShowsDetail | src/utils/apierror.rs:177-193 | a specialised error handed outside the HTTP layer displays its message line, then its new detail |
| ApiErrors.CloneKeepsClientView | src/utils/apierror.rs:95-103 | a clone gives the same `UnApiError`, displays as its headline only, and cloning is idempotent |
| ApiErrors.SpecializedHeadline | src/utils/apierror.rs:78-91 | a specialised error displays its new detail in the headline and passes it on to `UnApiError` |
| Auth.NewSelf | src/model/auth.rs:31-37 | principal `SelfAuth`, cannot write, cannot administer |
| Auth.NewService | src/model/auth.rs:41-47 | principal `Service(tokenId)`, cannot write, cannot administer |
| Auth.NewUser | src/model/auth.rs:51-57 | principal `User(uid, email)`, can write and administer |
| Auth.Uid | src/model/auth.rs:60-69 | succeeds iff the principal is a user, with its uid; otherwise a 400 with detail "Expected a user to be authenticated" |
| Auth.Email | src/model/auth.rs:72-81 | succeeds iff the principal is a user, with its email; otherwise the same 400 |
| Auth.CheckCanWrite | src/model/auth.rs:84-93 | succeeds iff the write flag is set; otherwise a 403 with the writing-forbidden detail |
| Auth.CheckCanAdmin | src/model/auth.rs:96-105 | succeeds iff the admin flag is set; otherwise a 403 with the administration-forbidden detail |
| Auth.CapabilityProfiles | src/model/auth.rs:31-105 | users pass both checks and yield their uid and email; self and service authentications fail both checks and both accessors |
| Auth.DescendAppend | src/model/auth.rs:176-178 | following a path `p + q` is following `p`, then `q` from where `p` leads |
| Auth.FindFieldInBlob | src/model/auth.rs:174-180 | the loop yields the string reached by following every dot-separated segment as an object key, and nothing if a step is missing or the final value is not a string |
| Auth.JoinedPath | src/model/auth.rs:174-180 | a path built by joining dot-free keys with `.` reaches exactly what following those keys reaches |
| Auth.NestedPath | src/model/auth.rs:176-178 | a path through key `outer` reaches what the rest of the path reaches from `outer`'s value |
| Cargo.ValidationError | src/model/cargo.rs:224-226 | an invalid-request 400 carrying the given message as detail |
| Cargo.ValidNameIsAscii | src/model/cargo.rs:205-218 | a name that passes the checks is ASCII, so its byte length equals its character count, at most 64 |
| Cargo.ValidateName | src/model/cargo.rs:201-220 | empty, then over 64 UTF-8 bytes, then the first offending character (non-letter start, or not alphanumeric/`-`/`_`) decides the message; succeeds iff the name is valid |
| Cargo.Validate | src/model/cargo.rs:195-198 | succeeds with three empty warning lists iff the name is valid; a failure is a 400 whose detail is the message of the first name check that fails (empty, then over 64 UTF-8 bytes, then a non-letter start, then a character outside letters, digits, `-` and `_`) |
| Cargo.KindFromStr | src/model/cargo.rs:246-253 | accepts exactly "normal", "dev" and "build", each mapped to the kind of that name |
| Cargo.KindRoundTrip | src/model/cargo.rs:229-253 | parsing a kind's wire name gives the kind back |
| Cargo.U32Bytes | src/model/cargo.rs:320 | the four little-endian bytes of a `u32` read back as that `u32` |
| Cargo.NewUploadData | src/model/cargo.rs:317-329 | the cursor-and-copy decoder computes the decode outcome: an error for a missing length prefix or bad JSON, a panic for an out-of-range slice or a length mismatch, else the metadata and the content |
| Cargo.Decode | src/model/cargo.rs:317-329 | the outcome of reading a length-prefixed metadata block then a length-prefixed content block; its cases are pinned by `Cargo.NewUploadData` (the cursor decoder computes it), `Cargo.DecodeEnvelope` (round trip), `Cargo.DecodeShortMetadataPanics` and `Cargo.DecodeTrailingBytesPanic` |
| Cargo.DecodedIsEnvelope | src/model/cargo.rs:317-329 | a successful decode means the buffer is exactly `u32 mlen, metadata, u32 clen, content`, with the metadata parsed from `buffer[4..4+mlen]` and `|buffer| == 8 + mlen + clen` |
| Cargo.DecodeEnvelope | src/model/cargo.rs:317-329 | decoding the envelope of parseable metadata and any content gives back that metadata and that content |
| Cargo.DecodeShortMetadataPanics | src/model/cargo.rs:321 | a metadata length past the end of the buffer panics rather than failing gracefully |
| Cargo.DecodeTrailingBytesPanic | src/model/cargo.rs:326-327 | bytes after the announced content make the decoder panic |
| Cargo.ToIndexDependency | src/model/cargo.rs:494-510 | a renamed dependency is listed under its alias with the real crate in `package`, exactly when renamed; `get_name` gives the real crate; every other field is copied |
| Cargo.GetName | src/model/cargo.rs:460-462 | the real crate name: `package` when the dependency is renamed, else `name`; `Cargo.ToIndexDependency` and `Cargo.RenameIsLossless` pin it to the declared crate |
| Cargo.RenameIsLossless | src/model/cargo.rs:494-510 | the declared dependency can be rebuilt from its index form |
| Cargo.BuildIndexData | src/model/cargo.rs:332-346 | checksum of the content; name, version, links and rust-version copied; dependencies converted one by one in order; no legacy features, not yanked, schema 2, the manifest's features as `features2` |
| Cargo.BuiltDependenciesKeepNames | src/model/cargo.rs:332-346 | every dependency of a built record resolves to the crate the publisher declared, at the same position |
| Cargo.GetFeature | src/model/cargo.rs:413-419 | `features2` is looked up first, `features` is the fallback, and the result is absent iff neither has the feature |
| Cargo.BuiltFeatureLookup | src/model/cargo.rs:413-419 | on a freshly built record a feature lookup answers from the manifest's feature table |
| Cargo.FeatureEnablesIff | src/model/cargo.rs:486-489 | a feature enables a dependency iff it is `dep:name`, or `name/...` with no `/` inside `name` |
| Cargo.AnyFeatureEnables | src/model/cargo.rs:486-489 | true iff some active feature enables the dependency |
| Cargo.IsActiveFor | src/model/cargo.rs:466-490 | panics iff the `cfg(` slice panics; a `cfg(` target is never active; a plain target outside the active set is inactive; otherwise active iff not optional or some feature names the dependency's real crate |
| Cargo.WindowsDependencyOnLinux | src/model/cargo.rs:466-480 | a `windows` dependency is inactive when only `linux` is active |
| Cargo.AliasedSerdeRecord | src/model/cargo.rs:494-510 | `serde` renamed `ser` is listed as `ser`, with `package` `serde`, and resolves to `serde` |
| Cargo.AliasedSerdeOffByDefault | src/model/cargo.rs:481-489 | the optional aliased dependency is inactive with no feature |
| Cargo.AliasedSerdeByDepFeature | src/model/cargo.rs:485-489 | `dep:serde` activates it and the alias `dep:ser` does not, because the real crate name is matched |
| Cargo.AliasedSerdeBySubFeature | src/model/cargo.rs:485-489 | any `serde/...` feature activates it |
| Cargo.UnconditionalDependencyIsActive | src/model/cargo.rs:466-484 | a non-optional dependency without a target is active for any targets and features |
| Database.Pool.BeginRead | src/services/database/mod.rs:53-62 | a failed acquisition yields `AcquireRead` and no handle, so the workload cannot run; otherwise a fresh open handle on the committed tables |
| Database.Pool.BeginWrite | src/services/database/mod.rs:126-139 | the same for a write lease; the failure carries the operation name |
| Database.Pool.EndRead | src/services/database/mod.rs:63-84 | exactly one of commit or rollback is logged, and the committed tables never change: a read transaction publishes nothing, so a write committed meanwhile survives; `Ok(t)` is returned only after a successful commit, otherwise `Commit`, `Workload`, or `Rollback` with the workload error's text |
| Database.Pool.EndWrite | src/services/database/mod.rs:140-168 | the same for writes on a handle opened from the current committed tables (the single write lease); a successful commit publishes the handle's tables, and every error names the operation and leaves the committed tables unchanged |
| Database.AnyRoleIs | src/services/database/mod.rs:215 | true iff some trimmed entry equals the role |
| Database.HasAdminRole | src/services/database/mod.rs:215 | splits the roles column on `,` and asks `Database.AnyRoleIs` for `admin`; `Database.AdminAmongRoles`, `Database.RolesWithAdminEntry` and `Database.JoinedRoles` show every column with an `admin` entry is accepted |
| Database.TrimStartPadded | src/services/database/mod.rs:215 | trimming drops any leading white space before a non-blank word |
| Database.TrimEndPadded | src/services/database/mod.rs:215 | trimming drops any trailing white space after a non-blank word |
| Database.AdminAmongRoles | src/services/database/mod.rs:208-216 | a roles column with `admin` as any comma-separated entry, at any position, padded with white space or not, grants administration |
| Database.RolesWithAdminEntry | src/services/database/mod.rs:215 | an entry that trims to `admin`, at any position among comma-free roles, grants administration |
| Database.JoinedRoles | src/services/database/mod.rs:215 | roles joined with commas grant administration when one of them trims to `admin` |
| Database.Database.CheckIsUser | src/services/database/mod.rs:198-205 | the id of an active user with that email; `Unauthorized` iff there is none |
| Database.Database.GetIsAdmin | src/services/database/mod.rs:208-216 | an unknown user is `Forbidden`; otherwise whether some trimmed comma-separated role is exactly `admin` |
| Database.Database.CheckIsAdmin | src/services/database/mod.rs:219-226 | succeeds iff the user exists and is an administrator; `Forbidden` for an unknown user, `AdministrationIsForbidden` otherwise |
| Database.Database.CheckCrateExists | src/services/database/mod.rs:230-243 | fails with `PackageVersionNotFound(package, version)` iff no such row exists |
| Database.Database.CheckIsCrateManager | src/services/database/mod.rs:246-261 | returns the uid iff the user is an administrator or owns the package, even when the user is unknown to the admin check; else `NotOwnerOfPackage` |
| Admin.DescribeTokensError | src/services/database/admin.rs:15-23 | a database failure shows the engine's message, a taken name shows "a token with the same name already exists"; `Admin.CreateGlobalTokenInTransaction` pins the latter as the detail of a failed rollback |
| Admin.ListedTokens | src/services/database/admin.rs:31-40 | one listed token per row, in order, with the row's id, name and last use, and neither capability |
| Admin.GetGlobalTokens | src/services/database/admin.rs:27-41 | every global token, always in ascending id order (the table invariant every constructor and method keeps), none able to write or administer |
| Admin.CreateGlobalToken | src/services/database/admin.rs:44-71 | a taken name yields `TokenNameExist` and no change; otherwise exactly one row `(next id, name, hash of the secret, now)` is appended and the plaintext secret is returned with that id and no capability; id order and name uniqueness are preserved |
| Admin.WithoutId | src/services/database/admin.rs:74-79 | the remaining rows are exactly those with another id, and nothing changes when no row has the id |
| Admin.RevokeGlobalToken | src/services/database/admin.rs:74-79 | only the row with that id is deleted, an absent id is no error, and the table invariant is kept |
| Admin.RevokeKeepsValid | src/services/database/admin.rs:74-79 | deletion keeps ids positive, ascending and below the next id |
| Admin.WithoutIdAscending | src/services/database/admin.rs:74-79 | deletion keeps the rows in ascending id order |
| Admin.RevokeUndoesCreate | src/services/database/admin.rs:44-79 | revoking the token just created restores the rows as they were |
| Admin.CreateGlobalTokenInTransaction | src/services/database/admin.rs:44-71 | in a write transaction, a taken name is rolled back and leaves the committed tables identical; only acquisition, workload and commit all succeeding publish the new row, with the next id, and advance the id counter; the store records an acquisition then a rollback or a commit, and nothing when acquisition fails |

## Left out

- Async execution, sqlx and the pool's single-writer/multi-reader lease contention are not modelled. A lease is only recorded on the handle, and acquisition either succeeds or fails as its fault parameter says. The single writer shows up only as `EndWrite`'s precondition that nothing was committed since its handle was opened.
- `db_transaction_read` and `db_transaction_write` take the workload as a closure. Here each is split into `Begin…` (acquire) and `End…` (commit or rollback). The workload is whatever runs on the handle between the two. `Admin.CreateGlobalTokenInTransaction` shows the three composed.
- Failures of the SQL queries themselves are not modelled: `AuthenticationError::CheckUser`/`CheckRoles`, `CratesError`'s query failure, `IsCrateManagerError::Sqlx`, and the `sqlx::Error` results of the token operations. Every query succeeds in the model. `Admin.TokensError.Sqlx` exists only so that its `to_string` can be given.
- Database.Database.CheckIsUser: when several active users share an email, the model returns one of them without saying which. The engine's row order decides this in the source.
- `serde_json::from_slice`, `sha256`, `generate_token`, `hash_token` and `Local::now` are opaque. They become the parameters `parse`, `sha256`, `secret`, `hashToken` and `now`.
- The token rows are kept in ascending id order, standing for SQLite's rowid order. `Database.TablesValid` (ascending, positive ids below the counter) is required by both constructors and kept by every method that writes, so `ORDER BY id` needs no sort.
- The ids that SQLite assigns are modelled as a counter, `nextTokenId`, which goes up by one per inserted token.
- `cfg(...)` target expressions are never evaluated, as in the code; Cargo's `cfg` grammar is not modelled.
- Backtraces are reduced to whether one was captured. A source error is reduced to its chain of messages.
- Integer widths are not modelled: user and token ids (`i64`) and the uid are unbounded `int`s. The status code is a `u16` subtype, and the envelope lengths are read as `u32` values.
- `stats.rs` (SQL aggregation), the axum extractors and response mapping, the search/owner/result DTOs in `cargo.rs`, and `OAuthToken`, `TokenKind` and `TokenUsage` are not part of this model. They are declarations or framework glue.
- Timestamps (`NaiveDateTime`) are opaque integers.
