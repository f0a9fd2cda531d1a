/**
 * The publication pipeline of the Cargo registry API: package-name validation,
 * the upload envelope decoder, the index record and its dependencies, and the
 * rule that decides whether a dependency is active.
 */
module Cargo {
  import opened Wrappers
  import opened Text
  import opened ApiErrors
  import Json

  /** Rust's `u8`. */
  type byte = x: int | 0 <= x < 0x100

  /** A feature table: feature name to the features and dependencies it enables. */
  type Features = map<string, seq<string>>

  datatype DependencyKind = Normal | Dev | Build

  /** A dependency as the publisher declares it. */
  datatype CrateMetadataDependency = CrateMetadataDependency(
    name: string,
    versionReq: string,
    features: seq<string>,
    optional: bool,
    defaultFeatures: bool,
    target: Option<string>,
    kind: DependencyKind,
    registry: Option<string>,
    explicitNameInToml: Option<string>)

  /** The manifest of one published version. */
  datatype CrateMetadata = CrateMetadata(
    name: string,
    vers: string,
    deps: seq<CrateMetadataDependency>,
    features: Features,
    authors: seq<string>,
    description: Option<string>,
    documentation: Option<string>,
    homepage: Option<string>,
    readme: Option<string>,
    readmeFile: Option<string>,
    keywords: seq<string>,
    categories: seq<string>,
    license: Option<string>,
    licenseFile: Option<string>,
    repository: Option<string>,
    badges: map<string, Json.Value>,
    links: Option<string>,
    rustVersion: Option<string>)

  datatype CrateUploadWarnings = CrateUploadWarnings(
    invalidCategories: seq<string>, invalidBadges: seq<string>, other: seq<string>)

  datatype CrateUploadResult = CrateUploadResult(warnings: CrateUploadWarnings)

  /** The decoded upload: the manifest and the raw `.crate` bytes. */
  datatype CrateUploadData = CrateUploadData(metadata: CrateMetadata, content: seq<byte>)

  /** A dependency in the index: `name` is the local name, `package` the real crate when renamed. */
  datatype IndexCrateDependency = IndexCrateDependency(
    name: string,
    req: string,
    features: seq<string>,
    optional: bool,
    defaultFeatures: bool,
    target: Option<string>,
    kind: DependencyKind,
    registry: Option<string>,
    package: Option<string>)

  /** One version's record in the index. `v` is Rust's `u32`. */
  datatype IndexCrateMetadata = IndexCrateMetadata(
    name: string,
    vers: string,
    deps: seq<IndexCrateDependency>,
    cksum: string,
    features: Features,
    yanked: bool,
    links: Option<string>,
    v: Option<nat>,
    features2: Option<Features>,
    rustVersion: Option<string>)

  // ---------------------------------------------------------------------------
  // Package-name validation

  const NameEmpty := "Name must not be empty"
  const NameTooLong := "Name must not exceed 64 characters"
  const NameBadStart := "Name must start with an ASCII letter"
  const NameBadChar := "Name must only contain alphanumeric, -, _"

  /** `validation_error`: an invalid-request error carrying the specific message as its detail. */
  function ValidationError(details: string): (r: Result<(), ApiError>)
    ensures r.Err? && r.error.http == 400 && r.error.details == Some(details)
    ensures r.error.message == InvalidRequestMessage && r.error.source.None?
  {
    Err(Specialize(InvalidRequest(), details))
  }

  predicate IsNameChar(c: char) {
    IsAsciiAlphanumeric(c) || c == '-' || c == '_'
  }

  /** The package-name invariant: 1 to 64 bytes, an ASCII letter first, then letters, digits, `-` and `_`. */
  predicate ValidName(name: string) {
    && |name| > 0
    && Utf8Len(name) <= 64
    && IsAsciiAlphabetic(name[0])
    && forall i :: 0 <= i < |name| ==> IsNameChar(name[i])
  }

  /** A valid name is plain ASCII, so its byte length is its character count. */
  lemma ValidNameIsAscii(name: string)
    requires ValidName(name)
    ensures Utf8Len(name) == |name| <= 64
  {
    assert forall i :: 0 <= i < |name| ==> (name[i] as int) < 0x80 by {
      forall i | 0 <= i < |name| ensures (name[i] as int) < 0x80 {
        assert IsNameChar(name[i]);
      }
    }
  }

  /**
   * `validate_name`: empty first, then the byte length, then a scan of the characters
   * in which the first offending one decides the message.
   */
  method ValidateName(name: string) returns (r: Result<(), ApiError>)
    ensures |name| == 0 ==> r == ValidationError(NameEmpty)
    ensures |name| > 0 && Utf8Len(name) > 64 ==> r == ValidationError(NameTooLong)
    ensures |name| > 0 && Utf8Len(name) <= 64 && !IsAsciiAlphabetic(name[0])
      ==> r == ValidationError(NameBadStart)
    ensures |name| > 0 && Utf8Len(name) <= 64 && IsAsciiAlphabetic(name[0])
            && (exists i :: 0 <= i < |name| && !IsNameChar(name[i]))
      ==> r == ValidationError(NameBadChar)
    ensures r.Ok? <==> ValidName(name)
  {
    if |name| == 0 {
      return ValidationError(NameEmpty);
    }
    if Utf8Len(name) > 64 {
      return ValidationError(NameTooLong);
    }
    var i := 0;
    while i < |name|
      invariant 0 <= i <= |name|
      invariant i > 0 ==> IsAsciiAlphabetic(name[0])
      invariant forall k :: 0 <= k < i ==> IsNameChar(name[k])
    {
      var c := name[i];
      if i == 0 && !IsAsciiAlphabetic(c) {
        return ValidationError(NameBadStart);
      }
      if !IsNameChar(c) {
        return ValidationError(NameBadChar);
      }
      i := i + 1;
    }
    return Ok(());
  }

  /** `CrateMetadata::validate`: succeeds with no warning exactly when the name is valid. */
  method Validate(metadata: CrateMetadata) returns (r: Result<CrateUploadResult, ApiError>)
    ensures r.Ok? <==> ValidName(metadata.name)
    ensures r.Ok? ==> r.value.warnings == CrateUploadWarnings([], [], [])
    ensures r.Err? ==> r.error.http == 400 && r.error.message == InvalidRequestMessage
    ensures r.Err? ==> r.error.details.Some?
                       && r.error.details.value in {NameEmpty, NameTooLong, NameBadStart, NameBadChar}
    ensures |metadata.name| == 0 ==> r == Err(ValidationError(NameEmpty).error)
    ensures |metadata.name| > 0 && Utf8Len(metadata.name) > 64 ==> r == Err(ValidationError(NameTooLong).error)
    ensures |metadata.name| > 0 && Utf8Len(metadata.name) <= 64 && !IsAsciiAlphabetic(metadata.name[0])
      ==> r == Err(ValidationError(NameBadStart).error)
    ensures |metadata.name| > 0 && Utf8Len(metadata.name) <= 64 && IsAsciiAlphabetic(metadata.name[0])
            && (exists i :: 0 <= i < |metadata.name| && !IsNameChar(metadata.name[i]))
      ==> r == Err(ValidationError(NameBadChar).error)
  {
    var checked := ValidateName(metadata.name);
    if checked.Err? {
      return Err(checked.error);
    }
    return Ok(CrateUploadResult(CrateUploadWarnings([], [], [])));
  }

  // ---------------------------------------------------------------------------
  // Dependency kinds

  /** The wire names of the dependency kinds. */
  function KindName(kind: DependencyKind): string {
    match kind
    case Normal => "normal"
    case Dev => "dev"
    case Build => "build"
  }

  /** `DependencyKind::from_str`: exactly the three wire names are accepted. */
  function KindFromStr(s: string): (r: Result<DependencyKind, ()>)
    ensures r.Ok? <==> s in {"normal", "dev", "build"}
    ensures r.Ok? ==> KindName(r.value) == s
  {
    match s
    case "normal" => Ok(Normal)
    case "dev" => Ok(Dev)
    case "build" => Ok(Build)
    case _ => Err(())
  }

  /** Parsing a kind's wire name gives the kind back. */
  lemma KindRoundTrip(kind: DependencyKind)
    ensures KindFromStr(KindName(kind)) == Ok(kind)
  {
  }

  // ---------------------------------------------------------------------------
  // The upload envelope: u32 LE length, JSON metadata, u32 LE length, .crate bytes

  const Pow32 := 0x1_0000_0000

  /** The little-endian `u32` at `pos`. */
  function U32At(b: seq<byte>, pos: nat): (n: nat)
    requires pos + 4 <= |b|
    ensures n < Pow32
  {
    var b0: int, b1: int, b2: int, b3: int := b[pos], b[pos + 1], b[pos + 2], b[pos + 3];
    b0 + 0x100 * (b1 + 0x100 * (b2 + 0x100 * b3))
  }

  /** The four little-endian bytes of a `u32`. */
  function U32Bytes(n: nat): (b: seq<byte>)
    requires n < Pow32
    ensures |b| == 4 && U32At(b, 0) == n
  {
    var q1 := n / 0x100;
    var q2 := q1 / 0x100;
    var q3 := q2 / 0x100;
    assert q3 < 0x100 by {
      assert n < 0x100 * 0x100_0000;
      assert q1 < 0x100_0000;
      assert q2 < 0x1_0000;
    }
    var b: seq<byte> := [n % 0x100, q1 % 0x100, q2 % 0x100, q3];
    assert U32At(b, 0) == n by {
      assert n == n % 0x100 + 0x100 * q1;
      assert q1 == q1 % 0x100 + 0x100 * q2;
      assert q2 == q2 % 0x100 + 0x100 * q3;
    }
    b
  }

  /** The publish body as Cargo builds it from the metadata bytes and the archive. */
  function Envelope(metadata: seq<byte>, content: seq<byte>): (b: seq<byte>)
    requires |metadata| < Pow32 && |content| < Pow32
    ensures |b| == 8 + |metadata| + |content|
  {
    U32Bytes(|metadata|) + metadata + U32Bytes(|content|) + content
  }

  /** The message of the I/O error a `Cursor` reports when fewer than four bytes remain. */
  const EofMessage := "failed to fill whole buffer"

  /** Where the decoder panics instead of returning an error. */
  datatype PanicKind = SliceOutOfRange | LengthMismatch

  datatype DecodeOutcome =
    | Decoded(data: CrateUploadData)
    | Failed(error: ApiError)
    | Panicked(kind: PanicKind)

  /**
   * What `CrateUploadData::new` computes. `parse` is the JSON deserializer of the
   * metadata, giving the manifest or the text of its error.
   */
  function Decode(buffer: seq<byte>, parse: seq<byte> -> Result<CrateMetadata, string>): DecodeOutcome {
    if |buffer| < 4 then Failed(FromError([EofMessage]))
    else
      var metadataLength := U32At(buffer, 0);
      if 4 + metadataLength > |buffer| then Panicked(SliceOutOfRange)
      else match parse(buffer[4..4 + metadataLength])
        case Err(message) => Failed(FromError([message]))
        case Ok(metadata) =>
          if |buffer| - (4 + metadataLength) < 4 then Failed(FromError([EofMessage]))
          else
            var contentLength := U32At(buffer, 4 + metadataLength);
            if |buffer| - (8 + metadataLength) != contentLength then Panicked(LengthMismatch)
            else Decoded(CrateUploadData(metadata, buffer[8 + metadataLength..]))
  }

  /**
   * `CrateUploadData::new`: reads through a cursor, then fills a zeroed buffer of the
   * announced length from the rest of the input.
   */
  method NewUploadData(buffer: seq<byte>, parse: seq<byte> -> Result<CrateMetadata, string>)
    returns (r: DecodeOutcome)
    ensures r == Decode(buffer, parse)
  {
    var position: nat := 0;
    if |buffer| - position < 4 {
      return Failed(FromError([EofMessage]));
    }
    var metadataLength := U32At(buffer, position);
    position := position + 4;
    if 4 + metadataLength > |buffer| {
      return Panicked(SliceOutOfRange);
    }
    var parsed := parse(buffer[4..4 + metadataLength]);
    if parsed.Err? {
      return Failed(FromError([parsed.error]));
    }
    position := 4 + metadataLength;
    if |buffer| - position < 4 {
      return Failed(FromError([EofMessage]));
    }
    var contentLength := U32At(buffer, position);
    position := position + 4;
    var content := new byte[contentLength](_ => 0);
    var start := 4 + metadataLength + 4;
    if |buffer| - start != contentLength {
      return Panicked(LengthMismatch);
    }
    var k := 0;
    while k < contentLength
      invariant 0 <= k <= contentLength
      invariant content[..k] == buffer[start..start + k]
    {
      content[k] := buffer[start + k];
      k := k + 1;
    }
    assert content[..] == buffer[start..];
    return Decoded(CrateUploadData(parsed.value, content[..]));
  }

  /** A successful decode means the buffer is exactly an envelope around the metadata and the content. */
  lemma DecodedIsEnvelope(buffer: seq<byte>, parse: seq<byte> -> Result<CrateMetadata, string>)
    requires Decode(buffer, parse).Decoded?
    ensures |buffer| >= 8
    ensures var metadataLength := U32At(buffer, 0);
            var content := Decode(buffer, parse).data.content;
            && 8 + metadataLength <= |buffer|
            && |buffer| == 8 + metadataLength + |content|
            && |content| == U32At(buffer, 4 + metadataLength)
            && Decode(buffer, parse).data.metadata == parse(buffer[4..4 + metadataLength]).value
            && buffer == Envelope(buffer[4..4 + metadataLength], content)
  {
    var m := U32At(buffer, 0);
    var content := buffer[8 + m..];
    var c := U32At(buffer, 4 + m);
    assert U32At(buffer[..4], 0) == m;
    assert U32At(buffer[4 + m..8 + m], 0) == c;
    U32BytesOfAt(buffer[..4]);
    U32BytesOfAt(buffer[4 + m..8 + m]);
    assert buffer == buffer[..4] + buffer[4..4 + m] + buffer[4 + m..8 + m] + content;
  }

  /** Division by 256 of `low + 256 * high` with `low` a byte. */
  lemma ByteDivMod(n: int, low: int, high: int)
    requires 0 <= low < 0x100 && n == low + 0x100 * high
    ensures n % 0x100 == low && n / 0x100 == high
  {
  }

  /** Four bytes are the encoding of the `u32` they hold. */
  lemma U32BytesOfAt(a: seq<byte>)
    requires |a| == 4
    ensures U32Bytes(U32At(a, 0)) == a
  {
    var n := U32At(a, 0);
    var q1 := a[1] as int + 0x100 * (a[2] as int + 0x100 * (a[3] as int));
    var q2 := a[2] as int + 0x100 * (a[3] as int);
    ByteDivMod(n, a[0], q1);
    ByteDivMod(q1, a[1], q2);
    ByteDivMod(q2, a[2], a[3]);
  }

  /** Round trip: decoding an envelope gives back the parsed metadata and the very same content. */
  lemma DecodeEnvelope(metadata: seq<byte>, content: seq<byte>, parse: seq<byte> -> Result<CrateMetadata, string>)
    requires |metadata| < Pow32 && |content| < Pow32
    requires parse(metadata).Ok?
    ensures Decode(Envelope(metadata, content), parse) == Decoded(CrateUploadData(parse(metadata).value, content))
  {
    var b := Envelope(metadata, content);
    var m := |metadata|;
    assert b[..4] == U32Bytes(m);
    assert U32At(b, 0) == U32At(b[..4], 0);
    assert b[4..4 + m] == metadata;
    assert b[4 + m..8 + m] == U32Bytes(|content|);
    assert U32At(b, 4 + m) == U32At(b[4 + m..8 + m], 0);
    assert b[8 + m..] == content;
  }

  /** A buffer announcing more metadata than it holds makes the decoder panic, not fail gracefully. */
  lemma DecodeShortMetadataPanics(buffer: seq<byte>, parse: seq<byte> -> Result<CrateMetadata, string>)
    requires |buffer| >= 4 && 4 + U32At(buffer, 0) > |buffer|
    ensures Decode(buffer, parse) == Panicked(SliceOutOfRange)
  {
  }

  /** Bytes after the announced content make the decoder panic on the length mismatch. */
  lemma DecodeTrailingBytesPanic(metadata: seq<byte>, content: seq<byte>, extra: seq<byte>,
                                 parse: seq<byte> -> Result<CrateMetadata, string>)
    requires |metadata| < Pow32 && |content| < Pow32 && |extra| > 0
    requires parse(metadata).Ok?
    ensures Decode(Envelope(metadata, content) + extra, parse) == Panicked(LengthMismatch)
  {
    var b := Envelope(metadata, content) + extra;
    var m := |metadata|;
    assert b[..4] == U32Bytes(m);
    assert U32At(b, 0) == U32At(b[..4], 0);
    assert b[4..4 + m] == metadata;
    assert b[4 + m..8 + m] == U32Bytes(|content|);
    assert U32At(b, 4 + m) == U32At(b[4 + m..8 + m], 0);
  }

  // ---------------------------------------------------------------------------
  // The index record

  /** `IndexCrateDependency::get_name`: the real crate name, whether or not the dependency is renamed. */
  function GetName(dep: IndexCrateDependency): string {
    match dep.package
    case Some(package) => package
    case None => dep.name
  }

  /**
   * `From<&CrateMetadataDependency>`: a renamed dependency is listed under its local
   * name with the real crate in `package`; every other field is copied.
   */
  function ToIndexDependency(dep: CrateMetadataDependency): (r: IndexCrateDependency)
    ensures r.package.Some? <==> dep.explicitNameInToml.Some?
    ensures r.package.Some? ==> r.package.value == dep.name && r.name == dep.explicitNameInToml.value
    ensures r.package.None? ==> r.name == dep.name
    ensures GetName(r) == dep.name
    ensures r.req == dep.versionReq && r.features == dep.features && r.optional == dep.optional
    ensures r.defaultFeatures == dep.defaultFeatures && r.target == dep.target
    ensures r.kind == dep.kind && r.registry == dep.registry
  {
    IndexCrateDependency(
      name := match dep.explicitNameInToml case Some(alias) => alias case None => dep.name,
      req := dep.versionReq,
      features := dep.features,
      optional := dep.optional,
      defaultFeatures := dep.defaultFeatures,
      target := dep.target,
      kind := dep.kind,
      registry := dep.registry,
      package := if dep.explicitNameInToml.Some? then Some(dep.name) else None)
  }

  /** The publisher's view of an index dependency: real name in `name`, local alias if renamed. */
  function ToMetadataDependency(dep: IndexCrateDependency): CrateMetadataDependency {
    CrateMetadataDependency(
      name := GetName(dep),
      versionReq := dep.req,
      features := dep.features,
      optional := dep.optional,
      defaultFeatures := dep.defaultFeatures,
      target := dep.target,
      kind := dep.kind,
      registry := dep.registry,
      explicitNameInToml := if dep.package.Some? then Some(dep.name) else None)
  }

  /** The rename normalisation loses nothing: the declared dependency can be read back from the index. */
  lemma RenameIsLossless(dep: CrateMetadataDependency)
    ensures ToMetadataDependency(ToIndexDependency(dep)) == dep
  {
  }

  /** The `.crate` bytes' SHA-256 digest in hex, kept abstract as the parameter `sha256`. */
  function BuildIndexData(upload: CrateUploadData, sha256: seq<byte> -> string): (r: IndexCrateMetadata)
    ensures r.cksum == sha256(upload.content)
    ensures r.name == upload.metadata.name && r.vers == upload.metadata.vers
    ensures r.links == upload.metadata.links && r.rustVersion == upload.metadata.rustVersion
    ensures |r.deps| == |upload.metadata.deps|
    ensures forall i :: 0 <= i < |r.deps| ==> r.deps[i] == ToIndexDependency(upload.metadata.deps[i])
    ensures r.features == map[] && !r.yanked
    ensures r.v == Some(2) && r.features2 == Some(upload.metadata.features)
  {
    var deps := upload.metadata.deps;
    IndexCrateMetadata(
      name := upload.metadata.name,
      vers := upload.metadata.vers,
      deps := seq(|deps|, i requires 0 <= i < |deps| => ToIndexDependency(deps[i])),
      cksum := sha256(upload.content),
      features := map[],
      yanked := false,
      links := upload.metadata.links,
      v := Some(2),
      features2 := Some(upload.metadata.features),
      rustVersion := upload.metadata.rustVersion)
  }

  /** Every dependency of a freshly built record resolves to the crate the publisher declared, in order. */
  lemma BuiltDependenciesKeepNames(upload: CrateUploadData, sha256: seq<byte> -> string)
    ensures var r := BuildIndexData(upload, sha256);
            forall i :: 0 <= i < |r.deps| ==>
              GetName(r.deps[i]) == upload.metadata.deps[i].name
              && ToMetadataDependency(r.deps[i]) == upload.metadata.deps[i]
  {
    var r := BuildIndexData(upload, sha256);
    forall i | 0 <= i < |r.deps|
      ensures GetName(r.deps[i]) == upload.metadata.deps[i].name
      ensures ToMetadataDependency(r.deps[i]) == upload.metadata.deps[i]
    {
      RenameIsLossless(upload.metadata.deps[i]);
    }
  }

  /** `IndexCrateMetadata::get_feature`: `features2` first, `features` as the fallback. */
  function GetFeature(record: IndexCrateMetadata, feature: string): (r: Option<seq<string>>)
    ensures record.features2.Some? && feature in record.features2.value
      ==> r == Some(record.features2.value[feature])
    ensures (record.features2.None? || feature !in record.features2.value) && feature in record.features
      ==> r == Some(record.features[feature])
    ensures r.None? <==> (record.features2.None? || feature !in record.features2.value) && feature !in record.features
  {
    if record.features2.Some? && feature in record.features2.value then Some(record.features2.value[feature])
    else if feature in record.features then Some(record.features[feature])
    else None
  }

  /** On a freshly built record, a feature lookup answers from the publisher's feature table. */
  lemma BuiltFeatureLookup(upload: CrateUploadData, sha256: seq<byte> -> string, feature: string)
    ensures GetFeature(BuildIndexData(upload, sha256), feature)
            == if feature in upload.metadata.features then Some(upload.metadata.features[feature]) else None
  {
  }

  // ---------------------------------------------------------------------------
  // Dependency activation

  /** Whether a dependency is active, or the panic the `cfg(` slice causes. */
  datatype Activation = Decided(active: bool) | TargetPanic

  predicate IsCfgTarget(target: string) {
    "cfg(" <= target
  }

  /**
   * The unfinished `cfg(` branch slices off the last byte of what follows `cfg(`:
   * that panics when nothing follows or when the last character is not one byte long.
   */
  predicate CfgSlicePanics(target: string)
    requires IsCfgTarget(target)
  {
    var rest := target[4..];
    rest == [] || (rest[|rest| - 1] as int) >= 0x80
  }

  /** The target filter: `None` passes, a plain target must be active, a `cfg(` target never passes. */
  function TargetFilter(target: Option<string>, activeTargets: seq<string>): Activation {
    match target
    case None => Decided(true)
    case Some(spec) =>
      if !IsCfgTarget(spec) then Decided(spec in activeTargets)
      else if CfgSlicePanics(spec) then TargetPanic
      else Decided(false)
  }

  /** Whether one entry of the active features turns on the optional dependency `name`. */
  predicate FeatureEnables(feature: string, name: string) {
    (match StripPrefix(feature, "dep:") case Some(suffix) => name == suffix case None => false)
    || (match IndexOf(feature, '/') case Some(i) => feature[..i] == name case None => false)
  }

  /** A feature enables `name` exactly when it is `dep:name`, or `name/...` with no `/` inside `name`. */
  lemma FeatureEnablesIff(feature: string, name: string)
    ensures FeatureEnables(feature, name) <==> feature == "dep:" + name || ('/' !in name && name + "/" <= feature)
  {
    if '/' !in name && name + "/" <= feature {
      assert feature == name + ['/'] + feature[|name| + 1..];
      IndexOfAfterPrefix(name, '/', feature[|name| + 1..]);
    }
    match IndexOf(feature, '/')
    case None =>
    case Some(i) =>
      if feature[..i] == name {
        assert name + "/" == feature[..i + 1];
      }
  }

  /** Rust's `iter().any(...)` over the active features. */
  function AnyFeatureEnables(activeFeatures: seq<string>, name: string): (r: bool)
    ensures r <==> exists i :: 0 <= i < |activeFeatures| && FeatureEnables(activeFeatures[i], name)
  {
    if activeFeatures == [] then false
    else if FeatureEnables(activeFeatures[0], name) then true
    else
      var rest := AnyFeatureEnables(activeFeatures[1..], name);
      assert forall i :: 1 <= i < |activeFeatures| ==> activeFeatures[i] == activeFeatures[1..][i - 1];
      rest
  }

  /**
   * `is_active_for`: the target filter first, then non-optional dependencies are active and
   * optional ones need a feature naming them.
   */
  function IsActiveFor(dep: IndexCrateDependency, activeTargets: seq<string>, activeFeatures: seq<string>)
    : (r: Activation)
    ensures r.TargetPanic? <==> dep.target.Some? && IsCfgTarget(dep.target.value) && CfgSlicePanics(dep.target.value)
    ensures dep.target.Some? && IsCfgTarget(dep.target.value) ==> r != Decided(true)
    ensures dep.target.Some? && !IsCfgTarget(dep.target.value) && dep.target.value !in activeTargets
      ==> r == Decided(false)
    ensures dep.target.None? || (!IsCfgTarget(dep.target.value) && dep.target.value in activeTargets)
      ==> r == Decided(!dep.optional
                       || exists i :: 0 <= i < |activeFeatures| && FeatureEnables(activeFeatures[i], GetName(dep)))
  {
    match TargetFilter(dep.target, activeTargets)
    case TargetPanic => TargetPanic
    case Decided(inTargets) =>
      if !inTargets then Decided(false)
      else if !dep.optional then Decided(true)
      else Decided(AnyFeatureEnables(activeFeatures, GetName(dep)))
  }

  /** A dependency restricted to `windows` is inactive when only `linux` is active. */
  lemma WindowsDependencyOnLinux(dep: IndexCrateDependency, activeFeatures: seq<string>)
    requires dep.target == Some("windows")
    ensures IsActiveFor(dep, ["linux"], activeFeatures) == Decided(false)
  {
    assert !IsCfgTarget("windows") by {
      assert "windows"[0] != "cfg("[0];
    }
  }

  /** `serde`, optional, renamed `ser` in the manifest. */
  const AliasedSerde := CrateMetadataDependency(
    "serde", "^1.0", [], true, true, None, Normal, None, Some("ser"))

  /** The aliased optional dependency is listed as `ser`, with the real crate `serde` in `package`. */
  lemma AliasedSerdeRecord()
    ensures ToIndexDependency(AliasedSerde).name == "ser"
    ensures ToIndexDependency(AliasedSerde).package == Some("serde")
    ensures ToIndexDependency(AliasedSerde).optional
    ensures GetName(ToIndexDependency(AliasedSerde)) == "serde"
  {
  }

  /** Without any feature the aliased optional dependency stays off. */
  lemma AliasedSerdeOffByDefault()
    ensures IsActiveFor(ToIndexDependency(AliasedSerde), [], []) == Decided(false)
  {
  }

  /** `dep:serde` turns the aliased dependency on, its alias `dep:ser` does not. */
  lemma AliasedSerdeByDepFeature()
    ensures IsActiveFor(ToIndexDependency(AliasedSerde), [], ["dep:serde"]) == Decided(true)
    ensures IsActiveFor(ToIndexDependency(AliasedSerde), [], ["dep:ser"]) == Decided(false)
  {
    AliasedSerdeRecord();
    assert "dep:serde" == "dep:" + "serde";
    FeatureEnablesIff("dep:serde", "serde");
    assert FeatureEnables("dep:serde", "serde");
    assert ["dep:serde"][0] == "dep:serde";
    FeatureEnablesIff("dep:ser", "serde");
    assert "dep:ser"[0] != "serde/"[0];
    assert |"dep:ser"| != |"dep:serde"|;
    assert !FeatureEnables("dep:ser", "serde");
  }

  /** Any sub-feature of the real crate, such as `serde/derive`, turns the aliased dependency on. */
  lemma AliasedSerdeBySubFeature(subFeature: string)
    ensures IsActiveFor(ToIndexDependency(AliasedSerde), [], ["serde/" + subFeature]) == Decided(true)
  {
    AliasedSerdeRecord();
    var feature := "serde/" + subFeature;
    assert "serde" + "/" <= feature;
    FeatureEnablesIff(feature, "serde");
    assert [feature][0] == feature;
  }

  /** A non-optional dependency without a target is active whatever the targets and features. */
  lemma UnconditionalDependencyIsActive(dep: IndexCrateDependency, activeTargets: seq<string>, activeFeatures: seq<string>)
    requires dep.target.None? && !dep.optional
    ensures IsActiveFor(dep, activeTargets, activeFeatures) == Decided(true)
  {
  }
}
