/**
 * The registry's uniform error value: an HTTP status code, a message, an optional
 * detail and, for errors converted from a lower-level failure, the causal chain.
 */
module ApiErrors {
  import opened Wrappers
  import opened Text

  /** Rust's `u16`, the type of the HTTP status code. */
  type HttpCode = x: int | 0 <= x < 0x1_0000

  /** The chain of messages of a wrapped lower-level error: its own message, then those of its causes. */
  datatype SourceError = SourceError(chain: seq<string>)

  /** `backtrace` records only whether a backtrace was captured; its frames are diagnostics. */
  datatype ApiError = ApiError(
    http: HttpCode,
    message: string,
    details: Option<string>,
    source: Option<SourceError>,
    backtrace: bool)

  /** `ApiError::new`: the caller's code, message and detail, no source, a captured backtrace. */
  function New(http: HttpCode, message: string, details: Option<string>): (e: ApiError)
    ensures e.http == http && e.message == message && e.details == details
    ensures e.source.None? && e.backtrace
  {
    ApiError(http, message, details, None, true)
  }

  /** `specialize`: replaces the detail and keeps everything else, the status class above all. */
  function Specialize(original: ApiError, details: string): (e: ApiError)
    ensures e.details == Some(details)
    ensures e.http == original.http && e.message == original.message
    ensures e.source == original.source && e.backtrace == original.backtrace
  {
    original.(details := Some(details))
  }

  /** Specialising twice keeps only the last detail. */
  lemma SpecializeTwice(e: ApiError, first: string, second: string)
    ensures Specialize(Specialize(e, first), second) == Specialize(e, second)
  {
  }

  const BackendFailureMessage := "The operation failed in the backend."
  const InvalidRequestMessage := "The request could not be understood by the server."
  const UnauthorizedMessage := "User is not authenticated."
  const ForbiddenMessage := "This action is forbidden to the user."
  const NotFoundMessage := "The requested resource cannot be found."
  const ConflictMessage := "The request could not be processed because of conflict in the current state of the resource."

  function BackendFailure(): (e: ApiError)
    ensures e.http == 500 && e.details.None? && e.source.None?
  {
    New(500, BackendFailureMessage, None)
  }

  function InvalidRequest(): (e: ApiError)
    ensures e.http == 400 && e.details.None? && e.source.None?
  {
    New(400, InvalidRequestMessage, None)
  }

  function Unauthorized(): (e: ApiError)
    ensures e.http == 401 && e.details.None? && e.source.None?
  {
    New(401, UnauthorizedMessage, None)
  }

  function Forbidden(): (e: ApiError)
    ensures e.http == 403 && e.details.None? && e.source.None?
  {
    New(403, ForbiddenMessage, None)
  }

  function NotFound(): (e: ApiError)
    ensures e.http == 404 && e.details.None? && e.source.None?
  {
    New(404, NotFoundMessage, None)
  }

  /** The conflict error carries 408, not 409. */
  function Conflict(): (e: ApiError)
    ensures e.http == 408 && e.details.None? && e.source.None?
  {
    New(408, ConflictMessage, None)
  }

  /** The six error classes are told apart by their status codes alone. */
  lemma ErrorClassesDistinct()
    ensures |{BackendFailure().http, InvalidRequest().http, Unauthorized().http,
              Forbidden().http, NotFound().http, Conflict().http}| == 6
  {
  }

  /** `Clone`: the client-visible part is copied, the source and backtrace are dropped. */
  function Clone(e: ApiError): (c: ApiError)
    ensures c.http == e.http && c.message == e.message && c.details == e.details
    ensures c.source.None? && !c.backtrace
  {
    ApiError(e.http, e.message, e.details, None, false)
  }

  /** `From<E>` for any standard error: a 500 with a placeholder message that keeps the error as its source. */
  function FromError(chain: seq<string>): (e: ApiError)
    ensures e.http == 500 && e.message == "TODO: Look parent" && e.details.None?
    ensures e.source == Some(SourceError(chain)) && e.backtrace
  {
    ApiError(500, "TODO: Look parent", None, Some(SourceError(chain)), true)
  }

  /** The first line of `Display`: the message, then the detail (or nothing) in parentheses. */
  function Headline(e: ApiError): string {
    var details := match e.details case Some(d) => d case None => "";
    e.message + " (" + details + ")"
  }

  /** One `\t [idx] message` line per error of the chain, numbered from `start`. */
  function ChainLines(chain: seq<string>, start: nat): string
    decreases |chain|
  {
    if chain == [] then ""
    else "\t [" + NatToString(start) + "] " + chain[0] + "\n" + ChainLines(chain[1..], start + 1)
  }

  /** `Display for ApiError`. */
  function Display(e: ApiError): (text: string)
    ensures Headline(e) <= text
    ensures text == Headline(e) <==> e.source.None?
  {
    match e.source
    case None => Headline(e)
    case Some(src) =>
      var text := Headline(e) + "\n" + ChainLines(src.chain, 0);
      assert text[..|Headline(e)|] == Headline(e);
      text
  }

  /** The error as it is handed to code outside the HTTP layer: message and detail, no status code. */
  datatype UnApiError = UnApiError(message: string, details: Option<string>)

  /** `From<ApiError> for UnApiError`. */
  function ToUnApiError(e: ApiError): (u: UnApiError)
    ensures u.message == e.message && u.details == e.details
  {
    UnApiError(e.message, e.details)
  }

  /** `Display for UnApiError`. */
  function DisplayUnApiError(u: UnApiError): (text: string)
    ensures "UnApiError : " + u.message + "\n" <= text
    ensures u.details.None? ==> text == "UnApiError : " + u.message + "\n"
    ensures u.details.Some? ==> text == "UnApiError : " + u.message + "\n" + "\t " + u.details.value + "\n"
  {
    var head := "UnApiError : " + u.message + "\n";
    match u.details
    case None => head
    case Some(d) =>
      var text := head + "\t " + d + "\n";
      assert text[..|head|] == head;
      text
  }

  /**
   * Cloning loses only diagnostics: the client sees the same thing, the display is reduced
   * to its headline, and cloning again changes nothing.
   */
  lemma CloneKeepsClientView(e: ApiError)
    ensures ToUnApiError(Clone(e)) == ToUnApiError(e)
    ensures Display(Clone(e)) == Headline(e)
    ensures Display(Clone(e)) <= Display(e)
    ensures Clone(Clone(e)) == Clone(e)
  {
  }

  /** A specialised error handed outside the HTTP layer displays its detail on the line after its message. */
  lemma SpecializedUnApiErrorShowsDetail(e: ApiError, details: string)
    ensures DisplayUnApiError(ToUnApiError(Specialize(e, details)))
            == "UnApiError : " + e.message + "\n" + "\t " + details + "\n"
  {
  }

  /** A specialised error shows its detail in the display's headline. */
  lemma SpecializedHeadline(e: ApiError, details: string)
    ensures Headline(Specialize(e, details)) == e.message + " (" + details + ")"
    ensures ToUnApiError(Specialize(e, details)).details == Some(details)
  {
  }
}
