/**
  The API error kinds the link service raises, each an HTTP status code plus a
  human-readable detail (and optional headers, never supplied by the service).
*/
module Exceptions {
  import opened Common

  const HTTP_403_FORBIDDEN: int := 403
  const HTTP_404_NOT_FOUND: int := 404
  const HTTP_409_CONFLICT: int := 409

  /** The base `APIError`: what an HTTP layer turns into a response. */
  datatype HttpError = HttpError(statusCode: int, detail: string, headers: Option<map<string, string>>)

  /** `APIError.__init__`: headers stay `None` unless the caller passes some. */
  function MakeApiError(statusCode: int, detail: string, headers: Option<map<string, string>> := None): (e: HttpError)
    ensures e.statusCode == statusCode && e.detail == detail && e.headers == headers
  {
    HttpError(statusCode, detail, headers)
  }

  /** The subclasses of `APIError`, with the argument each one embeds. */
  datatype ApiError =
    | LinkNotFoundError
    | NonUniqueAliasError(alias: string)
    | NonUniqueShortCodeError(code: string)
    | PermissionDenied
    | UrlAlreadyExists(url: string)
    | AliasLengthError(rejected: string)

  const ALIAS_LENGTH_DETAIL: string := "Alias length must be between 4 and 16 symbols"

  /** The fixed status code and detail each subclass passes to `APIError`. */
  function ToHttp(e: ApiError): (h: HttpError)
    ensures h.headers == None
    ensures h.statusCode == (match e
      case LinkNotFoundError => HTTP_404_NOT_FOUND
      case PermissionDenied => HTTP_403_FORBIDDEN
      case _ => HTTP_409_CONFLICT)
    ensures h.detail == (match e
      case LinkNotFoundError => "Link not found"
      case NonUniqueAliasError(alias) => "Alias '" + alias + "' already exists"
      case NonUniqueShortCodeError(code) => "Short code '" + code + "' already exists"
      case PermissionDenied => "You cannot manage this link."
      case UrlAlreadyExists(url) => "URL '" + url + "' already has been shorten"
      case AliasLengthError(_) => ALIAS_LENGTH_DETAIL)
  {
    match e
    case LinkNotFoundError => MakeApiError(HTTP_404_NOT_FOUND, "Link not found")
    case NonUniqueAliasError(alias) => MakeApiError(HTTP_409_CONFLICT, "Alias '" + alias + "' already exists")
    case NonUniqueShortCodeError(code) => MakeApiError(HTTP_409_CONFLICT, "Short code '" + code + "' already exists")
    case PermissionDenied => MakeApiError(HTTP_403_FORBIDDEN, "You cannot manage this link.")
    case UrlAlreadyExists(url) => MakeApiError(HTTP_409_CONFLICT, "URL '" + url + "' already has been shorten")
    case AliasLengthError(_) => MakeApiError(HTTP_409_CONFLICT, ALIAS_LENGTH_DETAIL)
  }

  /** The alias-length detail is the same whatever alias was rejected. */
  lemma AliasLengthDetailFixed(a: string, b: string)
    ensures ToHttp(AliasLengthError(a)) == ToHttp(AliasLengthError(b))
    ensures ToHttp(AliasLengthError(a)).detail == ALIAS_LENGTH_DETAIL
  {
  }

  /** `s` is `pre + x + post`; recover `x` from the two fixed ends. */
  lemma {:induction false} Middle(pre: string, x: string, post: string, s: string)
    requires s == pre + x + post
    ensures x == s[|pre|..|s| - |post|]
  {
    assert s[|pre|..|s| - |post|] == (pre + x + post)[|pre|..|pre| + |x|];
  }

  /** The characters that set the 409 details apart: the first one, and the seventh. */
  lemma DetailMarks(e: ApiError)
    ensures var d := ToHttp(e).detail;
      && (e.NonUniqueAliasError? ==> d[0] == 'A' && d[6] == '\'')
      && (e.AliasLengthError? ==> d[0] == 'A' && d[6] == 'l')
      && (e.NonUniqueShortCodeError? ==> d[0] == 'S')
      && (e.UrlAlreadyExists? ==> d[0] == 'U')
  {
    AliasLengthDetailMarks();
  }

  lemma AliasLengthDetailMarks()
    ensures |ALIAS_LENGTH_DETAIL| > 6 && ALIAS_LENGTH_DETAIL[0] == 'A' && ALIAS_LENGTH_DETAIL[6] == 'l'
  {
    assert ALIAS_LENGTH_DETAIL == ['A'] + ALIAS_LENGTH_DETAIL[1..];
  }

  /**
    Callers can tell every error apart from its status code and detail alone,
    except two alias-length errors, whose detail does not name the alias.
  */
  lemma {:induction false} ErrorsDistinguishable(e1: ApiError, e2: ApiError)
    requires ToHttp(e1) == ToHttp(e2)
    ensures e1 == e2 || (e1.AliasLengthError? && e2.AliasLengthError?)
  {
    DetailMarks(e1);
    DetailMarks(e2);
    var d1, d2 := ToHttp(e1).detail, ToHttp(e2).detail;
    match e1
    case NonUniqueAliasError(a) =>
      if e2.NonUniqueAliasError? {
        Middle("Alias '", a, "' already exists", d1);
        Middle("Alias '", e2.alias, "' already exists", d2);
      }
    case NonUniqueShortCodeError(c) =>
      if e2.NonUniqueShortCodeError? {
        Middle("Short code '", c, "' already exists", d1);
        Middle("Short code '", e2.code, "' already exists", d2);
      }
    case UrlAlreadyExists(u) =>
      if e2.UrlAlreadyExists? {
        Middle("URL '", u, "' already has been shorten", d1);
        Middle("URL '", e2.url, "' already has been shorten", d2);
      }
    case _ =>
  }
}
