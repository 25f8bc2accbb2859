/**
  The link service: create, read, update and delete links against the session,
  with URL and short-code uniqueness, owner checks, hash-derived short codes with
  a bounded re-hash on collision, and cache invalidation after mutations.

  Queries the service sends to the database are pure functions of the rows the
  session sees; the operations that write are methods of LinkService.
*/
module Service {
  import opened Common
  import opened PyStrings
  import opened Models
  import opened Exceptions
  import opened Schemes
  import opened Utils
  import opened CacheBackend
  import Store

  /** The configuration values the service reads. */
  datatype Settings = Settings(
    linkTtlInDays: nat,
    codeGenerationAttempts: nat,
    codeGenerationSecret: string,
    shortCodeLength: nat)

  /** Length of a SHA-1 hex digest. */
  const SHA1_HEX_LENGTH: nat := 40

  /** A lower-case hexadecimal digit, as `hexdigest()` writes them. */
  predicate IsHexDigit(c: char) {
    '0' <= c <= '9' || 'a' <= c <= 'f'
  }

  /** The digest function writes hexadecimal text only, as SHA-1's `hexdigest()` does. */
  ghost predicate HexDigest(sha1Hex: string -> string) {
    forall s, k :: 0 <= k < |sha1Hex(s)| ==> IsHexDigit(sha1Hex(s)[k])
  }

  /** What the service can raise. */
  datatype ServiceError =
    | Api(error: ApiError)
    | CannotCreateShortLink   // ValueError("Cannot create short link")
    | DatabaseError           // a failed commit, re-raised after the rollback
    | NoneHasNoStrip          // AttributeError: an empty long_url becomes None, then `.strip()` is called on it
    | MultipleResultsFound    // `scalar_one_or_none()` over more than one row

  // ---------------------------------------------------------------------------
  // Queries

  /** `_get_link_by_short_code`: exact match on the stripped code. */
  function FindByShortCode(rows: map<string, Link>, shortCode: string): (r: Option<Link>)
    requires KeyedByCode(rows)
    ensures r.Some? <==> Strip(shortCode) in rows
    ensures r.Some? ==> r.value == rows[Strip(shortCode)] && r.value.shortCode == Strip(shortCode)
  {
    var code := Strip(shortCode);
    if code in rows then Some(rows[code]) else None
  }

  /** `get` and `get_stats`: the link under the stripped code, or LinkNotFoundError. */
  function Get(rows: map<string, Link>, shortCode: string): (r: Result<Link, ApiError>)
    requires KeyedByCode(rows)
    ensures r.Err? <==> Strip(shortCode) !in rows
    ensures r.Err? ==> r.error == LinkNotFoundError
    ensures r.Ok? ==> r.value in rows.Values && r.value.shortCode == Strip(shortCode)
    ensures r.Ok? ==> r.value == rows[Strip(shortCode)]
  {
    match FindByShortCode(rows, shortCode)
    case None => Err(LinkNotFoundError)
    case Some(link) => Ok(link)
  }

  /** `_is_short_code_unique`: no row carries exactly this code (no stripping). */
  predicate IsShortCodeUnique(rows: map<string, Link>, shortCode: string)
    requires KeyedByCode(rows)
  {
    shortCode !in rows
  }

  /** `_short_code_unique_or_raise`: NonUniqueShortCodeError for a taken code. */
  function ShortCodeUniqueOrRaise(rows: map<string, Link>, shortCode: string): (raised: Option<ApiError>)
    requires KeyedByCode(rows)
    ensures raised.None? <==> forall c :: c in rows ==> rows[c].shortCode != shortCode
    ensures raised.Some? ==> raised.value == NonUniqueShortCodeError(shortCode)
  {
    if IsShortCodeUnique(rows, shortCode) then None else Some(NonUniqueShortCodeError(shortCode))
  }

  /**
    `_url_unique_or_raise`: UrlAlreadyExists when a row holds the stripped URL
    (the error names the URL as passed); more than one such row makes
    `scalar_one_or_none` raise instead.
  */
  function UrlUniqueOrRaise(rows: map<string, Link>, url: string): (raised: Option<ServiceError>)
    ensures raised.None? <==> forall c :: c in rows ==> rows[c].longUrl != Strip(url)
    ensures UniqueUrls(rows) && raised.Some? ==> raised.value == Api(UrlAlreadyExists(url))
  {
    var matches := RowsWithUrl(rows, Strip(url));
    assert UniqueUrls(rows) ==> |matches| <= 1 by {
      if UniqueUrls(rows) {
        UniqueUrlsAtMostOne(rows, Strip(url));
      }
    }
    if matches == {} then None
    else if |matches| == 1 then Some(Api(UrlAlreadyExists(url)))
    else Some(MultipleResultsFound)
  }

  /** `_alias_unique_or_raise`: uniqueness is checked before length. */
  function AliasUniqueOrRaise(rows: map<string, Link>, alias: string): (raised: Option<ServiceError>)
    requires KeyedByCode(rows)
    ensures raised.None? <==> alias !in rows && MIN_ALIAS_LENGTH <= |alias| <= MAX_ALIAS_LENGTH
    ensures alias in rows ==> raised == Some(Api(NonUniqueAliasError(alias)))
    ensures alias !in rows && raised.Some? ==> raised.value == Api(AliasLengthError(alias))
  {
    if !IsShortCodeUnique(rows, alias) then Some(Api(NonUniqueAliasError(alias)))
    else if |alias| > MAX_ALIAS_LENGTH || |alias| < MIN_ALIAS_LENGTH then Some(Api(AliasLengthError(alias)))
    else None
  }

  // ---------------------------------------------------------------------------
  // Short-code generation

  /**
    `_generate_short_code`: the hex digest of `seed`, cut to `length` characters
    (Python slicing: shorter digests are kept whole).
  */
  function GenerateShortCode(sha1Hex: string -> string, length: nat, seed: string): (code: string)
    ensures |code| <= |sha1Hex(seed)| && code == sha1Hex(seed)[..|code|]
    ensures |sha1Hex(seed)| >= length ==> |code| == length
    ensures |sha1Hex(seed)| < length ==> code == sha1Hex(seed)
  {
    var digest := sha1Hex(seed);
    if length <= |digest| then digest[..length] else digest
  }

  /** The `i`-th code create tries: the URL's code, then each previous code plus the secret, re-hashed. */
  function Candidate(settings: Settings, sha1Hex: string -> string, longUrl: string, i: nat): string {
    if i == 0 then GenerateShortCode(sha1Hex, settings.shortCodeLength, longUrl)
    else GenerateShortCode(sha1Hex, settings.shortCodeLength,
                           Candidate(settings, sha1Hex, longUrl, i - 1) + settings.codeGenerationSecret)
  }

  /** Every candidate from `from` up to, not including, `to` is taken. */
  ghost predicate AllTaken(rows: map<string, Link>, settings: Settings, sha1Hex: string -> string,
                           longUrl: string, from: nat, to: nat) {
    forall j: nat :: from <= j < to ==> Candidate(settings, sha1Hex, longUrl, j) in rows
  }

  /** The index of the first free code among candidates `i` to `codeGenerationAttempts`, if any. */
  function FirstFreeIndex(rows: map<string, Link>, settings: Settings, sha1Hex: string -> string,
                          longUrl: string, i: nat): Option<nat>
    decreases settings.codeGenerationAttempts + 1 - i
  {
    if i > settings.codeGenerationAttempts then None
    else if Candidate(settings, sha1Hex, longUrl, i) !in rows then Some(i)
    else FirstFreeIndex(rows, settings, sha1Hex, longUrl, i + 1)
  }

  /**
    The code generation picks the earliest free candidate among the first
    `1 + codeGenerationAttempts`, and fails only when every one of them is taken.
  */
  lemma {:induction false} FirstFreeIndexSound(rows: map<string, Link>, settings: Settings,
                                               sha1Hex: string -> string, longUrl: string, i: nat)
    ensures var k := FirstFreeIndex(rows, settings, sha1Hex, longUrl, i);
      && (k.Some? ==> && i <= k.value <= settings.codeGenerationAttempts
                      && Candidate(settings, sha1Hex, longUrl, k.value) !in rows
                      && AllTaken(rows, settings, sha1Hex, longUrl, i, k.value))
      && (k.None? <==> AllTaken(rows, settings, sha1Hex, longUrl, i, settings.codeGenerationAttempts + 1))
    decreases settings.codeGenerationAttempts + 1 - i
  {
    if i > settings.codeGenerationAttempts {
    } else if Candidate(settings, sha1Hex, longUrl, i) !in rows {
      assert !AllTaken(rows, settings, sha1Hex, longUrl, i, settings.codeGenerationAttempts + 1);
    } else {
      FirstFreeIndexSound(rows, settings, sha1Hex, longUrl, i + 1);
    }
  }

  /** With a digest at least `shortCodeLength` long (SHA-1 hex has 40 characters), every candidate has exactly that length. */
  lemma CandidateLength(settings: Settings, sha1Hex: string -> string, longUrl: string, i: nat)
    requires forall s :: |sha1Hex(s)| == SHA1_HEX_LENGTH
    requires settings.shortCodeLength <= SHA1_HEX_LENGTH
    ensures |Candidate(settings, sha1Hex, longUrl, i)| == settings.shortCodeLength
  {
  }

  /** Under a hexadecimal digest every candidate code is hexadecimal, hence its own strip. */
  lemma CandidateIsHex(settings: Settings, sha1Hex: string -> string, longUrl: string, i: nat)
    requires HexDigest(sha1Hex)
    ensures var c := Candidate(settings, sha1Hex, longUrl, i);
      (forall k :: 0 <= k < |c| ==> IsHexDigit(c[k])) && Strip(c) == c
  {
    var c := Candidate(settings, sha1Hex, longUrl, i);
    var seed := if i == 0 then longUrl else Candidate(settings, sha1Hex, longUrl, i - 1) + settings.codeGenerationSecret;
    CodeIsHex(sha1Hex, settings.shortCodeLength, seed);
    HexIsStripped(c);
  }

  /** A code cut from a hexadecimal digest is hexadecimal. */
  lemma CodeIsHex(sha1Hex: string -> string, length: nat, seed: string)
    requires HexDigest(sha1Hex)
    ensures var c := GenerateShortCode(sha1Hex, length, seed);
      forall k :: 0 <= k < |c| ==> IsHexDigit(c[k])
  {
    var c := GenerateShortCode(sha1Hex, length, seed);
    forall k | 0 <= k < |c|
      ensures IsHexDigit(c[k])
    {
      assert c[k] == sha1Hex(seed)[k];
    }
  }

  /** Hexadecimal text has no whitespace to strip. */
  lemma HexIsStripped(c: string)
    requires forall k :: 0 <= k < |c| ==> IsHexDigit(c[k])
    ensures Strip(c) == c
  {
    if c != [] {
      assert IsHexDigit(c[0]) && IsHexDigit(c[|c| - 1]);
      assert !IsSpace(c[0]) && !IsSpace(c[|c| - 1]);
    }
    StripFixedPoint(c);
  }

  /**
    The retry loop of `create`: try the URL's code, then re-hash the previous
    code plus the secret up to `codeGenerationAttempts` times, stopping at the
    first code no row carries.
  */
  method GenerateUniqueShortCode(rows: map<string, Link>, settings: Settings, sha1Hex: string -> string, longUrl: string)
    returns (code: string, unique: bool)
    ensures unique <==> FirstFreeIndex(rows, settings, sha1Hex, longUrl, 0).Some?
    ensures unique ==> code == Candidate(settings, sha1Hex, longUrl, FirstFreeIndex(rows, settings, sha1Hex, longUrl, 0).value)
    ensures unique ==> code !in rows
  {
    code := GenerateShortCode(sha1Hex, settings.shortCodeLength, longUrl);
    unique := code !in rows;
    if !unique {
      var i := 0;
      while i < settings.codeGenerationAttempts && !unique
        invariant 0 <= i <= settings.codeGenerationAttempts
        invariant code == Candidate(settings, sha1Hex, longUrl, i)
        invariant unique <==> code !in rows
        invariant FirstFreeIndex(rows, settings, sha1Hex, longUrl, 0)
                  == if unique then Some(i) else FirstFreeIndex(rows, settings, sha1Hex, longUrl, i + 1)
      {
        code := GenerateShortCode(sha1Hex, settings.shortCodeLength, code + settings.codeGenerationSecret);
        unique := code !in rows;
        i := i + 1;
      }
    }
  }

  // ---------------------------------------------------------------------------
  // Create

  /** `custom_alias.strip() if custom_alias else None` */
  function StrippedAlias(customAlias: Option<string>): Option<string> {
    if customAlias.Some? && customAlias.value != "" then Some(Strip(customAlias.value)) else None
  }

  /**
    The short code `create` inserts, or the error it raises before writing:
    URL uniqueness first, then either the custom alias (uniqueness, then length)
    or the generated code.
  */
  function CreatePlan(rows: map<string, Link>, settings: Settings, sha1Hex: string -> string,
                      longUrl: string, customAlias: Option<string>): (r: Result<string, ServiceError>)
    requires KeyedByCode(rows)
    ensures r.Ok? ==> r.value !in rows
  {
    if longUrl == "" then Err(NoneHasNoStrip)
    else
      var url := Strip(longUrl);
      var urlCheck := UrlUniqueOrRaise(rows, url);
      if urlCheck.Some? then Err(urlCheck.value)
      else CodePlan(rows, settings, sha1Hex, url, StrippedAlias(customAlias))
  }

  /** The code create settles on once the URL is known to be free: the alias if one is given, else a generated one. */
  function CodePlan(rows: map<string, Link>, settings: Settings, sha1Hex: string -> string,
                    url: string, alias: Option<string>): (r: Result<string, ServiceError>)
    requires KeyedByCode(rows)
    ensures r.Ok? ==> r.value !in rows
  {
    if alias.Some? && alias.value != "" then
      var aliasCheck := AliasUniqueOrRaise(rows, alias.value);
      if aliasCheck.Some? then Err(aliasCheck.value) else Ok(alias.value)
    else
      FirstFreeIndexSound(rows, settings, sha1Hex, url, 0);
      match FirstFreeIndex(rows, settings, sha1Hex, url, 0)
      case None => Err(CannotCreateShortLink)
      case Some(k) => Ok(Candidate(settings, sha1Hex, url, k))
  }

  /** With a free URL, create's plan is the code plan for the stripped URL and alias. */
  lemma FreeUrlPlan(rows: map<string, Link>, settings: Settings, sha1Hex: string -> string,
                    longUrl: string, customAlias: Option<string>)
    requires KeyedByCode(rows)
    requires longUrl != "" && forall c :: c in rows ==> rows[c].longUrl != Strip(longUrl)
    ensures CreatePlan(rows, settings, sha1Hex, longUrl, customAlias)
            == CodePlan(rows, settings, sha1Hex, Strip(longUrl), StrippedAlias(customAlias))
  {
    StripIdempotent(longUrl);
    assert UrlUniqueOrRaise(rows, Strip(longUrl)) == None;
  }

  /** A URL already stored makes create fail with UrlAlreadyExists, whatever alias is given. */
  lemma CreateChecksUrlFirst(rows: map<string, Link>, settings: Settings, sha1Hex: string -> string,
                             longUrl: string, customAlias: Option<string>, taken: string)
    requires KeyedByCode(rows) && UniqueUrls(rows)
    requires longUrl != "" && taken in rows && rows[taken].longUrl == Strip(longUrl)
    ensures CreatePlan(rows, settings, sha1Hex, longUrl, customAlias) == Err(Api(UrlAlreadyExists(Strip(longUrl))))
  {
    StripIdempotent(longUrl);
    assert UrlUniqueOrRaise(rows, Strip(longUrl)) == Some(Api(UrlAlreadyExists(Strip(longUrl))));
  }

  /**
    With a free URL and a non-blank alias: a taken alias gives NonUniqueAliasError
    (whatever its length), else a length outside [4, 16] gives AliasLengthError,
    else the stripped alias becomes the short code.
  */
  lemma CreateWithAlias(rows: map<string, Link>, settings: Settings, sha1Hex: string -> string,
                        longUrl: string, alias: string)
    requires KeyedByCode(rows)
    requires longUrl != "" && forall c :: c in rows ==> rows[c].longUrl != Strip(longUrl)
    requires Strip(alias) != ""
    ensures var r := CreatePlan(rows, settings, sha1Hex, longUrl, Some(alias));
      && (Strip(alias) in rows ==> r == Err(Api(NonUniqueAliasError(Strip(alias)))))
      && (Strip(alias) !in rows && !(MIN_ALIAS_LENGTH <= |Strip(alias)| <= MAX_ALIAS_LENGTH) ==>
            r == Err(Api(AliasLengthError(Strip(alias)))))
      && (Strip(alias) !in rows && MIN_ALIAS_LENGTH <= |Strip(alias)| <= MAX_ALIAS_LENGTH ==> r == Ok(Strip(alias)))
  {
    var a := Strip(alias);
    FreeUrlPlan(rows, settings, sha1Hex, longUrl, Some(alias));
    assert StrippedAlias(Some(alias)) == Some(a);
    AliasPlan(rows, settings, sha1Hex, Strip(longUrl), a);
  }

  /** The code plan for a non-blank alias: taken, then too short or too long, else the alias itself. */
  lemma AliasPlan(rows: map<string, Link>, settings: Settings, sha1Hex: string -> string, url: string, a: string)
    requires KeyedByCode(rows) && a != ""
    ensures var r := CodePlan(rows, settings, sha1Hex, url, Some(a));
      && (a in rows ==> r == Err(Api(NonUniqueAliasError(a))))
      && (a !in rows && !(MIN_ALIAS_LENGTH <= |a| <= MAX_ALIAS_LENGTH) ==> r == Err(Api(AliasLengthError(a))))
      && (a !in rows && MIN_ALIAS_LENGTH <= |a| <= MAX_ALIAS_LENGTH ==> r == Ok(a))
  {
  }

  /**
    With a free URL and no alias (or a blank one), create uses the earliest free
    candidate code, and raises "Cannot create short link" when all are taken.
  */
  lemma CreateWithGeneratedCode(rows: map<string, Link>, settings: Settings, sha1Hex: string -> string,
                                longUrl: string, customAlias: Option<string>)
    requires KeyedByCode(rows)
    requires longUrl != "" && forall c :: c in rows ==> rows[c].longUrl != Strip(longUrl)
    requires customAlias.None? || Strip(customAlias.value) == ""
    ensures var r := CreatePlan(rows, settings, sha1Hex, longUrl, customAlias);
            var first := FirstFreeIndex(rows, settings, sha1Hex, Strip(longUrl), 0);
      && (first.None? ==> r == Err(CannotCreateShortLink))
      && (first.Some? ==> r == Ok(Candidate(settings, sha1Hex, Strip(longUrl), first.value)))
  {
    FreeUrlPlan(rows, settings, sha1Hex, longUrl, customAlias);
    var alias := StrippedAlias(customAlias);
    assert alias.None? || alias.value == "";
  }

  /** The row create adds keeps long URLs unique. */
  lemma CreateKeepsUrlsUnique(rows: map<string, Link>, settings: Settings, sha1Hex: string -> string,
                              longUrl: string, customAlias: Option<string>, link: Link)
    requires KeyedByCode(rows) && UniqueUrls(rows)
    requires CreatePlan(rows, settings, sha1Hex, longUrl, customAlias).Ok?
    requires link.longUrl == Strip(longUrl)
    ensures UniqueUrls(rows[CreatePlan(rows, settings, sha1Hex, longUrl, customAlias).value := link])
  {
    StripIdempotent(longUrl);
    assert longUrl != "" && UrlUniqueOrRaise(rows, Strip(longUrl)).None?;
    var code := CreatePlan(rows, settings, sha1Hex, longUrl, customAlias).value;
    var rows' := rows[code := link];
    forall a, b | a in rows' && b in rows' && rows'[a].longUrl == rows'[b].longUrl
      ensures a == b
    {
      assert a != code ==> rows'[a] == rows[a];
      assert b != code ==> rows'[b] == rows[b];
    }
  }

  /** Under a hexadecimal digest the code create plans is its own strip, alias or generated alike. */
  lemma PlannedCodeStripped(rows: map<string, Link>, settings: Settings, sha1Hex: string -> string,
                            longUrl: string, customAlias: Option<string>)
    requires KeyedByCode(rows) && HexDigest(sha1Hex)
    requires CreatePlan(rows, settings, sha1Hex, longUrl, customAlias).Ok?
    ensures var code := CreatePlan(rows, settings, sha1Hex, longUrl, customAlias).value;
      Strip(code) == code
  {
    StripIdempotent(longUrl);
    assert longUrl != "" && UrlUniqueOrRaise(rows, Strip(longUrl)).None?;
    FreeUrlPlan(rows, settings, sha1Hex, longUrl, customAlias);
    var alias := StrippedAlias(customAlias);
    if alias.Some? {
      StripIdempotent(customAlias.value);
    }
    CodePlanStripped(rows, settings, sha1Hex, Strip(longUrl), alias);
  }

  /** A stripped alias or a hexadecimal candidate: either way the planned code is its own strip. */
  lemma CodePlanStripped(rows: map<string, Link>, settings: Settings, sha1Hex: string -> string,
                         url: string, alias: Option<string>)
    requires KeyedByCode(rows) && HexDigest(sha1Hex)
    requires alias.Some? ==> Strip(alias.value) == alias.value
    requires CodePlan(rows, settings, sha1Hex, url, alias).Ok?
    ensures var code := CodePlan(rows, settings, sha1Hex, url, alias).value;
      Strip(code) == code
  {
    if !(alias.Some? && alias.value != "") {
      var k := FirstFreeIndex(rows, settings, sha1Hex, url, 0).value;
      CandidateIsHex(settings, sha1Hex, url, k);
    }
  }

  /**
    The round trip of create and get: the row create adds under its planned code
    is what a lookup of that code returns.
  */
  lemma CreateThenGet(rows: map<string, Link>, settings: Settings, sha1Hex: string -> string,
                      longUrl: string, customAlias: Option<string>, link: Link)
    requires KeyedByCode(rows) && HexDigest(sha1Hex)
    requires CreatePlan(rows, settings, sha1Hex, longUrl, customAlias).Ok?
    requires link.shortCode == CreatePlan(rows, settings, sha1Hex, longUrl, customAlias).value
    ensures KeyedByCode(rows[link.shortCode := link])
    ensures Get(rows[link.shortCode := link], link.shortCode) == Ok(link)
  {
    PlannedCodeStripped(rows, settings, sha1Hex, longUrl, customAlias);
    PutStrippedThenGet(rows, link);
  }

  /** A row stored under its own, already stripped, code is what a lookup of that code returns. */
  lemma PutStrippedThenGet(rows: map<string, Link>, link: Link)
    requires KeyedByCode(rows) && Strip(link.shortCode) == link.shortCode
    ensures KeyedByCode(rows[link.shortCode := link])
    ensures Get(rows[link.shortCode := link], link.shortCode) == Ok(link)
  {
    var rows' := rows[link.shortCode := link];
    assert Strip(link.shortCode) in rows' && rows'[Strip(link.shortCode)] == link;
  }

  // ---------------------------------------------------------------------------
  // Update and delete

  /** The lookup and owner check shared by update and delete. */
  function FindOwnedLink(rows: map<string, Link>, shortCode: string, userId: int): (r: Result<Link, ApiError>)
    requires KeyedByCode(rows)
    ensures Strip(shortCode) !in rows ==> r == Err(LinkNotFoundError)
    ensures Strip(shortCode) in rows && rows[Strip(shortCode)].authorId != Some(userId) ==> r == Err(PermissionDenied)
    ensures r.Ok? ==> Strip(shortCode) in rows && r.value == rows[Strip(shortCode)]
                      && r.value.shortCode == Strip(shortCode) && r.value.authorId == Some(userId)
    ensures Strip(shortCode) in rows && rows[Strip(shortCode)].authorId == Some(userId) ==> r == Ok(rows[Strip(shortCode)])
  {
    match FindByShortCode(rows, shortCode)
    case None => Err(LinkNotFoundError)
    case Some(link) => if link.authorId != Some(userId) then Err(PermissionDenied) else Ok(link)
  }

  /** A link created anonymously can be neither updated nor deleted by anyone. */
  lemma AnonymousLinksUnmanageable(rows: map<string, Link>, shortCode: string, userId: int)
    requires KeyedByCode(rows)
    requires Strip(shortCode) in rows && rows[Strip(shortCode)].authorId == None
    ensures FindOwnedLink(rows, shortCode, userId) == Err(PermissionDenied)
  {
  }

  /**
    The row `update` writes, or the error it raises before writing: the URL is
    replaced (after a uniqueness check) only when it differs; the expiry is
    replaced; `updated_at` is refreshed only when some column changed.
  */
  function UpdatePlan(rows: map<string, Link>, shortCode: string, userId: int, model: UpdateLinkRequest, now: int)
    : (r: Result<Link, ServiceError>)
    requires KeyedByCode(rows)
    ensures FindOwnedLink(rows, shortCode, userId).Err? ==> r == Err(Api(FindOwnedLink(rows, shortCode, userId).error))
    ensures r.Ok? <==> FindOwnedLink(rows, shortCode, userId).Ok?
                       && (FindOwnedLink(rows, shortCode, userId).value.longUrl == model.originalUrl
                           || forall c :: c in rows ==> rows[c].longUrl != Strip(model.originalUrl))
    ensures r.Ok? ==> var before := rows[Strip(shortCode)];
      && Strip(shortCode) in rows
      && r.value == before.(longUrl := model.originalUrl, expiresAt := model.expiresAt, updatedAt := r.value.updatedAt)
      && (before.longUrl == model.originalUrl && before.expiresAt == model.expiresAt ==> r.value.updatedAt == before.updatedAt)
      && (before.longUrl != model.originalUrl || before.expiresAt != model.expiresAt ==> r.value.updatedAt == RoundToMinute(now))
      && (before.longUrl != model.originalUrl ==> forall c :: c in rows ==> rows[c].longUrl != Strip(model.originalUrl))
  {
    match FindOwnedLink(rows, shortCode, userId)
    case Err(e) => Err(Api(e))
    case Ok(link) =>
      var urlChanged := link.longUrl != model.originalUrl;
      var check := if urlChanged then UrlUniqueOrRaise(rows, model.originalUrl) else None;
      if check.Some? then Err(check.value)
      else
        var changed := urlChanged || link.expiresAt != model.expiresAt;
        Ok(link.(longUrl := model.originalUrl, expiresAt := model.expiresAt,
                 updatedAt := if changed then RoundToMinute(now) else link.updatedAt))
  }

  /** A new URL already stored elsewhere makes update fail, and so does the link's own URL given with padding. */
  lemma UpdateRejectsTakenUrl(rows: map<string, Link>, shortCode: string, userId: int, model: UpdateLinkRequest,
                              now: int, taken: string)
    requires KeyedByCode(rows) && UniqueUrls(rows)
    requires FindOwnedLink(rows, shortCode, userId).Ok?
    requires FindOwnedLink(rows, shortCode, userId).value.longUrl != model.originalUrl
    requires taken in rows && rows[taken].longUrl == Strip(model.originalUrl)
    ensures UpdatePlan(rows, shortCode, userId, model, now) == Err(Api(UrlAlreadyExists(model.originalUrl)))
  {
  }

  /** The row update writes keeps long URLs unique when the new URL carries no surrounding whitespace. */
  lemma UpdateKeepsUrlsUnique(rows: map<string, Link>, shortCode: string, userId: int, model: UpdateLinkRequest, now: int)
    requires KeyedByCode(rows) && UniqueUrls(rows)
    requires UpdatePlan(rows, shortCode, userId, model, now).Ok?
    requires Strip(model.originalUrl) == model.originalUrl
    ensures var l := UpdatePlan(rows, shortCode, userId, model, now).value;
      UniqueUrls(rows[l.shortCode := l])
  {
    var l := UpdatePlan(rows, shortCode, userId, model, now).value;
    var before := rows[l.shortCode];
    if before.longUrl == model.originalUrl {
      forall c | c in rows && c != l.shortCode
        ensures rows[c].longUrl != l.longUrl
      {
        assert rows[c].longUrl == before.longUrl ==> c == l.shortCode;
      }
    }
    PutFreeUrlKeepsUnique(rows, l.shortCode, l);
  }

  /** Writing a row whose URL no other row holds keeps long URLs unique. */
  lemma PutFreeUrlKeepsUnique(rows: map<string, Link>, code: string, l: Link)
    requires UniqueUrls(rows)
    requires forall c :: c in rows && c != code ==> rows[c].longUrl != l.longUrl
    ensures UniqueUrls(rows[code := l])
  {
    var rows' := rows[code := l];
    forall a, b | a in rows' && b in rows' && rows'[a].longUrl == rows'[b].longUrl
      ensures a == b
    {
      assert a != code ==> rows'[a] == rows[a];
      assert b != code ==> rows'[b] == rows[b];
    }
  }

  /**
    The statement `delete` issues, as written: it removes the row whose code is
    exactly the argument, without the stripping the lookup applies.
  */
  function DeleteStatementAsWritten(rows: map<string, Link>, shortCode: string): (rows': map<string, Link>)
    ensures rows'.Keys == rows.Keys - {shortCode}
    ensures forall c :: c in rows' ==> rows'[c] == rows[c]
  {
    rows - {shortCode}
  }

  /**
    A code with leading whitespace finds the row and passes the owner check,
    yet the delete statement as written keeps that row.
  */
  lemma PaddedDeleteKeepsRow()
    ensures var link := Link(1, "abcd", "http://a.example/x", 0, Some(7), 0, 0, None, None);
            var rows := map["abcd" := link];
      && KeyedByCode(rows)
      && FindOwnedLink(rows, " abcd", 7) == Ok(link)
      && "abcd" in DeleteStatementAsWritten(rows, " abcd")
  {
    var link := Link(1, "abcd", "http://a.example/x", 0, Some(7), 0, 0, None, None);
    var rows := map["abcd" := link];
    PaddedCodeStrips();
    assert KeyedByCode(rows);
    assert FindByShortCode(rows, " abcd") == Some(link);
    assert |" abcd"| != |"abcd"|;
  }

  lemma PaddedCodeStrips()
    ensures Strip(" abcd") == "abcd"
  {
    assert " abcd"[1..] == "abcd" && IsSpace(" abcd"[0]);
    assert "abcd"[0] == 'a' && "abcd"[3] == 'd';
    TrimLeftFixed("abcd");
    assert TrimLeft(" abcd") == "abcd";
    TrimRightFixed("abcd");
  }

  // ---------------------------------------------------------------------------
  // Search by URL

  /** The URLs `find_by_long_url` looks for: the stripped input, plus both schemes when the input has none. */
  function SearchCandidates(longUrl: string): (urls: seq<string>)
    ensures |urls| >= 1 && urls[0] == Strip(longUrl)
    ensures HasScheme(longUrl) ==> urls == [Strip(longUrl)]
    ensures !HasScheme(longUrl) ==> urls == [Strip(longUrl), HTTPS_PREFIX + Strip(longUrl), HTTP_PREFIX + Strip(longUrl)]
  {
    var url := Strip(longUrl);
    if HasScheme(longUrl) then [url] else [url, HTTPS_PREFIX + url, HTTP_PREFIX + url]
  }

  /** The codes of the rows whose URL is one of `urls`. */
  function RowsWithAnyUrl(rows: map<string, Link>, urls: seq<string>): (codes: set<string>)
    ensures forall c :: c in codes <==> c in rows && rows[c].longUrl in urls
  {
    set c | c in rows && rows[c].longUrl in urls
  }

  /**
    `find_by_long_url` as written: one query for all candidates, read with
    `scalar_one_or_none`, which raises when two rows match.
  */
  ghost function FindByLongUrlAsWritten(rows: map<string, Link>, longUrl: string): (r: Result<Link, ServiceError>)
    ensures r.Ok? ==> r.value in rows.Values && r.value.longUrl in SearchCandidates(longUrl)
    ensures r == Err(Api(LinkNotFoundError)) <==> RowsWithAnyUrl(rows, SearchCandidates(longUrl)) == {}
    ensures |RowsWithAnyUrl(rows, SearchCandidates(longUrl))| == 1 ==> r.Ok?
    ensures |RowsWithAnyUrl(rows, SearchCandidates(longUrl))| >= 2 ==> r == Err(MultipleResultsFound)
  {
    var matches := RowsWithAnyUrl(rows, SearchCandidates(longUrl));
    if matches == {} then Err(Api(LinkNotFoundError))
    else if |matches| == 1 then var c :| c in matches; Ok(rows[c])
    else Err(MultipleResultsFound)
  }

  lemma BareHostStripped()
    ensures Strip("a.example") == "a.example"
  {
    var host := "a.example";
    assert !IsSpace(host[0]) && !IsSpace(host[|host| - 1]);
    TrimLeftFixed(host);
    TrimRightFixed(host);
  }


  /** A bare host name is searched under itself and both schemes. */
  lemma BareHostCandidates()
    ensures SearchCandidates("a.example") == ["a.example", HTTPS_PREFIX + "a.example", HTTP_PREFIX + "a.example"]
  {
    BareHostStripped();
    assert !HasScheme("a.example") by {
      assert "a.example"[0] == 'a';
    }
  }

  /** Two stored links whose URLs differ only in the scheme. */
  const SCHEME_PAIR: map<string, Link> := map[
    "aaaa" := Link(1, "aaaa", "http://a.example", 0, None, 0, 0, None, None),
    "bbbb" := Link(2, "bbbb", "https://a.example", 0, None, 0, 0, None, None)]

  /** Nothing stops the service from storing both (URL uniqueness is on the exact string). */
  lemma SchemePairStorable()
    ensures KeyedByCode(SCHEME_PAIR) && UniqueUrls(SCHEME_PAIR)
  {
    assert "aaaa"[0] != "bbbb"[0];
    assert "http://a.example"[4] != "https://a.example"[4];
  }

  lemma SchemePairBothMatch()
    ensures RowsWithAnyUrl(SCHEME_PAIR, SearchCandidates("a.example")) == {"aaaa", "bbbb"}
  {
    var urls := SearchCandidates("a.example");
    SchemePairCandidates();
    PairMatchesBoth(urls);
  }

  /** The bare host's candidates include both stored URLs. */
  lemma SchemePairCandidates()
    ensures var urls := SearchCandidates("a.example");
      |urls| == 3 && urls[1] == SCHEME_PAIR["bbbb"].longUrl && urls[2] == SCHEME_PAIR["aaaa"].longUrl
  {
    BareHostCandidates();
    SchemeForms();
  }

  /** The two scheme forms of the host are the two stored URLs. */
  lemma SchemeForms()
    ensures HTTPS_PREFIX + "a.example" == SCHEME_PAIR["bbbb"].longUrl
    ensures HTTP_PREFIX + "a.example" == SCHEME_PAIR["aaaa"].longUrl
  {
  }

  /** A candidate list holding both stored URLs matches both rows. */
  lemma PairMatchesBoth(urls: seq<string>)
    requires |urls| == 3 && urls[1] == SCHEME_PAIR["bbbb"].longUrl && urls[2] == SCHEME_PAIR["aaaa"].longUrl
    ensures RowsWithAnyUrl(SCHEME_PAIR, urls) == {"aaaa", "bbbb"}
  {
    var matches := RowsWithAnyUrl(SCHEME_PAIR, urls);
    assert "aaaa" in matches && "bbbb" in matches;
    assert matches <= SCHEME_PAIR.Keys == {"aaaa", "bbbb"};
  }

  /**
    Two links whose URLs differ only in the scheme are both allowed, yet a
    scheme-less search for them raises instead of returning a link.
  */
  lemma SchemelessSearchRaises()
    ensures KeyedByCode(SCHEME_PAIR) && UniqueUrls(SCHEME_PAIR)
    ensures FindByLongUrlAsWritten(SCHEME_PAIR, "a.example") == Err(MultipleResultsFound)
  {
    SchemePairStorable();
    SchemePairBothMatch();
    TwoCodes();
    var matches := RowsWithAnyUrl(SCHEME_PAIR, SearchCandidates("a.example"));
    assert matches != {} && |matches| != 1;
  }

  /** The two codes of the scheme pair are distinct, so the pair's match set has two elements. */
  lemma TwoCodes()
    ensures |{"aaaa", "bbbb"}| == 2
  {
    assert "aaaa"[0] != "bbbb"[0];
  }

  /** The row holding `url`, when there is one. */
  ghost function RowWithUrl(rows: map<string, Link>, url: string): (r: Option<Link>)
    requires UniqueUrls(rows)
    ensures r.Some? <==> RowsWithUrl(rows, url) != {}
    ensures r.Some? ==> r.value in rows.Values && r.value.longUrl == url
  {
    if RowsWithUrl(rows, url) == {} then None
    else var c :| c in RowsWithUrl(rows, url); Some(rows[c])
  }

  /** The first of `urls`, in order, that some row holds, with that row. */
  ghost function FirstMatch(rows: map<string, Link>, urls: seq<string>): (r: Option<Link>)
    requires UniqueUrls(rows)
    ensures r.None? <==> RowsWithAnyUrl(rows, urls) == {}
    ensures r.Some? ==> r.value in rows.Values && r.value.longUrl in urls
    ensures r.Some? ==> exists k :: 0 <= k < |urls| && urls[k] == r.value.longUrl
                                    && forall j :: 0 <= j < k ==> RowsWithUrl(rows, urls[j]) == {}
  {
    if urls == [] then None
    else match RowWithUrl(rows, urls[0])
      case Some(link) => Some(link)
      case None =>
        var rest := FirstMatch(rows, urls[1..]);
        if rest.Some? then
          EarliestShifts(rows, urls, rest.value.longUrl);
          rest
        else
          NoMatchShifts(rows, urls);
          rest
  }

  /** A URL earliest in the tail, behind a head no row holds, is earliest in the whole list. */
  lemma EarliestShifts(rows: map<string, Link>, urls: seq<string>, url: string)
    requires urls != [] && RowsWithUrl(rows, urls[0]) == {}
    requires exists k :: 0 <= k < |urls[1..]| && urls[1..][k] == url
                         && forall j :: 0 <= j < k ==> RowsWithUrl(rows, urls[1..][j]) == {}
    ensures exists k :: 0 <= k < |urls| && urls[k] == url
                        && forall j :: 0 <= j < k ==> RowsWithUrl(rows, urls[j]) == {}
  {
    var k :| 0 <= k < |urls[1..]| && urls[1..][k] == url
             && forall j :: 0 <= j < k ==> RowsWithUrl(rows, urls[1..][j]) == {};
    assert urls[k + 1] == url;
    forall j | 0 <= j < k + 1
      ensures RowsWithUrl(rows, urls[j]) == {}
    {
      if j > 0 {
        assert urls[j] == urls[1..][j - 1];
      }
    }
  }

  /** No row holds the head nor any URL of the tail, so none holds any URL of the list. */
  lemma NoMatchShifts(rows: map<string, Link>, urls: seq<string>)
    requires urls != [] && RowsWithUrl(rows, urls[0]) == {} && RowsWithAnyUrl(rows, urls[1..]) == {}
    ensures RowsWithAnyUrl(rows, urls) == {}
  {
    forall c | c in rows
      ensures rows[c].longUrl !in urls
    {
      assert rows[c].longUrl != urls[0] && rows[c].longUrl !in urls[1..];
      assert urls == [urls[0]] + urls[1..];
    }
  }

  /**
    `find_by_long_url` as evidently intended: the link holding the first
    candidate URL that matches, or LinkNotFoundError when none does; it never
    raises for several matches.
  */
  ghost function FindByLongUrl(rows: map<string, Link>, longUrl: string): (r: Result<Link, ServiceError>)
    requires UniqueUrls(rows)
    ensures r.Err? <==> RowsWithAnyUrl(rows, SearchCandidates(longUrl)) == {}
    ensures r.Err? ==> r.error == Api(LinkNotFoundError)
    ensures r.Ok? ==> r.value in rows.Values && r.value.longUrl in SearchCandidates(longUrl)
    ensures r.Ok? && RowsWithUrl(rows, Strip(longUrl)) != {} ==> r.value.longUrl == Strip(longUrl)
  {
    var candidates := SearchCandidates(longUrl);
    match FirstMatch(rows, candidates)
    case None => Err(Api(LinkNotFoundError))
    case Some(link) =>
      assert RowsWithUrl(rows, Strip(longUrl)) != {} ==> link.longUrl == Strip(longUrl) by {
        if RowsWithUrl(rows, Strip(longUrl)) != {} {
          var k :| 0 <= k < |candidates| && candidates[k] == link.longUrl
                   && forall j :: 0 <= j < k ==> RowsWithUrl(rows, candidates[j]) == {};
          assert k == 0;
        }
      }
      Ok(link)
  }

  // ---------------------------------------------------------------------------
  // Listings

  /** Newest `created_at` first. */
  ghost predicate NewestFirst(links: seq<Link>) {
    forall i, j :: 0 <= i < j < |links| ==> links[i].createdAt >= links[j].createdAt
  }

  /** Insert `link` into a newest-first list, before the first link not newer than it. */
  function InsertNewestFirst(links: seq<Link>, link: Link): (r: seq<Link>)
    ensures |r| == |links| + 1
    ensures multiset(r) == multiset(links) + multiset{link}
  {
    if links == [] || links[0].createdAt <= link.createdAt then [link] + links
    else
      assert links == [links[0]] + links[1..];
      [links[0]] + InsertNewestFirst(links[1..], link)
  }

  /** Insertion adds exactly `link` to the members. */
  lemma InsertMembers(links: seq<Link>, link: Link)
    ensures forall x :: x in InsertNewestFirst(links, link) <==> x in links || x == link
  {
    var r := InsertNewestFirst(links, link);
    forall x ensures x in r <==> x in links || x == link {
      assert x in r <==> x in multiset(r);
      assert x in links <==> x in multiset(links);
    }
  }

  /** Inserting keeps every `created_at` under a bound both inputs respect. */
  lemma {:induction false} InsertBelow(links: seq<Link>, link: Link, bound: int)
    requires forall k :: 0 <= k < |links| ==> links[k].createdAt <= bound
    requires link.createdAt <= bound
    ensures forall x :: x in InsertNewestFirst(links, link) ==> x.createdAt <= bound
  {
    var r := InsertNewestFirst(links, link);
    if links == [] || links[0].createdAt <= link.createdAt {
      assert r == [link] + links;
      forall k | 0 <= k < |r| ensures r[k].createdAt <= bound {
        if k > 0 {
          assert r[k] == links[k - 1];
        }
      }
    } else {
      var rest := InsertNewestFirst(links[1..], link);
      InsertBelow(links[1..], link, bound);
      assert r == [links[0]] + rest;
      forall k | 0 <= k < |r| ensures r[k].createdAt <= bound {
        if k > 0 {
          assert r[k] == rest[k - 1];
          assert rest[k - 1].createdAt <= bound;
        } else {
          assert r[0] == links[0];
        }
      }
    }
  }

  /** A link no older than anything in a newest-first list can go in front of it. */
  lemma ConsNewestFirst(head: Link, tail: seq<Link>)
    requires NewestFirst(tail)
    requires forall x :: x in tail ==> x.createdAt <= head.createdAt
    ensures NewestFirst([head] + tail)
  {
    var r := [head] + tail;
    forall i, j | 0 <= i < j < |r| ensures r[i].createdAt >= r[j].createdAt {
      assert r[j] == tail[j - 1] && r[j] in tail;
      if i > 0 {
        assert r[i] == tail[i - 1];
      }
    }
  }

  /** Insertion keeps a list newest-first. */
  lemma {:induction false} InsertKeepsNewestFirst(links: seq<Link>, link: Link)
    requires NewestFirst(links)
    ensures NewestFirst(InsertNewestFirst(links, link))
  {
    if links == [] || links[0].createdAt <= link.createdAt {
      forall x | x in links ensures x.createdAt <= link.createdAt {
        var k :| 0 <= k < |links| && links[k] == x;
        assert links[0].createdAt >= links[k].createdAt;
      }
      ConsNewestFirst(link, links);
    } else {
      InsertKeepsNewestFirst(links[1..], link);
      InsertBelow(links[1..], link, links[0].createdAt);
      ConsNewestFirst(links[0], InsertNewestFirst(links[1..], link));
    }
  }

  /** The codes of the rows an author owns. */
  function CodesOf(rows: map<string, Link>, userId: int): (codes: set<string>)
    ensures forall c :: c in codes <==> c in rows && rows[c].authorId == Some(userId)
  {
    set c | c in rows && rows[c].authorId == Some(userId)
  }

  // ---------------------------------------------------------------------------
  // The service over a session

  class LinkService {
    const session: Store.Session
    const settings: Settings
    /** The SHA-1 hex digest of a string's UTF-8 bytes. */
    const sha1Hex: string -> string

    ghost predicate Valid()
      reads session
    {
      session.Valid() && HexDigest(sha1Hex)
    }

    constructor (session: Store.Session, settings: Settings, sha1Hex: string -> string)
      requires HexDigest(sha1Hex)
      ensures this.session == session && this.settings == settings && this.sha1Hex == sha1Hex
    {
      this.session := session;
      this.settings := settings;
      this.sha1Hex := sha1Hex;
    }

    /**
      `create`: strip the inputs, check the URL, then take the alias or generate a
      code, then insert and commit. Nothing is written unless every check passes;
      a failed commit is rolled back and re-raised; on success exactly one row,
      under a code no row had, is added.
    */
    method Create(longUrl: string, customAlias: Option<string>, expiresAt: Option<int>, user: Option<int>,
                  now: int, commitOk: bool) returns (r: Result<Link, ServiceError>)
      requires Valid() && session.Clean()
      modifies session
      ensures Valid() && session.Clean()
      ensures var plan := CreatePlan(old(session.rows), settings, sha1Hex, longUrl, customAlias);
        && (plan.Err? ==> r == Err(plan.error) && session.rows == old(session.rows))
        && (plan.Ok? && !commitOk ==> r == Err(DatabaseError) && session.rows == old(session.rows))
        && (plan.Ok? && commitOk ==>
              && r == Ok(NewLink(plan.value, Strip(longUrl), user, expiresAt, now).(id := old(session.nextId)))
              && plan.value !in old(session.rows)
              && session.rows == old(session.rows)[plan.value := r.value]
              && |session.rows| == |old(session.rows)| + 1)
      ensures UniqueUrls(old(session.rows)) ==> UniqueUrls(session.rows)
      ensures r.Ok? ==> r.value.longUrl == Strip(longUrl) && Get(session.rows, r.value.shortCode) == Ok(r.value)
    {
      var plan := ChooseShortCode(session.view, longUrl, customAlias);
      if plan.Err? {
        return Err(plan.error);
      }
      var rows := session.view;
      r := Insert(NewLink(plan.value, Strip(longUrl), user, expiresAt, now), commitOk);
      if r.Ok? {
        CreateThenGet(rows, settings, sha1Hex, longUrl, customAlias, r.value);
        if UniqueUrls(rows) {
          CreateKeepsUrlsUnique(rows, settings, sha1Hex, longUrl, customAlias, r.value);
        }
      }
    }

    /**
      The checks of `create` in their order, ending in the short code to insert:
      the URL must be free, then a non-blank alias must be free and of a valid
      length, else a free code is generated.
    */
    method ChooseShortCode(rows: map<string, Link>, longUrl: string, customAlias: Option<string>)
      returns (plan: Result<string, ServiceError>)
      requires KeyedByCode(rows)
      ensures plan == CreatePlan(rows, settings, sha1Hex, longUrl, customAlias)
    {
      if longUrl == "" {
        return Err(NoneHasNoStrip);
      }
      var url := Strip(longUrl);
      var alias := StrippedAlias(customAlias);
      var urlCheck := UrlUniqueOrRaise(rows, url);
      if urlCheck.Some? {
        return Err(urlCheck.value);
      }
      if alias.Some? && alias.value != "" {
        var aliasCheck := AliasUniqueOrRaise(rows, alias.value);
        if aliasCheck.Some? {
          return Err(aliasCheck.value);
        }
        return Ok(alias.value);
      }
      var shortCode, unique := GenerateUniqueShortCode(rows, settings, sha1Hex, url);
      if !unique {
        return Err(CannotCreateShortLink);
      }
      plan := Ok(shortCode);
    }

    /** `session.add(link)` then `commit()`; a failed commit is rolled back and re-raised. */
    method Insert(link: Link, commitOk: bool) returns (r: Result<Link, ServiceError>)
      requires Valid() && session.Clean() && link.shortCode !in session.rows
      modifies session
      ensures Valid() && session.Clean()
      ensures !commitOk ==> r == Err(DatabaseError) && session.rows == old(session.rows)
      ensures commitOk ==> && r == Ok(link.(id := old(session.nextId)))
                           && session.rows == old(session.rows)[link.shortCode := r.value]
    {
      var stored := session.Add(link);
      var committed := session.Commit(commitOk);
      if !committed {
        session.Rollback();
        return Err(DatabaseError);
      }
      r := Ok(stored);
    }

    /**
      `delete`: owner-checked; removes the row found and nothing else, swallows a
      failed commit (the row then stays), and in every case that passed the checks
      invalidates the cache for the link's code and URL and returns the link.
    */
    method Delete(shortCode: string, userId: int, cache: Cache, commitOk: bool) returns (r: Result<Link, ServiceError>)
      requires Valid() && session.Clean()
      modifies session, cache
      ensures Valid() && session.Clean()
      ensures var found := FindOwnedLink(old(session.rows), shortCode, userId);
        && (found.Err? ==> r == Err(Api(found.error)) && session.rows == old(session.rows)
                           && cache.entries == old(cache.entries) && cache.log == old(cache.log))
        && (found.Ok? ==>
              && r == Ok(found.value)
              && session.rows == (if commitOk then old(session.rows) - {found.value.shortCode} else old(session.rows))
              && cache.entries == old(cache.entries) - InvalidatedKeys(Some(found.value.shortCode), Some(found.value.longUrl))
              && cache.log == old(cache.log) + InvalidationCalls(Some(found.value.shortCode), Some(found.value.longUrl)))
      ensures UniqueUrls(old(session.rows)) ==> UniqueUrls(session.rows)
    {
      var found := FindOwnedLink(session.view, shortCode, userId);
      if found.Err? {
        return Err(Api(found.error));
      }
      var link := found.value;
      var originalUrl := link.longUrl;
      session.Delete(link.shortCode);
      var committed := session.Commit(commitOk);
      if !committed {
        session.Rollback();
      }
      InvalidateCache(cache, Some(link.shortCode), Some(originalUrl));
      r := Ok(link);
    }

    /**
      `update`: owner-checked; writes the planned row and commits, then
      invalidates the cache for the code as given and the new URL only. On any
      error the table and the cache are unchanged; a failed commit is re-raised.
    */
    method Update(shortCode: string, userId: int, model: UpdateLinkRequest, cache: Cache, now: int, commitOk: bool)
      returns (r: Result<Link, ServiceError>)
      requires Valid() && session.Clean()
      modifies session, cache
      ensures Valid() && session.Clean()
      ensures var plan := UpdatePlan(old(session.rows), shortCode, userId, model, now);
        && (plan.Err? || !commitOk ==>
              && r == (if plan.Err? then Err(plan.error) else Err(DatabaseError))
              && session.rows == old(session.rows)
              && cache.entries == old(cache.entries) && cache.log == old(cache.log))
        && (plan.Ok? && commitOk ==>
              && r == Ok(plan.value)
              && session.rows == old(session.rows)[plan.value.shortCode := plan.value]
              && cache.entries == old(cache.entries) - InvalidatedKeys(Some(shortCode), Some(model.originalUrl))
              && cache.log == old(cache.log) + InvalidationCalls(Some(shortCode), Some(model.originalUrl)))
      ensures UniqueUrls(old(session.rows)) && Strip(model.originalUrl) == model.originalUrl ==> UniqueUrls(session.rows)
    {
      ghost var before := session.rows;
      var plan := UpdatePlan(session.view, shortCode, userId, model, now);
      if plan.Err? {
        return Err(plan.error);
      }
      var link := plan.value;
      var originalUrl := link.longUrl;
      var committed := Save(link, commitOk);
      if !committed {
        return Err(DatabaseError);
      }
      if UniqueUrls(before) && Strip(model.originalUrl) == model.originalUrl {
        UpdateKeepsUrlsUnique(before, shortCode, userId, model, now);
      }
      InvalidateCache(cache, Some(shortCode), Some(originalUrl));
      r := Ok(link);
    }

    /**
      Write the field changes of a loaded row and commit; a failed commit is
      rolled back (the caller re-raises).
    */
    method Save(link: Link, commitOk: bool) returns (committed: bool)
      requires Valid() && session.Clean()
      requires link.shortCode in session.rows && link.id == session.rows[link.shortCode].id
      modifies session
      ensures Valid() && session.Clean()
      ensures committed == commitOk
      ensures session.rows == if commitOk then old(session.rows)[link.shortCode := link] else old(session.rows)
    {
      session.Put(link);
      committed := session.Commit(commitOk);
      if !committed {
        session.Rollback();
      }
    }

    /**
      `increment_counter`: on a present code, one more redirect, last used (and,
      through the column's on-update default, updated) at `now` rounded to the
      minute; on an absent code, nothing at all.
    */
    method IncrementCounter(shortCode: string, now: int)
      requires Valid() && session.Clean()
      modifies session
      ensures Valid() && session.Clean()
      ensures Strip(shortCode) !in old(session.rows) ==> session.rows == old(session.rows) && session.log == old(session.log)
      ensures Strip(shortCode) in old(session.rows) ==>
        var before := old(session.rows)[Strip(shortCode)];
        session.rows == old(session.rows)[Strip(shortCode) := before.(
          redirectCounter := before.redirectCounter + 1,
          lastUsedAt := Some(RoundToMinute(now)),
          updatedAt := RoundToMinute(now))]
      ensures UniqueUrls(old(session.rows)) ==> UniqueUrls(session.rows)
    {
      var found := FindByShortCode(session.view, shortCode);
      if found.Some? {
        var link := found.value;
        var _ := Save(link.(redirectCounter := link.redirectCounter + 1,
                            lastUsedAt := Some(RoundToMinute(now)),
                            updatedAt := RoundToMinute(now)), true);
      }
    }

    /** `get_all_redirect_links`: every row, each exactly once, in no particular order. */
    method GetAllRedirectLinks() returns (links: seq<Link>)
      requires Valid()
      ensures forall l :: l in links <==> l in session.view.Values
      ensures |links| == |session.view|
    {
      links := Store.SelectRows(session.view, session.view.Keys);
      forall l ensures l in links <==> l in session.view.Values {
        if l in session.view.Values {
          var c :| c in session.view && session.view[c] == l;
        }
      }
      assert |session.view.Keys| == |session.view|;
    }

    /** `get_links_by_author`: the author's rows, each exactly once, newest first. */
    method GetLinksByAuthor(userId: int) returns (links: seq<Link>)
      requires Valid()
      ensures forall l :: l in links <==> l in session.view.Values && l.authorId == Some(userId)
      ensures |links| == |CodesOf(session.view, userId)|
      ensures NewestFirst(links)
    {
      var rows := session.view;
      var remaining := rows.Keys;
      ghost var found: set<string> := {};
      links := [];
      while remaining != {}
        invariant remaining <= rows.Keys
        invariant forall c :: c in found <==> c in rows && c !in remaining && rows[c].authorId == Some(userId)
        invariant forall l :: l in links <==> l.shortCode in found && rows[l.shortCode] == l
        invariant |links| == |found|
        invariant NewestFirst(links)
        decreases remaining
      {
        var code :| code in remaining;
        if rows[code].authorId == Some(userId) {
          InsertKeepsNewestFirst(links, rows[code]);
          InsertMembers(links, rows[code]);
          links := InsertNewestFirst(links, rows[code]);
          assert code !in found;
          found := found + {code};
        }
        remaining := remaining - {code};
      }
      assert found == CodesOf(rows, userId);
    }
  }
}
