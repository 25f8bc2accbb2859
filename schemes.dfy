/**
  The request validators run on the shorten and update payloads before the
  service sees them. The URL-validity check of the `validators` package is a
  foreign predicate; it is passed in as `isUrl`.
*/
module Schemes {
  import opened Common
  import opened PyStrings
  import opened Models

  const HTTP_PREFIX: string := "http://"
  const HTTPS_PREFIX: string := "https://"

  const WRONG_URL: string := "Wrong URL"
  const ALIAS_LENGTH_MESSAGE: string := "Alias length must be between 4 and 16 symbols"
  const EXPIRES_IN_PAST: string := "Expires date must be in the future"

  const MIN_ALIAS_LENGTH: int := 4
  const MAX_ALIAS_LENGTH: int := 16

  /** `value.startswith(('http://', 'https://'))` */
  predicate HasScheme(value: string) {
    StartsWith(value, HTTP_PREFIX) || StartsWith(value, HTTPS_PREFIX)
  }

  /** The scheme heuristic: prefix `http://` unless either scheme is already there. */
  function WithScheme(value: string): (r: string)
    ensures HasScheme(r)
    ensures HasScheme(value) ==> r == value
    ensures !HasScheme(value) ==> r == HTTP_PREFIX + value
  {
    if HasScheme(value) then value else
      assert (HTTP_PREFIX + value)[..|HTTP_PREFIX|] == HTTP_PREFIX;
      HTTP_PREFIX + value
  }

  /** `validate_long_url`: prefix the scheme, then reject what `isUrl` refuses. */
  function ValidateLongUrl(value: string, isUrl: string -> bool): (r: Result<string, string>)
    ensures r.Ok? <==> isUrl(WithScheme(value))
    ensures r.Ok? ==> r.value == WithScheme(value) && HasScheme(r.value)
    ensures r.Err? ==> r.error == WRONG_URL
  {
    var v := WithScheme(value);
    if !isUrl(v) then Err(WRONG_URL) else Ok(v)
  }

  /** An accepted URL passes validation again unchanged. */
  lemma ValidateLongUrlIdempotent(value: string, isUrl: string -> bool)
    requires ValidateLongUrl(value, isUrl).Ok?
    ensures ValidateLongUrl(ValidateLongUrl(value, isUrl).value, isUrl) == ValidateLongUrl(value, isUrl)
  {
  }

  /** `validate_custom_alias`: `None` passes; any other alias needs length 4 to 16. */
  function ValidateCustomAlias(value: Option<string>): (r: Result<Option<string>, string>)
    ensures r.Ok? <==> (value.None? || MIN_ALIAS_LENGTH <= |value.value| <= MAX_ALIAS_LENGTH)
    ensures r.Ok? ==> r.value == value
    ensures r.Err? ==> r.error == ALIAS_LENGTH_MESSAGE
  {
    if value.Some? && (|value.value| < MIN_ALIAS_LENGTH || |value.value| > MAX_ALIAS_LENGTH)
    then Err(ALIAS_LENGTH_MESSAGE)
    else Ok(value)
  }

  /**
    `round_to_minute`: zero seconds and microseconds, then refuse a rounded value
    earlier than the current instant `now` (itself not rounded).
  */
  function ValidateExpiresAt(value: Option<int>, now: int): (r: Result<Option<int>, string>)
    ensures value.None? ==> r == Ok(None)
    ensures value.Some? ==> (r.Ok? <==> RoundToMinute(value.value) >= now)
    ensures r.Ok? && value.Some? ==> r.value == Some(RoundToMinute(value.value))
    ensures r.Err? ==> r.error == EXPIRES_IN_PAST
  {
    match value
    case None => Ok(None)
    case Some(t) =>
      var rounded := RoundToMinute(t);
      if rounded < now then Err(EXPIRES_IN_PAST) else Ok(Some(rounded))
  }

  /** An accepted expiry is a whole minute and validates again unchanged. */
  lemma ValidateExpiresAtIdempotent(value: Option<int>, now: int)
    requires ValidateExpiresAt(value, now).Ok?
    ensures var v := ValidateExpiresAt(value, now).value;
      (v.Some? ==> v.value % MICROS_PER_MINUTE == 0) && ValidateExpiresAt(v, now) == Ok(v)
  {
    if value.Some? {
      RoundToMinuteIdempotent(value.value);
    }
  }

  /**
    Rounding happens before the future-only check, so an expiry later than `now`
    but inside the minute that holds `now` is refused (unless `now` is itself a
    whole minute).
  */
  lemma ExpiryInCurrentMinuteRefused(t: int, now: int)
    requires now < t && RoundToMinute(t) == RoundToMinute(now) && RoundToMinute(now) < now
    ensures ValidateExpiresAt(Some(t), now) == Err(EXPIRES_IN_PAST)
  {
  }

  /** The validated body of a shorten request. */
  datatype CreateLinkRequest = CreateLinkRequest(originalUrl: string, customAlias: Option<string>, expiresAt: Option<int>)

  /** The validated body of an update request: no alias field. */
  datatype UpdateLinkRequest = UpdateLinkRequest(originalUrl: string, expiresAt: Option<int>)

  /** The messages of the validators that failed, in field order. */
  function Failures(checks: seq<Result<bool, string>>): (errors: seq<string>)
    ensures |errors| <= |checks|
    ensures errors == [] <==> forall i :: 0 <= i < |checks| ==> checks[i].Ok?
  {
    if checks == [] then []
    else (if checks[0].Err? then [checks[0].error] else []) + Failures(checks[1..])
  }

  function Check<T>(r: Result<T, string>): Result<bool, string> {
    if r.Ok? then Ok(true) else Err(r.error)
  }

  /** The message a validator contributes: its error when it fails, nothing when it passes. */
  function Message<T>(r: Result<T, string>): seq<string> {
    if r.Err? then [r.error] else []
  }

  /**
    Builds a CreateLinkRequest: every field validator runs and the request is
    accepted only when all of them pass; otherwise every failure is reported.
  */
  function ValidateCreateLinkRequest(originalUrl: string, customAlias: Option<string>, expiresAt: Option<int>,
                                     isUrl: string -> bool, now: int): (r: Result<CreateLinkRequest, seq<string>>)
    ensures r.Ok? <==> ValidateLongUrl(originalUrl, isUrl).Ok? && ValidateCustomAlias(customAlias).Ok?
                       && ValidateExpiresAt(expiresAt, now).Ok?
    ensures r.Ok? ==> (r.value.originalUrl == ValidateLongUrl(originalUrl, isUrl).value
                       && HasScheme(r.value.originalUrl)
                       && r.value.customAlias == customAlias
                       && r.value.expiresAt == ValidateExpiresAt(expiresAt, now).value)
    ensures r.Err? ==> 1 <= |r.error| <= 3
    ensures r.Err? ==> r.error == Message(ValidateLongUrl(originalUrl, isUrl)) + Message(ValidateCustomAlias(customAlias))
                                  + Message(ValidateExpiresAt(expiresAt, now))
  {
    var url, alias, exp := ValidateLongUrl(originalUrl, isUrl), ValidateCustomAlias(customAlias), ValidateExpiresAt(expiresAt, now);
    if url.Ok? && alias.Ok? && exp.Ok? then Ok(CreateLinkRequest(url.value, alias.value, exp.value))
    else
      var checks := [Check(url), Check(alias), Check(exp)];
      assert checks[0].Err? || checks[1].Err? || checks[2].Err?;
      assert Failures(checks) == Message(url) + Message(alias) + Message(exp) by {
        assert checks[1..][1..] == [Check(exp)] && checks[1..][1..][1..] == [];
        assert Failures(checks[1..][1..]) == Message(exp) + Failures([]);
        assert Failures(checks[1..]) == Message(alias) + Message(exp);
      }
      Err(Failures(checks))
  }

  /** Builds an UpdateLinkRequest with the same URL and expiry rules as a shorten request. */
  function ValidateUpdateLinkRequest(originalUrl: string, expiresAt: Option<int>,
                                     isUrl: string -> bool, now: int): (r: Result<UpdateLinkRequest, seq<string>>)
    ensures r.Ok? <==> ValidateLongUrl(originalUrl, isUrl).Ok? && ValidateExpiresAt(expiresAt, now).Ok?
    ensures r.Ok? ==> (r.value.originalUrl == ValidateLongUrl(originalUrl, isUrl).value
                       && HasScheme(r.value.originalUrl)
                       && r.value.expiresAt == ValidateExpiresAt(expiresAt, now).value)
    ensures r.Err? ==> 1 <= |r.error| <= 2
    ensures r.Err? ==> r.error == Message(ValidateLongUrl(originalUrl, isUrl)) + Message(ValidateExpiresAt(expiresAt, now))
  {
    var url, exp := ValidateLongUrl(originalUrl, isUrl), ValidateExpiresAt(expiresAt, now);
    if url.Ok? && exp.Ok? then Ok(UpdateLinkRequest(url.value, exp.value))
    else
      var checks := [Check(url), Check(exp)];
      assert checks[0].Err? || checks[1].Err?;
      assert Failures(checks) == Message(url) + Message(exp) by {
        assert checks[1..][1..] == [];
        assert Failures(checks[1..]) == Message(exp) + Failures([]);
      }
      Err(Failures(checks))
  }

  /** An update is accepted exactly when a shorten request with the same URL, expiry and no alias is. */
  lemma UpdateRulesMatchCreate(originalUrl: string, expiresAt: Option<int>, isUrl: string -> bool, now: int)
    ensures var u := ValidateUpdateLinkRequest(originalUrl, expiresAt, isUrl, now);
            var c := ValidateCreateLinkRequest(originalUrl, None, expiresAt, isUrl, now);
            (u.Ok? <==> c.Ok?) && (u.Ok? ==> u.value.originalUrl == c.value.originalUrl && u.value.expiresAt == c.value.expiresAt)
  {
  }
}
