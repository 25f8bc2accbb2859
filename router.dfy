/**
  The HTTP endpoints built on the service: the redirect, which answers from the
  cache when it can and fills it when it cannot, the short URL handed back on
  create, and the stats projection of a link.
*/
module Router {
  import opened Common
  import opened PyStrings
  import opened Models
  import opened Exceptions
  import opened Schemes
  import opened Utils
  import opened CacheBackend
  import Store
  import Service

  /** The router's path prefix, followed by the separating slash. */
  const LINKS_SEGMENT: string := "/links/"

  /** `status_code=302` of the redirect response. */
  const HTTP_302_FOUND: int := 302

  /** `expire=5*60`: seconds a redirect target stays cached. */
  const REDIRECT_CACHE_SECONDS: int := 5 * 60

  /** A `RedirectResponse`. */
  datatype Redirect = Redirect(url: string, statusCode: int)

  /** `ShortenLinkResponse`: the public URL of the new link. */
  datatype ShortenLinkResponse = ShortenLinkResponse(link: string)

  /**
    `StatsLinkResponse`. The two datetimes stay as instants; their rendering with
    `strftime` is not modelled.
  */
  datatype StatsLinkResponse = StatsLinkResponse(
    originalUrl: string,
    creationDatetime: int,
    redirectAmount: nat,
    lastUsedDatetime: Option<int>)

  // ---------------------------------------------------------------------------
  // Short URLs

  /** `f"{str(request.base_url).rstrip('/')}/links/{short_code}"` */
  function ShortLinkUrl(baseUrl: string, shortCode: string): (url: string)
    ensures |url| >= |LINKS_SEGMENT| + |shortCode|
    ensures url[|url| - |shortCode|..] == shortCode
    ensures url[|url| - |shortCode| - |LINKS_SEGMENT|..|url| - |shortCode|] == LINKS_SEGMENT
    ensures var base := url[..|url| - |shortCode| - |LINKS_SEGMENT|];
      && StartsWith(baseUrl, base)
      && (base == [] || base[|base| - 1] != '/')
      && forall i :: |base| <= i < |baseUrl| ==> baseUrl[i] == '/'
  {
    var base := RStrip(baseUrl, '/');
    var url := base + LINKS_SEGMENT + shortCode;
    assert url[..|base|] == base;
    assert url[|base|..|base| + |LINKS_SEGMENT|] == LINKS_SEGMENT;
    assert url[|url| - |shortCode|..] == shortCode;
    url
  }

  /** A base URL with or without its trailing slash gives the same short URL. */
  lemma {:induction false} ShortLinkUrlIgnoresTrailingSlash(baseUrl: string, shortCode: string)
    ensures ShortLinkUrl(baseUrl + "/", shortCode) == ShortLinkUrl(baseUrl, shortCode)
  {
    RStripAppend(baseUrl, '/');
  }

  /** Different codes under the same base URL give different short URLs. */
  lemma ShortLinkUrlInjective(baseUrl: string, a: string, b: string)
    requires ShortLinkUrl(baseUrl, a) == ShortLinkUrl(baseUrl, b)
    ensures a == b
  {
    var base := RStrip(baseUrl, '/') + LINKS_SEGMENT;
    assert ShortLinkUrl(baseUrl, a) == base + a;
    assert ShortLinkUrl(baseUrl, b) == base + b;
    assert a == (base + a)[|base|..];
    assert b == (base + b)[|base|..];
  }

  /** The test client's base URL `http://test/` and the code `abcd`. */
  lemma ShortLinkUrlExample()
    ensures ShortLinkUrl("http://test/", "abcd") == "http://test/links/abcd"
  {
    assert RStrip("http://test/", '/') == "http://test" by {
      assert "http://test/" == "http://test" + "/";
      RStripAppend("http://test", '/');
    }
  }

  /**
    `shorten_link`: create the link from the validated request and answer with
    its short URL; every error of create propagates.
  */
  method ShortenLink(service: Service.LinkService, baseUrl: string, model: CreateLinkRequest, user: Option<int>,
                     now: int, commitOk: bool) returns (r: Result<ShortenLinkResponse, Service.ServiceError>)
    requires service.Valid() && service.session.Clean()
    modifies service.session
    ensures service.Valid() && service.session.Clean()
    ensures var plan := Service.CreatePlan(old(service.session.rows), service.settings, service.sha1Hex,
                                           model.originalUrl, model.customAlias);
      && (r.Ok? <==> plan.Ok? && commitOk)
      && (r.Ok? ==> r.value.link == ShortLinkUrl(baseUrl, plan.value) && plan.value in service.session.rows)
      && (r.Err? ==> service.session.rows == old(service.session.rows))
  {
    var created := service.Create(model.originalUrl, model.customAlias, model.expiresAt, user, now, commitOk);
    match created
    case Err(e) =>
      r := Err(e);
    case Ok(link) =>
      r := Ok(ShortenLinkResponse(ShortLinkUrl(baseUrl, link.shortCode)));
  }

  // ---------------------------------------------------------------------------
  // Redirect

  /** What one redirect request answers and leaves behind in the cache and the task list. */
  datatype RedirectStep = RedirectStep(
    response: Result<Redirect, ApiError>,
    entries: map<string, string>,
    calls: seq<CacheOp>,
    tasks: seq<Store.Task>)

  /**
    The redirect over cache `entries` and the rows `view` the service sees. A
    non-empty cached value under the code's key is served as is; otherwise the
    service is asked (LinkNotFoundError propagates, nothing is cached and no task
    is queued) and the URL it returns is cached for five minutes. Every redirect
    served queues one counter increment for the code as requested.
  */
  function RedirectSpec(entries: map<string, string>, view: map<string, Link>, shortCode: string): (s: RedirectStep)
    requires KeyedByCode(view)
    ensures var key := RedirectKey(shortCode);
      var hit := key in entries && entries[key] != "";
      && (s.response.Err? <==> !hit && Strip(shortCode) !in view)
      && (s.response.Err? ==> s.response.error == LinkNotFoundError)
      && (s.response.Ok? ==> s.response.value.statusCode == HTTP_302_FOUND)
      && (hit ==> s.response.Ok? && s.response.value.url == entries[key] && s.entries == entries)
      && (!hit && s.response.Ok? ==>
            && Strip(shortCode) in view
            && s.response.value.url == view[Strip(shortCode)].longUrl
            && s.entries == entries[key := view[Strip(shortCode)].longUrl])
      && (s.response.Err? ==> s.entries == entries)
      && s.tasks == (if s.response.Ok? then [Store.IncrementCounter(shortCode)] else [])
      && s.calls == [BackendAcquired]
                    + (if !hit && s.response.Ok? && Strip(shortCode) in view
                       then [Stored(key, view[Strip(shortCode)].longUrl, REDIRECT_CACHE_SECONDS)]
                       else [])
  {
    var key := RedirectKey(shortCode);
    var cached := if key in entries then Some(entries[key]) else None;
    assert Truthy(cached) <==> key in entries && entries[key] != "";
    if Truthy(cached) then
      RedirectStep(Ok(Redirect(cached.value, HTTP_302_FOUND)), entries, [BackendAcquired],
                   [Store.IncrementCounter(shortCode)])
    else
      match Service.Get(view, shortCode)
      case Err(e) => RedirectStep(Err(e), entries, [BackendAcquired], [])
      case Ok(link) =>
        RedirectStep(Ok(Redirect(link.longUrl, HTTP_302_FOUND)),
                     entries[key := link.longUrl],
                     [BackendAcquired, Stored(key, link.longUrl, REDIRECT_CACHE_SECONDS)],
                     [Store.IncrementCounter(shortCode)])
  }

  /** `redirect_link` over the service's session, the shared cache and the request's background tasks. */
  method RedirectLink(service: Service.LinkService, shortCode: string, cache: Cache, queue: Store.TaskQueue)
    returns (r: Result<Redirect, ApiError>)
    requires service.Valid()
    modifies cache, queue
    ensures var s := RedirectSpec(old(cache.entries), service.session.view, shortCode);
      && r == s.response
      && cache.entries == s.entries
      && cache.log == old(cache.log) + s.calls
      && queue.pending == old(queue.pending) + s.tasks
  {
    cache.AcquireBackend();
    var cacheKey := LinkCacheKey(Endpoint.RedirectLink, Some(shortCode), map[]);
    var cachedUrl := cache.Get(cacheKey);
    if Truthy(cachedUrl) {
      queue.Add(Store.IncrementCounter(shortCode));
      return Ok(Redirect(cachedUrl.value, HTTP_302_FOUND));
    }
    var found := Service.Get(service.session.view, shortCode);
    if found.Err? {
      return Err(found.error);
    }
    var link := found.value;
    cache.Set(cacheKey, link.longUrl, REDIRECT_CACHE_SECONDS);
    queue.Add(Store.IncrementCounter(shortCode));
    r := Ok(Redirect(link.longUrl, HTTP_302_FOUND));
  }

  /**
    Asking twice, with the rows unchanged in between, gets the same answer: a
    miss caches exactly what it served, and a hit changes nothing.
  */
  lemma RedirectRepeatable(entries: map<string, string>, view: map<string, Link>, shortCode: string)
    requires KeyedByCode(view)
    ensures var first := RedirectSpec(entries, view, shortCode);
      RedirectSpec(first.entries, view, shortCode).response == first.response
  {
    var first := RedirectSpec(entries, view, shortCode);
    var key := RedirectKey(shortCode);
    if !(key in entries && entries[key] != "") && first.response.Ok? {
      var second := RedirectSpec(first.entries, view, shortCode);
      if key in first.entries && first.entries[key] != "" {
        assert second.response.value.url == first.entries[key] == first.response.value.url;
      }
    }
  }

  /**
    A cached target wins over the rows: while the key is cached, the redirect
    does not depend on what the store holds (this is why mutations invalidate).
  */
  lemma CachedRedirectIgnoresStore(entries: map<string, string>, v1: map<string, Link>, v2: map<string, Link>,
                                   shortCode: string)
    requires KeyedByCode(v1) && KeyedByCode(v2)
    requires RedirectKey(shortCode) in entries && entries[RedirectKey(shortCode)] != ""
    ensures RedirectSpec(entries, v1, shortCode) == RedirectSpec(entries, v2, shortCode)
  {
  }

  /**
    After `invalidate_cache` for a non-empty code, the redirect for that same
    code reads the store: the current row's URL, or LinkNotFoundError.
  */
  lemma RedirectAfterInvalidation(entries: map<string, string>, view: map<string, Link>, shortCode: string,
                                  originalUrl: Option<string>)
    requires KeyedByCode(view) && shortCode != ""
    ensures var s := RedirectSpec(entries - InvalidatedKeys(Some(shortCode), originalUrl), view, shortCode);
      s.response == (if Strip(shortCode) in view
                     then Ok(Redirect(view[Strip(shortCode)].longUrl, HTTP_302_FOUND))
                     else Err(LinkNotFoundError))
  {
    InvalidationCoversRedirect(shortCode, originalUrl, entries);
  }

  /**
    The round trip of shorten and redirect: once create has stored a link under
    its planned code, a redirect of that code that misses the cache answers with
    the stored URL.
  */
  lemma CreateThenRedirect(entries: map<string, string>, rows: map<string, Link>, settings: Service.Settings,
                           sha1Hex: string -> string, longUrl: string, customAlias: Option<string>, link: Link)
    requires KeyedByCode(rows) && Service.HexDigest(sha1Hex)
    requires Service.CreatePlan(rows, settings, sha1Hex, longUrl, customAlias).Ok?
    requires link.shortCode == Service.CreatePlan(rows, settings, sha1Hex, longUrl, customAlias).value
    requires RedirectKey(link.shortCode) !in entries
    ensures KeyedByCode(rows[link.shortCode := link])
    ensures RedirectSpec(entries, rows[link.shortCode := link], link.shortCode).response
            == Ok(Redirect(link.longUrl, HTTP_302_FOUND))
  {
    Service.CreateThenGet(rows, settings, sha1Hex, longUrl, customAlias, link);
  }

  // ---------------------------------------------------------------------------
  // Stats

  /** `link_stats`: the stats of the link under the stripped code, or LinkNotFoundError. */
  function LinkStats(view: map<string, Link>, shortCode: string): (r: Result<StatsLinkResponse, ApiError>)
    requires KeyedByCode(view)
    ensures r.Err? <==> Strip(shortCode) !in view
    ensures r.Err? ==> r.error == LinkNotFoundError
    ensures r.Ok? ==> var link := view[Strip(shortCode)];
      && r.value.originalUrl == link.longUrl
      && r.value.creationDatetime == link.createdAt
      && r.value.redirectAmount == link.redirectCounter
      && r.value.lastUsedDatetime == link.lastUsedAt
  {
    match Service.Get(view, shortCode)
    case Err(e) => Err(e)
    case Ok(link) => Ok(StatsLinkResponse(link.longUrl, link.createdAt, link.redirectCounter, link.lastUsedAt))
  }

  /**
    The stats after a counted redirect: one more redirect, last used at the
    minute of the redirect, the rest as before.
  */
  lemma StatsAfterIncrement(view: map<string, Link>, shortCode: string, now: int)
    requires KeyedByCode(view) && Strip(shortCode) in view
    ensures var before := view[Strip(shortCode)];
      var after := view[Strip(shortCode) := before.(redirectCounter := before.redirectCounter + 1,
                                                    lastUsedAt := Some(RoundToMinute(now)),
                                                    updatedAt := RoundToMinute(now))];
      && KeyedByCode(after)
      && LinkStats(after, shortCode).value
         == LinkStats(view, shortCode).value.(redirectAmount := before.redirectCounter + 1,
                                              lastUsedDatetime := Some(RoundToMinute(now)))
  {
  }
}
