/**
  Cache keys and cache invalidation. A key is the cached endpoint's module and
  function name, then (for the per-link and search endpoints) the discriminating
  request parameter, all joined with ':'.
*/
module Utils {
  import opened Common
  import opened CacheBackend

  /** The router endpoints whose responses are cached under a built key. */
  datatype Endpoint = RedirectLink | LinkStats | SearchLinkByOriginalUrl | GetAllLinks

  /** `func.__module__` of every endpoint. */
  const ROUTER_MODULE: string := "src.links.router"

  /** `func.__name__` */
  function FuncName(func: Endpoint): string {
    match func
    case RedirectLink => "redirect_link"
    case LinkStats => "link_stats"
    case SearchLinkByOriginalUrl => "search_link_by_original_url"
    case GetAllLinks => "get_all_links"
  }

  /** Python's truthiness of an optional string: neither `None` nor empty. */
  predicate Truthy(s: Option<string>) {
    s.Some? && s.value != ""
  }

  /** `f"{x}"` for a string or `None`. */
  function Render(x: Option<string>): string {
    match x
    case None => "None"
    case Some(s) => s
  }

  /**
    The parameter a builder puts in the key: the direct argument when truthy,
    otherwise `kwargs.get("kwargs", {}).get(name)`, where `callKwargs` is the
    endpoint's keyword arguments (empty when absent).
  */
  function Parameter(direct: Option<string>, callKwargs: map<string, string>, name: string): Option<string> {
    if Truthy(direct) then direct
    else if name in callKwargs then Some(callKwargs[name])
    else None
  }

  /** `get_all_links_key_builder`: "module:name", whatever the request. */
  function AllLinksKey(func: Endpoint): string {
    ROUTER_MODULE + ":" + FuncName(func)
  }

  /** `search_cache_key_builder`: "module:name:original_url". */
  function SearchCacheKey(func: Endpoint, originalUrl: Option<string>, callKwargs: map<string, string>): string {
    AllLinksKey(func) + ":" + Render(Parameter(originalUrl, callKwargs, "original_url"))
  }

  /** `get_link_cache_key_builder`: "module:name:short_code". */
  function LinkCacheKey(func: Endpoint, shortCode: Option<string>, callKwargs: map<string, string>): string {
    AllLinksKey(func) + ":" + Render(Parameter(shortCode, callKwargs, "short_code"))
  }

  /** The key the redirect path reads and writes for `code`. */
  function RedirectKey(code: string): string {
    LinkCacheKey(RedirectLink, Some(code), map[])
  }

  /** The key of the cached stats response for `code`. */
  function StatsKey(code: string): string {
    LinkCacheKey(LinkStats, Some(code), map[])
  }

  /** The key of the cached search response for `url`. */
  function SearchKey(url: string): string {
    SearchCacheKey(SearchLinkByOriginalUrl, Some(url), map[])
  }

  /**
    The layout of the keys: "module:name" for the listing, and "module:name:x" for
    the per-link and search keys, where a non-empty direct argument `x` wins over
    whatever the keyword arguments hold, and a missing one renders as "None".
  */
  lemma KeyLayout(func: Endpoint, x: string, callKwargs: map<string, string>)
    ensures AllLinksKey(func) == ROUTER_MODULE + ":" + FuncName(func)
    ensures x != "" ==> LinkCacheKey(func, Some(x), callKwargs) == ROUTER_MODULE + ":" + FuncName(func) + ":" + x
    ensures x != "" ==> SearchCacheKey(func, Some(x), callKwargs) == ROUTER_MODULE + ":" + FuncName(func) + ":" + x
    ensures LinkCacheKey(func, None, map[]) == ROUTER_MODULE + ":" + FuncName(func) + ":None"
    ensures SearchCacheKey(func, Some(""), map[]) == ROUTER_MODULE + ":" + FuncName(func) + ":None"
  {
  }

  /**
    A key built from the endpoint's keyword arguments (the way the caching
    decorator calls a builder) equals the key built from a direct argument.
  */
  lemma KwargsFallbackAgrees(func: Endpoint, code: string, url: string)
    requires code != "" && url != ""
    ensures LinkCacheKey(func, None, map["short_code" := code]) == LinkCacheKey(func, Some(code), map[])
    ensures SearchCacheKey(func, None, map["original_url" := url]) == SearchCacheKey(func, Some(url), map[])
  {
  }

  /** The character right after "module:" names the endpoint. */
  lemma KeyMark(func: Endpoint, x: string)
    ensures |ROUTER_MODULE| == 16
    ensures AllLinksKey(func) + ":" + x == ROUTER_MODULE + ":" + FuncName(func) + ":" + x
    ensures (AllLinksKey(func) + ":" + x)[17] == FuncName(func)[0]
  {
  }

  /** Keys of different per-link and search endpoints never collide. */
  lemma {:induction false} KeysOfDifferentEndpointsDiffer(a: string, b: string)
    ensures RedirectKey(a) != StatsKey(b)
    ensures RedirectKey(a) != SearchKey(b)
    ensures StatsKey(a) != SearchKey(b)
  {
    KeyMark(RedirectLink, Render(Parameter(Some(a), map[], "short_code")));
    KeyMark(LinkStats, Render(Parameter(Some(b), map[], "short_code")));
    KeyMark(LinkStats, Render(Parameter(Some(a), map[], "short_code")));
    KeyMark(SearchLinkByOriginalUrl, Render(Parameter(Some(b), map[], "original_url")));
  }

  /** Distinct non-empty short codes have distinct redirect keys. */
  lemma {:induction false} RedirectKeyInjective(a: string, b: string)
    requires a != "" && b != ""
    requires RedirectKey(a) == RedirectKey(b)
    ensures a == b
  {
    var prefix := AllLinksKey(RedirectLink) + ":";
    assert RedirectKey(a) == prefix + a && RedirectKey(b) == prefix + b;
    assert a == (prefix + a)[|prefix|..];
    assert b == (prefix + b)[|prefix|..];
  }

  /** The keys `invalidate_cache` removes: redirect and stats for a code, search for a URL. */
  function InvalidatedKeys(shortCode: Option<string>, originalUrl: Option<string>): set<string> {
    (if Truthy(shortCode) then {RedirectKey(shortCode.value), StatsKey(shortCode.value)} else {})
    + (if Truthy(originalUrl) then {SearchKey(originalUrl.value)} else {})
  }

  /** The backend calls `invalidate_cache` makes, in order. */
  function InvalidationCalls(shortCode: Option<string>, originalUrl: Option<string>): seq<CacheOp> {
    if shortCode.None? && originalUrl.None? then []
    else
      [BackendAcquired]
      + (if Truthy(shortCode)
         then [KeyCleared(RedirectKey(shortCode.value), ""), KeyCleared(StatsKey(shortCode.value), "")]
         else [])
      + (if Truthy(originalUrl) then [PositionalCleared(SearchKey(originalUrl.value))] else [])
  }

  /**
    `invalidate_cache`: with both arguments `None` the backend is not touched;
    otherwise the redirect and stats keys of a truthy code and the search key of a
    truthy URL are cleared, and nothing else.
  */
  method InvalidateCache(cache: Cache, shortCode: Option<string>, originalUrl: Option<string>)
    modifies cache
    ensures cache.entries == old(cache.entries) - InvalidatedKeys(shortCode, originalUrl)
    ensures cache.log == old(cache.log) + InvalidationCalls(shortCode, originalUrl)
  {
    if shortCode.None? && originalUrl.None? {
      return;
    }
    cache.AcquireBackend();
    if Truthy(shortCode) {
      var redirectKey := LinkCacheKey(RedirectLink, shortCode, map[]);
      var statsKey := LinkCacheKey(LinkStats, shortCode, map[]);
      cache.ClearByKey(redirectKey, "");
      cache.ClearByKey(statsKey, "");
    }
    if Truthy(originalUrl) {
      var searchKey := SearchCacheKey(SearchLinkByOriginalUrl, originalUrl, map[]);
      cache.ClearPositional(searchKey);
    }
  }

  /** With both a code and a URL, exactly three distinct keys are cleared by three calls. */
  lemma InvalidateBothClearsThree(code: string, url: string)
    requires code != "" && url != ""
    ensures |InvalidatedKeys(Some(code), Some(url))| == 3
    ensures |InvalidationCalls(Some(code), Some(url))| == 4
    ensures InvalidationCalls(Some(code), Some(url))[0] == BackendAcquired
  {
    KeysOfDifferentEndpointsDiffer(code, url);
    KeysOfDifferentEndpointsDiffer(code, code);
  }

  /** Invalidating a code removes the very key the redirect path reads for it. */
  lemma InvalidationCoversRedirect(code: string, url: Option<string>, entries: map<string, string>)
    requires code != ""
    ensures RedirectKey(code) in InvalidatedKeys(Some(code), url)
    ensures RedirectKey(code) !in entries - InvalidatedKeys(Some(code), url)
  {
  }
}
