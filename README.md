# URL shortener link store, modelled in Dafny

This project models the core of a FastAPI URL shortener. The model covers:

- the link service that creates, reads, updates and deletes short links;
- the periodic sweep that deletes outdated links;
- the cache-key builders and cache invalidation;
- the request validators, the `links` record and the API error kinds;
- the redirect endpoint that reads through the cache.

The table is a map from short code to `Link`, held by a `Session` class. The class has:

- `rows`: what is committed;
- `view`: what the session sees, its own pending writes included;
- `nextId`;
- a log of add, delete, commit, rollback and close calls.

The cache is a `Cache` class. It has a map from key to string and a log of backend calls. Work scheduled after a response (`BackgroundTasks`, `loop.create_task`) is recorded in a `TaskQueue`.

Outside effects become parameters:

- Time is an integer number of microseconds. `now` is passed in.
- The database's acceptance of a commit is passed in as `commitOk`.
- The SHA-1 hex digest and the `validators.url` check are function-typed parameters. The service's invariant (`LinkService.Valid`) requires the digest to write lower-case hexadecimal text only, as `hexdigest()` does.
- The configuration values are a `Settings` record.

Files, one module each:

- `common.dfy`: `Option` and `Result`
- `pystrings.dfy`: Python `strip`, `startswith` and `rstrip`
- `exceptions.dfy`: the error kinds
- `models.dfy`: the `links` row, its defaults and the table invariants
- `schemes.dfy`: the request validators
- `cache.dfy`: the cache backend
- `utils.dfy`: cache keys and invalidation
- `store.dfy`: the session and the task queue
- `service.dfy`: the link service
- `sweep.dfy`: the expiry sweep
- `router.dfy`: redirect, the short URL and the stats projection

Some behaviour is modelled as the code has it:

- `update` invalidates the cache under the short code as the caller gave it, and under the new URL only.
- `delete` swallows a failed commit. `create` and `update` re-raise it.
- For an alias, uniqueness is checked before length.
- `long_url` carries no database constraint. Its uniqueness (`UniqueUrls`) is proved to be preserved by `create`, `delete` and `increment_counter`, and by `update` for a URL without surrounding whitespace.

## Model

| member | source | states |
|---|---|---|
| PyStrings.Strip | src/links/service.py:69-70 | `str.strip()` over Python's whitespace set: the result is a contiguous slice of the input, everything before and after that slice is whitespace, and the result has no whitespace at either end |
| PyStrings.StripFixedPoint | src/links/service.py:244 | a string is its own strip exactly when neither end is whitespace |
| PyStrings.StripIdempotent | src/links/service.py:244 | stripping twice equals stripping once, so the URL create has already stripped is matched unchanged by the uniqueness query |
| PyStrings.RStrip | src/links/router.py:42 | `rstrip('/')`: the result is a prefix of the input, does not end in '/', and only '/' characters were dropped |
| PyStrings.RStripAppend | src/links/router.py:42 | one more trailing '/' does not change `rstrip('/')` |
| Exceptions.MakeApiError | src/links/exceptions.py:4-7 | an API error keeps the status and detail it is given; headers are `None` unless supplied |
| Exceptions.ToHttp | src/links/exceptions.py:10-55 | LinkNotFoundError is 404, PermissionDenied is 403, and the alias, short-code, URL and alias-length errors are 409; no error carries headers; each detail is the exception's message, with the offending alias, code or URL quoted in it |
| Exceptions.AliasLengthDetailFixed | src/links/exceptions.py:50-55 | the alias-length detail is the fixed message, whatever alias was rejected |
| Exceptions.ErrorsDistinguishable | src/links/exceptions.py:18-47 | status and detail identify the error and the alias, code or URL it embeds; only two alias-length errors cannot be told apart |
| Models.RoundToMinute | src/links/models.py:27-31 | zeroing seconds and microseconds gives a whole minute `r` with `r <= t < r + 1 minute` |
| Models.RoundToMinuteIdempotent | src/links/schemes.py:29-31 | rounding a rounded time changes nothing |
| Models.RoundToMinuteMonotone | src/links/models.py:27-31 | rounding keeps the order of timestamps |
| Models.NewLink | src/links/models.py:10-33 | a new row has counter 0, no last use, the given code, URL, author and expiry, and equal creation and update times rounded down to the minute of `now` |
| Models.RowsWithUrl | src/links/service.py:243-245 | the codes of exactly the rows whose `long_url` is the given URL |
| Models.UniqueUrlsAtMostOne | src/links/service.py:247 | while URLs are unique, a `long_url` query matches at most one row |
| Schemes.WithScheme | src/links/schemes.py:16-17 | the result always carries a scheme; a value with `http://` or `https://` is kept, any other gets `http://` in front |
| Schemes.ValidateLongUrl | src/links/schemes.py:14-20 | accepted exactly when `validators.url` accepts the prefixed value, which is then returned; otherwise "Wrong URL" |
| Schemes.ValidateLongUrlIdempotent | src/links/schemes.py:14-20 | an accepted URL validates again to itself |
| Schemes.ValidateCustomAlias | src/links/schemes.py:22-26 | `None` passes; any other alias passes exactly when its length is 4 to 16, otherwise the alias-length message |
| Schemes.ValidateExpiresAt | src/links/schemes.py:28-34 | `None` passes; a time is rounded to the minute and refused, with "Expires date must be in the future", exactly when the rounded value is before `now` |
| Schemes.ValidateExpiresAtIdempotent | src/links/schemes.py:28-34 | an accepted expiry is a whole minute and validates again to itself |
| Schemes.ExpiryInCurrentMinuteRefused | src/links/schemes.py:30-33 | rounding before the check refuses an expiry later than `now` but within now's minute |
| Schemes.ValidateCreateLinkRequest | src/links/schemes.py:7-34 | a shorten request is accepted exactly when all three validators pass, with their outputs as fields; otherwise the error lists the message of every failing validator, in field order (URL, alias, expiry) |
| Schemes.ValidateUpdateLinkRequest | src/links/schemes.py:37-64 | an update request is accepted exactly when its URL and expiry validators pass, and has no alias; otherwise the error lists the failing validators' messages, URL first |
| Schemes.UpdateRulesMatchCreate | src/links/schemes.py:37-64 | an update body is accepted exactly when a shorten body with the same URL and expiry and no alias is, with the same values |
| CacheBackend.Cache.Get | src/links/router.py:130 | `backend.get` returns the stored value under the key, or nothing when the key is absent |
| CacheBackend.Cache.AcquireBackend | src/links/utils.py:41 | getting the backend changes no entry and is logged |
| CacheBackend.Cache.Set | src/links/router.py:138 | `set` maps the key to the value, leaves every other entry as it was, and is logged with its expiry |
| CacheBackend.Cache.ClearByKey | src/links/utils.py:55-56 | `clear(key=...)` removes that key only |
| CacheBackend.Cache.ClearPositional | src/links/utils.py:64 | `clear(search_key)` removes that key only, under the single-key reading stated under "Left out" |
| Utils.KeyLayout | src/links/utils.py:4-34 | the all-links key is "module:name" whatever the request; the link and search keys are "module:name:x" for a non-empty direct argument `x`, and end in ":None" when there is none |
| Utils.KwargsFallbackAgrees | src/links/utils.py:11-12 | with an empty direct argument, the code or URL is taken from `kwargs["kwargs"]`, giving the same key as passing it directly |
| Utils.KeysOfDifferentEndpointsDiffer | src/links/utils.py:16-25 | redirect, stats and search keys never collide with one another |
| Utils.RedirectKeyInjective | src/links/utils.py:16-25 | distinct non-empty codes have distinct redirect keys |
| Utils.InvalidateCache | src/links/utils.py:37-64 | with both arguments `None` nothing happens, not even getting the backend; otherwise exactly the redirect and stats keys of a truthy code and the search key of a truthy URL are removed, by these calls in this order |
| Utils.InvalidateBothClearsThree | src/links/utils.py:43-64 | a code and a URL together clear exactly three distinct keys, in three clear calls after getting the backend |
| Utils.InvalidationCoversRedirect | src/links/router.py:128 | invalidating a code removes the very key the redirect endpoint reads for it |
| Store.Session.Add | src/links/service.py:103 | `session.add` stages the row under its code with the next id; the committed rows are untouched |
| Store.Session.Put | src/links/service.py:155 | a field assignment on a loaded row replaces that row in the session's view only |
| Store.Session.Delete | src/tasks/tasks.py:48 | a delete removes the code from the session's view only |
| Store.Session.Commit | src/links/service.py:104 | a successful commit publishes the view; a failed one leaves the committed rows |
| Store.Session.Rollback | src/links/service.py:106 | a rollback drops every pending write |
| Store.Session.Close | src/tasks/tasks.py:20 | leaving the session's block drops whatever was not committed |
| Store.SelectRows | src/links/service.py:181-183 | `scalars().all()` over the selected codes returns each of their rows exactly once |
| Store.TaskQueue.Add | src/links/router.py:134 | scheduling a task appends it after those already scheduled |
| Service.FindByShortCode | src/links/service.py:193-198 | the row found is the one whose code equals the stripped argument, when there is one |
| Service.Get | src/links/service.py:47-59 | `get` and `get_stats` return the row stored under the stripped code, and raise LinkNotFoundError exactly when there is none |
| Service.ShortCodeUniqueOrRaise | src/links/service.py:219-234 | raises NonUniqueShortCodeError naming the code exactly when some row carries that exact code |
| Service.UrlUniqueOrRaise | src/links/service.py:236-249 | raises exactly when some row holds the stripped URL; while URLs are unique the error is UrlAlreadyExists naming the URL as passed |
| Service.AliasUniqueOrRaise | src/links/service.py:213-217 | a taken alias gives NonUniqueAliasError whatever its length; a free alias of length outside 4 to 16 gives AliasLengthError; otherwise it passes |
| Service.GenerateShortCode | src/links/service.py:207-211 | the code is the prefix of the hex digest of length `SHORT_CODE_LENGTH`, or the whole digest when that is shorter |
| Service.CodeIsHex | src/links/service.py:210-211 | a code cut from a hexadecimal digest is hexadecimal |
| Service.CandidateIsHex | src/links/service.py:78-87 | every code the retry loop can try is hexadecimal, so stripping it changes nothing |
| Service.CandidateLength | src/links/service.py:207-211 | with a 40-character digest and a code length of at most 40, every candidate code has exactly the configured length |
| Service.FirstFreeIndexSound | src/links/service.py:79-92 | the chosen candidate is free and all earlier ones are taken; none is chosen exactly when all `1 + CODE_GENERATION_ATTEMPTS` candidates are taken |
| Service.GenerateUniqueShortCode | src/links/service.py:78-92 | the retry loop ends with the earliest free candidate (the URL's code, then re-hashes of the previous code plus the secret), and reports failure exactly when every allowed candidate is taken |
| Service.CreatePlan | src/links/service.py:61-92 | the short code create inserts is one no row carries |
| Service.CodePlan | src/links/service.py:74-92 | once the URL is free, the alias (after its checks) or a generated code, and the code chosen is one no row carries |
| Service.FreeUrlPlan | src/links/service.py:69-74 | with a non-empty URL no row holds, create's outcome is decided by the alias or the generated code alone |
| Service.AliasPlan | src/links/service.py:74-76 | a non-blank alias that is taken raises NonUniqueAliasError, then one of bad length raises AliasLengthError, else it is the code |
| Service.CreateChecksUrlFirst | src/links/service.py:69-72 | a stored URL makes create raise UrlAlreadyExists whatever alias is given |
| Service.CreateWithAlias | src/links/service.py:74-76 | with a free URL and a non-blank alias, a taken alias raises NonUniqueAliasError, then a bad length raises AliasLengthError, else the stripped alias is the code |
| Service.CreateWithGeneratedCode | src/links/service.py:77-92 | with no alias, create uses the earliest free candidate and raises "Cannot create short link" when all are taken |
| Service.PlannedCodeStripped | src/links/service.py:69-92 | the code create plans, a stripped alias or a hexadecimal candidate, is its own strip |
| Service.CreateThenGet | src/links/service.py:47-53 | the row create adds under its planned code is exactly what `get` of that code returns |
| Service.CreateKeepsUrlsUnique | src/links/service.py:94-104 | the row create adds keeps long URLs unique |
| Service.LinkService.Create | src/links/service.py:61-109 | nothing is written when a check fails or the commit fails (re-raised); otherwise exactly one row is added, under the planned code, with the stripped URL and the defaults, URL uniqueness is kept, and a lookup of the returned link's code gives back that link |
| Service.LinkService.ChooseShortCode | src/links/service.py:69-92 | the checks run in create's order and choose the code CreatePlan describes |
| Service.LinkService.Insert | src/links/service.py:102-107 | add then commit: on success exactly the new row is added with the next id; a failed commit is rolled back and re-raised with the table unchanged |
| Service.FindOwnedLink | src/links/service.py:117-123 | an absent stripped code gives LinkNotFoundError; a row of another author gives PermissionDenied; the author of the row always receives that row |
| Service.AnonymousLinksUnmanageable | src/links/service.py:122-123 | a link without an author can be neither updated nor deleted by any user |
| Service.UpdatePlan | src/links/service.py:145-163 | lookup and owner errors pass through; update succeeds exactly when the owner check passes and the URL is unchanged or held by no row; only the URL and the expiry change, the code and author never do; a changed URL first passes the uniqueness check; `updated_at` moves to now's minute exactly when a column changed |
| Service.UpdateRejectsTakenUrl | src/links/service.py:153-155 | a new URL held by a row makes update raise UrlAlreadyExists |
| Service.UpdateKeepsUrlsUnique | src/links/service.py:153-155 | the row update writes keeps long URLs unique (for a URL without surrounding whitespace) |
| Service.LinkService.Update | src/links/service.py:139-174 | on any error, a failed commit included, neither the table nor the cache changes; on success exactly the planned row is written and the cache is invalidated for the code as given and the new URL |
| Service.LinkService.Save | src/links/service.py:167-174 | a committed field change replaces exactly that row; a failed commit is rolled back and the table is unchanged |
| Service.DeleteStatementAsWritten | src/links/service.py:128-130 | the delete statement removes the row under the argument exactly as given, without stripping, and leaves every other row as it was |
| Service.PaddedDeleteKeepsRow | src/links/service.py:117-133 | " abcd" finds row "abcd" and passes the owner check, yet the statement as written keeps that row |
| Service.LinkService.Delete | src/links/service.py:111-137 | lookup and owner errors change nothing; otherwise exactly the row found is removed when the commit succeeds, a failed commit is swallowed and the row stays, and the cache is invalidated for the link's code and URL in both cases |
| Service.SearchCandidates | src/links/service.py:33-36 | the stripped URL is searched, plus its `https://` and `http://` forms exactly when the input has no scheme |
| Service.RowsWithAnyUrl | src/links/service.py:37-41 | the codes of exactly the rows whose URL is one of the candidates |
| Service.FindByLongUrlAsWritten | src/links/service.py:32-44 | as written: LinkNotFoundError exactly when no candidate matches, the link when exactly one row matches, and MultipleResultsFound when two or more rows match |
| Service.BareHostCandidates | src/links/service.py:33-36 | a bare host is searched under itself and both schemes |
| Service.SchemePairStorable | src/links/models.py:12 | two links whose URLs differ only in the scheme satisfy every table invariant |
| Service.SchemelessSearchRaises | src/links/service.py:37-41 | for those two links, a search for the bare host raises MultipleResultsFound instead of returning a link |
| Service.FirstMatch | src/links/service.py:33-41 | the row of the first candidate URL, in search order, that some row holds; none exactly when no candidate matches |
| Service.FindByLongUrl | src/links/service.py:32-44 | corrected search: LinkNotFoundError exactly when no candidate matches; otherwise a link holding a candidate URL, the exact stripped URL when stored, and never an error for several matches |
| Service.InsertNewestFirst | src/links/service.py:189 | inserting adds exactly one occurrence of the link |
| Service.InsertKeepsNewestFirst | src/links/service.py:189 | inserting keeps a list ordered by `created_at`, newest first |
| Service.CodesOf | src/links/service.py:188 | the codes of exactly the author's rows |
| Service.LinkService.IncrementCounter | src/links/service.py:200-205 | on a present code the counter goes up by exactly one and the last-use and update times become now's minute, nothing else changing; on an absent code nothing happens |
| Service.LinkService.GetAllRedirectLinks | src/links/service.py:176-183 | every row, each exactly once |
| Service.LinkService.GetLinksByAuthor | src/links/service.py:185-191 | exactly the author's rows, each once, newest first |
| Tasks.ExpiredAlwaysSelected | src/tasks/tasks.py:37 | a passed expiry selects a link whatever its update and last-use times |
| Tasks.PendingExpiryNeverSelected | src/tasks/tasks.py:26-37 | an expiry not yet passed protects a link, however stale it is |
| Tasks.NoExpiryRule | src/tasks/tasks.py:19-34 | without an expiry, a link is selected exactly when it was last updated more than the TTL ago and was never used or last used more than the TTL ago |
| Tasks.SevenDayTtl | src/tasks/tasks.py:27-34 | with a 7-day TTL, a never-used link updated one day ago stays; one updated eight days ago goes unless it was used within the TTL |
| Tasks.OutdatedCodes | src/tasks/tasks.py:24-41 | the codes of exactly the rows the filter selects |
| Tasks.DeleteOpsOnePerLink | src/tasks/tasks.py:46-48 | the sweep issues one delete per selected link, for that link's code, in order |
| Tasks.InvalidationTasksOnePerLink | src/tasks/tasks.py:46-50 | exactly one invalidation per deleted link, with that link's code and URL, in order |
| Tasks.DeleteBatch | src/tasks/tasks.py:46-50 | the loop removes exactly the links' codes from the session, logs one delete each, and schedules one invalidation each |
| Tasks.ClearOutdatedLinks | src/tasks/tasks.py:17-52 | the selected rows are the outdated ones, each once. With none there is no delete and no commit. Otherwise there is one commit for the batch: if it succeeds exactly the outdated rows are gone, and if it fails the rows stay and the task raises after the invalidations were scheduled. The session is closed in every case |
| Tasks.SweepKeepsUnselected | src/tasks/tasks.py:41-52 | after a successful sweep a row remains exactly when it was not outdated |
| Router.ShortLinkUrl | src/links/router.py:42 | the short URL ends in "/links/" and the code, after the base URL with its trailing slashes removed |
| Router.ShortLinkUrlIgnoresTrailingSlash | src/links/router.py:42 | a base URL with or without a trailing slash gives the same short URL |
| Router.ShortLinkUrlInjective | src/links/router.py:42 | different codes give different short URLs under one base URL |
| Router.ShortLinkUrlExample | src/links/router.py:42 | "http://test/" and "abcd" give "http://test/links/abcd" |
| Router.ShortenLink | src/links/router.py:27-43 | succeeds exactly when create does; the response is the short URL of the planned code, which is then stored |
| Router.RedirectSpec | src/links/router.py:119-140 | a non-empty cached value is served with 302 and nothing stored. On a miss, an absent code propagates LinkNotFoundError with no cache write and no task; a present code caches the URL for 300 seconds and redirects to it. One counter task is scheduled for every redirect served |
| Router.RedirectLink | src/links/router.py:119-140 | the endpoint's response, cache entries, backend calls and scheduled tasks are those of RedirectSpec |
| Router.RedirectRepeatable | src/links/router.py:130-140 | with the rows unchanged, a second redirect answers as the first did |
| Router.CachedRedirectIgnoresStore | src/links/router.py:130-135 | on a cache hit the answer does not depend on the stored rows |
| Router.RedirectAfterInvalidation | src/links/router.py:127-140 | after invalidating a non-empty code, the redirect for that code answers from the store |
| Router.CreateThenRedirect | src/links/router.py:127-140 | once create has stored a link, a redirect of its code that misses the cache answers 302 with the stored URL |
| Router.LinkStats | src/links/router.py:188-197 | stats exist exactly when the stripped code is stored; `redirect_amount` is the row's counter, with its URL, creation and last-use times |
| Router.StatsAfterIncrement | src/links/router.py:192-197 | after a counted redirect the stats show one more redirect and the new last use, the rest unchanged |

## Left out

- Time is one `now` per operation. The several `datetime.utcnow()` readings inside one call are taken to agree. Time zones and `replace(tzinfo=None)` are not modelled.
- `redirect_counter` is an unbounded natural number. The 32-bit integer column's overflow is not modelled.
- Cache entries never expire. The `expire=` seconds are only logged, and the `@cache` decorator's TTL eviction is not part of this model.
- CacheBackend.Cache.ClearPositional: `backend.clear(search_key)` passes the key as the backend's `namespace` argument. The application configures a `RedisBackend` (src/main.py:22), whose namespace clear deletes the keys under `search_key:` rather than `search_key` itself. The model nevertheless removes that one key, so the removal of the search key in `Utils.InvalidateCache` is an assumption the deployed backend does not meet. The backend library is not part of this model.
- Pydantic collects every validator failure into one error. The model keeps the failing messages in field order, without pydantic's error structure.
- Schemes.ValidateCreateLinkRequest, Schemes.ValidateUpdateLinkRequest: `expiresAt == None` stands for an explicit `null`. `expires_at` is declared `Optional[datetime]` with no default, so pydantic refuses a body that omits the field ("Field required") before any validator runs. The model does not represent field presence.
- `increment_counter` commits without a `try`. The model always lets that commit succeed, because a failure would surface only in the background task.
- Concurrency between requests, background-task execution order and the Celery schedule are not modelled. Scheduled tasks are only recorded, in order.
- The datetime rendering of `link_stats` (`strftime`) and the CSV export are output formatting and are left out. Stats carry the instants themselves.
- Authentication is reduced to an optional user id.
- `link_stats` is wrapped in `@cache(expire=5)` (src/links/router.py:182). `Router.LinkStats` reads the store directly, so the up to five seconds of stale stats that read-through allows are not modelled.
- The sweep's `logger.info` calls (src/tasks/tasks.py:43, 47) are logging output and are left out.
- `Settings` holds `codeGenerationAttempts`, `shortCodeLength` and `linkTtlInDays` as natural numbers. Negative configuration values, for which Python's `range` and `[:n]` still behave in a defined way, are outside the model.
- SHA-1 and `validators.url` are foreign calls passed in as functions. The digest is assumed to be hexadecimal throughout, and 40 characters only where a code length is stated.
- The cache backend never fails in this model. `invalidate_cache` has no `try`, so in the source a backend error propagates to the caller.
- Service.LinkService.Update: assumes a cache backend that never fails. In the source, a backend error during invalidation, after the commit, is caught by the same `try`: the rollback comes after the commit and the error is re-raised with the row already changed. The model's "on any error neither the table nor the cache changes" holds only for a backend that never fails.
- Service.LinkService.Delete: assumes a cache backend that never fails. In the source, a backend error during invalidation raises after the row has been deleted, and the link is not returned.
- The search endpoint, the listing endpoints and the HTTP exception handlers of the router are not part of this model.
- Service.UpdateKeepsUrlsUnique: requires a URL without surrounding whitespace. Update writes the URL unstripped but checks the stripped one, so the same padded URL could be written to two rows. Validated URLs start with a scheme, and what `validators.url` accepts at the end is not modelled.
- Service.LinkService.Update: invalidates under the code as the caller gave it, as the code does. With a padded code, the redirect and stats keys of the stored code are not cleared.

## Findings

| source | as written | input that shows it | evidently intended | confidence | as-written member | corrected member |
|---|---|---|---|---|---|---|
| src/links/service.py:37-41 | one query for the stripped URL and both scheme forms, read with `scalar_one_or_none` | rows "http://a.example" and "https://a.example" (both accepted by create), search "a.example" | return a matching link (the exact URL first), never fail because two forms are stored | not executed | Service.SchemelessSearchRaises | Service.FindByLongUrl |
| src/links/service.py:128-130 | the lookup strips the code, the delete statement uses the code as given | row "abcd" owned by user 7, delete " abcd" as user 7: the checks pass and the link is returned, but no row is deleted | delete the row that was found | not executed | Service.PaddedDeleteKeepsRow | Service.LinkService.Delete |
